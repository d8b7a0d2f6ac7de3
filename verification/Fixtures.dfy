// The histories the checker is itself checked with.
module Fixtures {
  import opened Wrappers
  import opened Kv
  import opened History
  import opened Checker
  import opened Linearizability
  import opened Explanation
  import opened Limits
  import opened Rejection

  function PutOp(client: int, value: string, start: int, end: int, outcome: Outcome): Op {
    Op(client, Put, "k", value, None, start, end, outcome, outcome.Succeeded?, false, "", "")
  }

  function GetOp(client: int, start: int, end: int, value: Option<string>): Op {
    Op(client, Get, "k", "", None, start, end, Succeeded, true, value.Some?,
       if value.Some? then value.value else "", "")
  }

  function CasOp(client: int, expected: string, value: string, start: int, end: int): Op {
    Op(client, Cas, "k", value, Some(expected), start, end, Succeeded, true, false, "", "")
  }

  lemma {:induction false} Distinctness()
    ensures "a" != "b" && "b" != "a" && "a" != "never" && "never" != "a" && "x" != "never"
    ensures "w1" != "base" && "w2" != "base" && "w1" != "w2"
  {
    assert "a"[0] == 'a' && "b"[0] == 'b' && "never"[0] == 'n' && "x"[0] == 'x';
    assert "w1"[0] == 'w' && "w2"[0] == 'w' && "base"[0] == 'b' && "w1"[1] == '1' && "w2"[1] == '2';
  }

  // A read of a value strictly after its acknowledged overwrite.
  lemma {:induction false} KnownBadIsRejected()
    ensures !Accepts(Checkable([
              PutOp(1, "a", 10, 20, Succeeded), PutOp(1, "b", 30, 40, Succeeded), GetOp(2, 50, 60, Some("a"))]))
  {
    var a, b, g := PutOp(1, "a", 10, 20, Succeeded), PutOp(1, "b", 30, 40, Succeeded), GetOp(2, 50, 60, Some("a"));
    var h := [a, b, g];
    Distinctness();
    assert h[2] in h && h[1] in h;
    assert Between(a, b, g);
    StaleReadsAreRejected(h, g, Some("a"));
  }

  // A cas that won expecting a value that was never written.
  lemma {:induction false} ImpossibleCasIsRejected()
    ensures !Accepts(Checkable([PutOp(1, "a", 10, 20, Succeeded), CasOp(2, "never", "x", 30, 40)]))
  {
    var h := [PutOp(1, "a", 10, 20, Succeeded), CasOp(2, "never", "x", 30, 40)];
    Distinctness();
    assert h[1] in h;
    StaleReadsAreRejected(h, h[1], Some("never"));
  }

  // Two cas that both won from the same expected value.
  lemma {:induction false} DoubleWinnerIsRejected()
    ensures !Accepts(Checkable([
              PutOp(1, "base", 0, 5, Succeeded), CasOp(2, "base", "w1", 10, 20), CasOp(3, "base", "w2", 12, 22)]))
  {
    var p, a, b := PutOp(1, "base", 0, 5, Succeeded), CasOp(2, "base", "w1", 10, 20), CasOp(3, "base", "w2", 12, 22);
    var h := [p, a, b];
    Distinctness();
    assert multiset(h) == multiset{p, a, b};
    DoubleWinnersAreRejected(h, a, b);
  }

  // ----- Histories that must be accepted -----

  // w explains itself, leaves the store m and was invoked by time t.
  ghost predicate Reaches(w: seq<Op>, m: Store, t: int) {
    && InRealTime(w) && Answers(map[], w) && Replay(map[], Proposals(w)) == m && NoneStartsAfter(t, w)
    && forall x | x in w :: Proper(x) && x.outcome.Succeeded?
  }

  predicate Proper(x: Op) {
    x.op.Declared() && !x.outcome.Undeclared? && x.start <= x.end < MAX_INT64
  }

  // One more acknowledged record.
  lemma {:induction false} Onwards(w: seq<Op>, m: Store, t: int, x: Op)
    requires Reaches(w, m, t) && t <= x.start && Proper(x)
    requires x.outcome.Succeeded? && Agrees(x, Respond(m, CommandOf(x)))
    ensures Reaches(w + [x], After(m, CommandOf(x)), x.start)
  {
    ExplanationSnoc(map[], w, x);
    ProposalsSnoc(map[], w, x);
  }

  // ... of an operation on the key in a store that holds nothing else.
  lemma {:induction false} Next(w: seq<Op>, held: Option<string>, t: int, x: Op, next: Option<string>)
    requires Reaches(w, Holding(held), t) && t <= x.start && Proper(x)
    requires x.key == "k" && x.outcome.Succeeded?
    requires match x.op
             case Put => next == Some(x.value)
             case Get => next == held && x.present == held.Some? && (held.Some? ==> x.retVal == held.value)
             case Delete => next == None
             case Cas => next == (if x.expected == held then Some(x.value) else held) && x.ok == (x.expected == held)
             case Other(_) => true
    ensures Reaches(w + [x], Holding(next), x.start)
  {
    Onwards(w, Holding(held), t, x);
    assert After(Holding(held), CommandOf(x)) == Holding(next);
  }

  function Holding(held: Option<string>): Store {
    if held.Some? then map["k" := held.value] else map[]
  }

  lemma {:induction false} NothingReaches()
    ensures Reaches([], Holding(None), 0)
  {
    assert Proposals([]) == [];
  }

  // An explained history with an unanswered record before its last one.
  lemma {:induction false} UnansweredIsHarmless(a: seq<Op>, x: Op, g: Op, m: Store, t: int)
    requires Reaches(a + [g], m, t) && Proper(x) && x.outcome.Unknown?
    ensures Accepts(Checkable(a + [x] + [g]))
  {
    ReachesExplains(a + [g], m, t);
    UnknownKeepsExplanation(a, x, [g]);
    assert forall y | y in a + [x] + [g] :: y == x || y in a + [g];
    ProperIsAccepted(a + [x] + [g]);
  }

  lemma {:induction false} ReachesExplains(w: seq<Op>, m: Store, t: int)
    requires Reaches(w, m, t)
    ensures Explainable(w)
  {
    assert Explains(w, w);
  }

  lemma {:induction false} ProperIsAccepted(h: seq<Op>)
    requires Explainable(h) && forall x | x in h :: Proper(x)
    ensures Accepts(Checkable(h))
  {
    AcceptanceIsExplanation(h);
  }

  // An unanswered write that never became visible must not fail the check.
  lemma {:induction false} UnknownWriteMayVanish()
    ensures Accepts(Checkable(
              [] + [PutOp(1, "a", 0, 5, Succeeded)] + [PutOp(2, "ghost", 10, 15, Unknown)] + [GetOp(1, 20, 25, Some("a"))]))
  {
    var p, g := PutOp(1, "a", 0, 5, Succeeded), GetOp(1, 20, 25, Some("a"));
    NothingReaches();
    Next([], None, 0, p, Some("a"));
    Next([] + [p], Some("a"), 0, g, Some("a"));
    UnansweredIsHarmless([] + [p], PutOp(2, "ghost", 10, 15, Unknown), g, Holding(Some("a")), 20);
  }

  const LOST := CasOp(3, "a", "c", 45, 65).(ok := false, present := true, retVal := "b")
  const DELETED := Op(2, Delete, "k", "", None, 70, 80, Succeeded, true, true, "", "")

  function FirstHalf(): seq<Op> {
    [] + [PutOp(1, "a", 10, 20, Succeeded)] + [GetOp(2, 15, 25, Some("a"))] + [CasOp(1, "a", "b", 30, 40).(ok := true)]
  }

  function Answered(): seq<Op> {
    FirstHalf() + [LOST] + [GetOp(2, 50, 60, Some("b"))] + [DELETED]
  }

  lemma {:induction false} FirstHalfReaches()
    ensures Reaches(FirstHalf(), Holding(Some("b")), 30)
  {
    NothingReaches();
    Next([], None, 0, PutOp(1, "a", 10, 20, Succeeded), Some("a"));
    var w := [] + [PutOp(1, "a", 10, 20, Succeeded)];
    Next(w, Some("a"), 10, GetOp(2, 15, 25, Some("a")), Some("a"));
    Next(w + [GetOp(2, 15, 25, Some("a"))], Some("a"), 15, CasOp(1, "a", "b", 30, 40).(ok := true), Some("b"));
  }

  lemma {:induction false} AnsweredReaches()
    ensures Reaches(Answered(), Holding(None), 70)
  {
    FirstHalfReaches();
    Distinctness();
    var w := FirstHalf();
    Next(w, Some("b"), 30, LOST, Some("b"));
    Next(w + [LOST], Some("b"), 45, GetOp(2, 50, 60, Some("b")), Some("b"));
    Next(w + [LOST] + [GetOp(2, 50, 60, Some("b"))], Some("b"), 50, DELETED, None);
  }

  // The known-good history: overlapping reads, a lost cas, a delete, and a put that
  // was never answered.
  lemma {:induction false} KnownGoodIsAccepted()
    ensures Accepts(Checkable(Answered() + [PutOp(3, "z", 85, 88, Unknown)] + [GetOp(2, 90, 95, None)]))
  {
    var x, g := PutOp(3, "z", 85, 88, Unknown), GetOp(2, 90, 95, None);
    AnsweredReaches();
    Next(Answered(), None, 70, g, None);
    UnansweredIsHarmless(Answered(), x, g, Holding(None), 90);
  }
}
