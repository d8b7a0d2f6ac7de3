// The relation between a committed log and a recorded history that a run of the
// system keeps, and what follows from it for the checker and for clients.
module Ledger {
  import opened Wrappers
  import opened Kv
  import opened History
  import opened Clients
  import opened Checker
  import opened Linearizability
  import opened Explanation

  // One committed entry: when it was committed, and the position in the history
  // of the record of the operation that proposed it, once there is one.
  datatype Line = Line(entry: Entry, at: int, owner: Option<nat>)

  function EntryOf(l: Line): Entry {
    l.entry
  }

  function EntriesOf(lines: seq<Line>): seq<Entry> {
    LogOf(EntryOf, lines)
  }

  // What an acknowledged operation was told.
  function AnswerOf(x: Op): Response {
    Reply(Result(x.ok, x.present, x.retVal))
  }

  // Line i stands for record x: same command, not committed before x was invoked
  // and, if x was acknowledged, not after, and answered with the store's answer.
  ghost predicate StandsFor(m: Store, lines: seq<Line>, i: nat, x: Op)
    requires i < |lines|
  {
    && !x.outcome.Failed?
    && lines[i].entry == Cmd(CommandOf(x))
    && x.start <= lines[i].at
    && (x.outcome.Succeeded? ==>
          && lines[i].at <= x.end
          && AnswerOf(x) == Respond(Replay(m, EntriesOf(lines)[..i]), CommandOf(x)))
  }

  ghost predicate Owned(m: Store, lines: seq<Line>, h: seq<Op>, i: nat)
    requires i < |lines|
  {
    lines[i].owner.Some? ==>
      && lines[i].owner.value < |h|
      && StandsFor(m, lines, i, h[lines[i].owner.value])
  }

  ghost predicate Book(m: Store, lines: seq<Line>, h: seq<Op>) {
    && (forall i, j | 0 <= i < j < |lines| :: lines[i].at <= lines[j].at)
    && (forall i | 0 <= i < |lines| :: Owned(m, lines, h, i))
    && (forall i, j | 0 <= i < j < |lines| && lines[i].owner.Some? :: lines[i].owner != lines[j].owner)
  }

  ghost predicate HasLine(lines: seq<Line>, o: nat) {
    exists i :: 0 <= i < |lines| && lines[i].owner == Some(o)
  }

  // The books are in order and every acknowledged record has its line.
  ghost predicate Balanced(m: Store, lines: seq<Line>, h: seq<Op>) {
    && Book(m, lines, h)
    && forall o | 0 <= o < |h| && h[o].outcome.Succeeded? :: HasLine(lines, o)
  }

  // No operation is in flight: every command has its record.
  ghost predicate Settled(lines: seq<Line>) {
    forall i | 0 <= i < |lines| && lines[i].entry.Cmd? :: lines[i].owner.Some?
  }

  // A key that held something before the run is deleted before it is used.
  ghost predicate ResetFirst(m: Store, lines: seq<Line>) {
    forall i | 0 <= i < |lines| && lines[i].entry.Cmd? && lines[i].entry.cmd.key in m ::
      lines[i].entry.cmd.op.Delete? || DeletedBefore(lines, i, lines[i].entry.cmd.key)
  }

  ghost predicate DeletedBefore(lines: seq<Line>, n: nat, k: string)
    requires n <= |lines|
  {
    exists j :: 0 <= j < n && Deletes(lines[j].entry, k)
  }

  predicate Deletes(e: Entry, k: string) {
    e.Cmd? && e.cmd.op.Delete? && e.cmd.key == k
  }

  // ----- The history explained by the log -----

  // The owners of the lines, in log order, and their records.
  function Owners(lines: seq<Line>): seq<nat> {
    if lines == [] then []
    else
      var front := Owners(lines[..|lines|-1]);
      match lines[|lines|-1].owner
      case None => front
      case Some(o) => front + [o]
  }

  predicate Within(p: seq<nat>, n: nat) {
    forall i | 0 <= i < |p| :: p[i] < n
  }

  function Pick(h: seq<Op>, p: seq<nat>): (w: seq<Op>)
    requires Within(p, |h|)
    ensures |w| == |p|
    ensures forall i :: 0 <= i < |p| ==> w[i] == h[p[i]]
  {
    seq(|p|, i requires 0 <= i < |p| => h[p[i]])
  }

  ghost predicate Distinct(p: seq<nat>) {
    forall i, j | 0 <= i < j < |p| :: p[i] != p[j]
  }

  lemma {:induction false} OwnersAre(lines: seq<Line>, o: nat)
    ensures o in Owners(lines) <==> HasLine(lines, o)
  {
    if lines == [] {
    } else {
      var n := |lines| - 1;
      OwnersAre(lines[..n], o);
      if HasLine(lines, o) && lines[n].owner != Some(o) {
        var i :| 0 <= i < |lines| && lines[i].owner == Some(o);
        assert lines[..n][i].owner == Some(o);
      }
      if HasLine(lines[..n], o) {
        var i :| 0 <= i < n && lines[..n][i].owner == Some(o);
        assert lines[i].owner == Some(o);
      }
    }
  }

  lemma {:induction false} BookFront(m: Store, lines: seq<Line>, h: seq<Op>)
    requires Book(m, lines, h) && lines != []
    ensures Book(m, lines[..|lines|-1], h)
  {
    var front := lines[..|lines|-1];
    forall i | 0 <= i < |front| ensures Owned(m, front, h, i) {
      assert Owned(m, lines, h, i);
      assert EntriesOf(front)[..i] == EntriesOf(lines)[..i];
    }
  }

  lemma {:induction false} OwnersDistinct(m: Store, lines: seq<Line>, h: seq<Op>)
    requires Book(m, lines, h)
    ensures Distinct(Owners(lines)) && Within(Owners(lines), |h|)
  {
    if lines == [] {
    } else {
      var n := |lines| - 1;
      BookFront(m, lines, h);
      OwnersDistinct(m, lines[..n], h);
      assert Owned(m, lines, h, n);
      if lines[n].owner.Some? {
        OwnersAre(lines[..n], lines[n].owner.value);
      }
    }
  }

  // Distinct positions take each record at most as often as it occurs; what they
  // leave out stands at other positions.
  lemma {:induction false} PickLeaves(h: seq<Op>, p: seq<nat>)
    requires Distinct(p) && Within(p, |h|)
    ensures multiset(Pick(h, p)) <= multiset(h)
    ensures forall x | x in multiset(h) - multiset(Pick(h, p)) :: LeftOut(h, p, x)
    decreases |h|
  {
    if h == [] {
    } else {
      var n := |h| - 1;
      var front := h[..n];
      FrontLast(h);
      if n in p {
        var i :| 0 <= i < |p| && p[i] == n;
        var p' := p[..i] + p[i+1..];
        WithoutPosition(h, p, i);
        PickLeaves(front, p');
        PickWithout(h, p, i);
        forall x | x in multiset(front) - multiset(Pick(front, p')) ensures LeftOut(h, p, x) {
          LeftOutMore(h, p', p, x);
        }
      } else {
        NarrowPositions(p, n);
        assert Pick(h, p) == Pick(front, p);
        PickLeaves(front, p);
        forall x | x in multiset(front) - multiset(Pick(front, p)) ensures LeftOut(h, p, x) {
          LeftOutMore(h, p, p, x);
        }
        assert LeftOut(h, p, h[n]);
      }
    }
  }

  lemma {:induction false} NarrowPositions(p: seq<nat>, n: nat)
    requires Within(p, n + 1) && n !in p
    ensures Within(p, n)
  {
    forall i | 0 <= i < |p| ensures p[i] < n {
      assert p[i] in p;
    }
  }

  ghost predicate LeftOut(h: seq<Op>, p: seq<nat>, x: Op) {
    exists o: nat :: o < |h| && o !in p && h[o] == x
  }

  lemma {:induction false} LeftOutMore(h: seq<Op>, p': seq<nat>, p: seq<nat>, x: Op)
    requires h != [] && LeftOut(h[..|h|-1], p', x)
    requires forall o | o in p && o < |h| - 1 :: o in p'
    ensures LeftOut(h, p, x)
  {
    var o: nat :| o < |h| - 1 && o !in p' && h[..|h|-1][o] == x;
    assert h[o] == x;
  }

  lemma {:induction false} WithoutPosition(h: seq<Op>, p: seq<nat>, i: nat)
    requires Distinct(p) && Within(p, |h|)
    requires i < |p| && p[i] == |h| - 1
    ensures var p' := p[..i] + p[i+1..];
            && Distinct(p') && Within(p', |h| - 1)
            && (forall o | o in p && o < |h| - 1 :: o in p')
  {
    var p' := p[..i] + p[i+1..];
    forall q | 0 <= q < |p'| ensures p'[q] == p[if q < i then q else q + 1] {
    }
    assert p == p[..i] + [p[i]] + p[i+1..];
  }

  lemma {:induction false} PickWithout(h: seq<Op>, p: seq<nat>, i: nat)
    requires Within(p, |h|) && i < |p| && p[i] == |h| - 1
    requires Within(p[..i] + p[i+1..], |h| - 1)
    ensures multiset(Pick(h, p)) == multiset(Pick(h[..|h|-1], p[..i] + p[i+1..])) + multiset{h[|h|-1]}
  {
    var w, v := Pick(h, p), Pick(h[..|h|-1], p[..i] + p[i+1..]);
    forall q | 0 <= q < |v| ensures v[q] == w[if q < i then q else q + 1] {
      assert (p[..i] + p[i+1..])[q] == p[if q < i then q else q + 1];
    }
    assert w == w[..i] + [w[i]] + w[i+1..];
    assert v == w[..i] + w[i+1..];
    Middle(w[..i], w[i], w[i+1..]);
  }

  // Two stores that agree on a key, or whose log deletes it, agree on it afterwards.
  lemma {:induction false} SameAfterReset(m: Store, lines: seq<Line>, n: nat, k: string)
    requires n <= |lines|
    requires k !in m || DeletedBefore(lines, n, k)
    ensures Lookup(Replay(m, EntriesOf(lines)[..n]), k) == Lookup(Replay(map[], EntriesOf(lines)[..n]), k)
  {
    if n == 0 {
    } else {
      var e, before := lines[n-1].entry, EntriesOf(lines)[..n-1];
      assert EntriesOf(lines)[..n] == before + [e];
      ReplaySnoc(m, before, e);
      ReplaySnoc(map[], before, e);
      if Deletes(e, k) {
        assert Lookup(AfterEntry(Replay(m, before), e), k) == None;
        assert Lookup(AfterEntry(Replay(map[], before), e), k) == None;
      } else {
        SameAfterReset(m, lines, n - 1, k);
        SameStep(Replay(m, before), Replay(map[], before), e, k);
      }
    }
  }

  lemma {:induction false} SameStep(s: Store, t: Store, e: Entry, k: string)
    requires Lookup(s, k) == Lookup(t, k)
    ensures Lookup(AfterEntry(s, e), k) == Lookup(AfterEntry(t, e), k)
  {
    if e.Cmd? {
      if e.cmd.key == k {
        OnlyItsKey(s, t, e.cmd);
      } else {
        AfterIsLocal(s, e.cmd, k);
        AfterIsLocal(t, e.cmd, k);
      }
    }
  }

  // An answer given by the store that was reset still agrees with one that
  // started empty: only the presence reported by a delete may differ.
  lemma {:induction false} AgreesAfterReset(m: Store, lines: seq<Line>, i: nat, x: Op)
    requires ResetFirst(m, lines)
    requires i < |lines| && StandsFor(m, lines, i, x)
    ensures x.outcome.Succeeded? ==> Agrees(x, Respond(Replay(map[], EntriesOf(lines)[..i]), CommandOf(x)))
  {
    if !x.op.Delete? && x.outcome.Succeeded? {
      SameAfterReset(m, lines, i, x.key);
      OnlyItsKey(Replay(m, EntriesOf(lines)[..i]), Replay(map[], EntriesOf(lines)[..i]), CommandOf(x));
    }
  }

  lemma {:induction false} ResetFirstFront(m: Store, lines: seq<Line>)
    requires ResetFirst(m, lines) && lines != []
    ensures ResetFirst(m, lines[..|lines|-1])
  {
    var front := lines[..|lines|-1];
    forall i | 0 <= i < |front| && front[i].entry.Cmd? && front[i].entry.cmd.key in m
      ensures front[i].entry.cmd.op.Delete? || DeletedBefore(front, i, front[i].entry.cmd.key)
    {
      if !front[i].entry.cmd.op.Delete? {
        assert DeletedBefore(lines, i, lines[i].entry.cmd.key);
        var j :| 0 <= j < i && Deletes(lines[j].entry, lines[i].entry.cmd.key);
        assert front[j] == lines[j];
      }
    }
  }

  // The records w explain themselves, leave the store as the log does, and were
  // all invoked by time t.
  ghost predicate SelfExplained(log: seq<Entry>, t: int, w: seq<Op>) {
    && Answers(map[], w)
    && InRealTime(w)
    && Replay(map[], Proposals(w)) == Replay(map[], log)
    && NoneStartsAfter(t, w)
    && forall x | x in w :: !x.outcome.Failed?
  }

  lemma {:induction false} NextRecord(log: seq<Entry>, t: int, w: seq<Op>, x: Op)
    requires SelfExplained(log, t, w) && !x.outcome.Failed? && x.start <= t
    requires x.outcome.Succeeded? ==> t <= x.end && Agrees(x, Respond(Replay(map[], log), CommandOf(x)))
    ensures SelfExplained(log + [Cmd(CommandOf(x))], t, w + [x])
  {
    ReplaySnoc(map[], log, Cmd(CommandOf(x)));
    ProposalsSnoc(map[], w, x);
    ExplanationSnoc(map[], w, x);
  }

  lemma {:induction false} EntriesSplit(lines: seq<Line>)
    requires lines != []
    ensures EntriesOf(lines)[..|lines|-1] == EntriesOf(lines[..|lines|-1])
    ensures EntriesOf(lines) == EntriesOf(lines[..|lines|-1]) + [lines[|lines|-1].entry]
  {
  }

  lemma {:induction false} PickSnoc(h: seq<Op>, p: seq<nat>, o: nat)
    requires Within(p, |h|) && o < |h| && Within(p + [o], |h|)
    ensures Pick(h, p + [o]) == Pick(h, p) + [h[o]]
  {
  }

  // One more line, with the record that proposed it or with none.
  lemma {:induction false} OwnedLineAnswers(m: Store, lines: seq<Line>, h: seq<Op>, o: nat)
    requires lines != [] && ResetFirst(m, lines) && lines[|lines|-1].owner == Some(o)
    requires o < |h| && StandsFor(m, lines, |lines| - 1, h[o])
    requires Within(Owners(lines), |h|) && Within(Owners(lines[..|lines|-1]), |h|)
    requires SelfExplained(EntriesOf(lines[..|lines|-1]), lines[|lines|-1].at, Pick(h, Owners(lines[..|lines|-1])))
    ensures SelfExplained(EntriesOf(lines), lines[|lines|-1].at, Pick(h, Owners(lines)))
  {
    var n := |lines| - 1;
    var front := lines[..n];
    EntriesSplit(lines);
    PickSnoc(h, Owners(front), o);
    AgreesAfterReset(m, lines, n, h[o]);
    NextRecord(EntriesOf(front), lines[n].at, Pick(h, Owners(front)), h[o]);
  }

  lemma {:induction false} UnownedLineAnswers(lines: seq<Line>, h: seq<Op>, t: int)
    requires lines != [] && lines[|lines|-1].owner.None? && lines[|lines|-1].entry.NoOp?
    requires Within(Owners(lines), |h|) && Within(Owners(lines[..|lines|-1]), |h|)
    requires SelfExplained(EntriesOf(lines[..|lines|-1]), t, Pick(h, Owners(lines[..|lines|-1])))
    ensures SelfExplained(EntriesOf(lines), t, Pick(h, Owners(lines)))
  {
    EntriesSplit(lines);
    ReplaySnoc(map[], EntriesOf(lines[..|lines|-1]), NoOp);
  }

  lemma {:induction false} SelfExplainedLater(log: seq<Entry>, t: int, t': int, w: seq<Op>)
    requires SelfExplained(log, t, w) && t <= t'
    ensures SelfExplained(log, t', w)
  {
  }

  // The records of a settled log, in log order, explain themselves.
  lemma {:induction false} LogOrderAnswers(m: Store, lines: seq<Line>, h: seq<Op>, t: int)
    requires Book(m, lines, h) && Settled(lines) && ResetFirst(m, lines)
    requires Within(Owners(lines), |h|)
    requires lines != [] ==> lines[|lines|-1].at <= t
    ensures SelfExplained(EntriesOf(lines), t, Pick(h, Owners(lines)))
  {
    if lines == [] {
    } else {
      var n := |lines| - 1;
      var front, last := lines[..n], lines[n];
      BookFront(m, lines, h);
      ResetFirstFront(m, lines);
      OwnersDistinct(m, front, h);
      LogOrderAnswers(m, front, h, last.at);
      match last.owner {
        case Some(o) =>
          assert Owned(m, lines, h, n);
          OwnedLineAnswers(m, lines, h, o);
        case None =>
          UnownedLineAnswers(lines, h, last.at);
      }
      SelfExplainedLater(EntriesOf(lines), last.at, t, Pick(h, Owners(lines)));
    }
  }

  // A balanced, settled log whose used keys start out empty or deleted is an
  // explanation of the history it belongs to.
  lemma {:induction false} LedgerExplains(m: Store, lines: seq<Line>, h: seq<Op>) returns (w: seq<Op>)
    requires Balanced(m, lines, h) && Settled(lines) && ResetFirst(m, lines)
    ensures Explains(w, h)
  {
    var p := Owners(lines);
    OwnersDistinct(m, lines, h);
    w := Pick(h, p);
    LogOrderAnswers(m, lines, h, if lines == [] then 0 else lines[|lines|-1].at);
    PickLeaves(h, p);
    forall x | x in multiset(h) - multiset(w) ensures !x.outcome.Succeeded? {
      assert LeftOut(h, p, x);
      var o: nat :| o < |h| && o !in p && h[o] == x;
      OwnersAre(lines, o);
    }
  }

  // ----- What clients may rely on -----

  lemma {:induction false} LineOf(m: Store, lines: seq<Line>, h: seq<Op>, o: nat) returns (i: nat)
    requires Balanced(m, lines, h) && o < |h| && h[o].outcome.Succeeded?
    ensures i < |lines| && lines[i].owner == Some(o) && StandsFor(m, lines, i, h[o])
  {
    assert HasLine(lines, o);
    i :| 0 <= i < |lines| && lines[i].owner == Some(o);
    assert Owned(m, lines, h, i);
  }

  // The value a get reported.
  function ReadValue(g: Op): Option<string> {
    if g.present then Some(g.retVal) else None
  }

  // Acknowledged writes last and reads are never stale: an acknowledged get that
  // was invoked after a put or delete on its key was acknowledged reports the
  // effect of that operation's entry or of a later one.
  lemma {:induction false} ReadsSeeAcknowledged(m: Store, lines: seq<Line>, h: seq<Op>, ox: nat, og: nat)
    returns (ix: nat, ig: nat, l: nat)
    requires Balanced(m, lines, h) && ox < |h| && og < |h|
    requires h[ox].outcome.Succeeded? && (h[ox].op.Put? || h[ox].op.Delete?)
    requires h[og].outcome.Succeeded? && h[og].op.Get?
    requires h[ox].key == h[og].key && h[ox].end < h[og].start
    ensures ix <= l < ig < |lines|
    ensures lines[ix].owner == Some(ox) && lines[ig].owner == Some(og)
    ensures Writes(m, EntriesOf(lines), l, h[og].key)
    ensures ReadValue(h[og]) == Written(lines[l].entry.cmd)
  {
    ix := LineOf(m, lines, h, ox);
    ig := LineOf(m, lines, h, og);
    assert ix < ig by {
      assert lines[ix].at < lines[ig].at;
    }
    var log := EntriesOf(lines);
    var w := LastWrite(m, log, ig, h[og].key);
    assert Writes(m, log, ix, h[og].key);
    l := w;
  }

  // The client's view is a real past state: what it remembers is the key's value
  // immediately after the operation's own entry, also for a cas that lost.
  lemma {:induction false} ViewIsPastState(m: Store, lines: seq<Line>, h: seq<Op>, o: nat) returns (i: nat)
    requires Balanced(m, lines, h) && o < |h| && h[o].outcome.Succeeded? && h[o].op.Declared()
    ensures i < |lines| && lines[i].owner == Some(o)
    ensures Seen(h[o]) == Lookup(Replay(m, EntriesOf(lines)[..i+1]), h[o].key)
  {
    i := LineOf(m, lines, h, o);
    var log := EntriesOf(lines);
    assert log[..i+1] == log[..i] + [log[i]];
    ReplaySnoc(m, log[..i], log[i]);
  }
}
