// Histories that must be rejected: stale or impossible observations, and double
// cas winners.
module Rejection {
  import opened Wrappers
  import opened Kv
  import opened History
  import opened Checker
  import opened Linearizability
  import opened Explanation

  // A record that may have left `key` as `expected` asks.
  predicate MayEstablish(x: Op, key: string, expected: Option<string>) {
    && !x.outcome.Failed?
    && CanEstablish(Cmd(CommandOf(x)), key, expected)
    && (x.op.Cas? && x.outcome.Succeeded? ==> x.ok)
  }

  // y is an acknowledged overwrite of x's key wholly between x and g.
  predicate Between(x: Op, y: Op, g: Op) {
    && x.outcome.Succeeded? && x.end < y.start
    && y.outcome.Succeeded? && y.end < g.start
    && Overwrites(y, x.key)
  }

  // y was told that it set the key.
  predicate Overwrites(y: Op, key: string) {
    && y.outcome.Succeeded? && y.key == key
    && (y.op.Put? || y.op.Delete? || (y.op.Cas? && y.ok))
  }

  lemma {:induction false} AnswersAt(m: Store, w: seq<Op>, i: nat)
    requires Answers(m, w) && i < |w| && w[i].outcome.Succeeded?
    ensures Agrees(w[i], Respond(Replay(m, Proposals(w)[..i]), CommandOf(w[i])))
  {
    var n := |w| - 1;
    if i < n {
      AnswersAt(m, w[..n], i);
      assert Proposals(w[..n])[..i] == Proposals(w)[..i];
    } else {
      assert Proposals(w[..n]) == Proposals(w)[..i];
    }
  }

  lemma {:induction false} RealTimeAt(w: seq<Op>, i: nat, j: nat)
    requires InRealTime(w) && i < j < |w| && w[j].outcome.Succeeded?
    ensures w[i].start <= w[j].end
  {
    var n := |w| - 1;
    if j < n {
      RealTimeAt(w[..n], i, j);
    } else {
      assert w[i] in w[..n];
    }
  }

  // An acknowledged record is in every explanation, as often as it was recorded.
  lemma {:induction false} AcknowledgedIsCovered(w: seq<Op>, h: seq<Op>, x: Op)
    requires Covers(w, h) && x.outcome.Succeeded?
    ensures multiset(w)[x] == multiset(h)[x]
  {
    assert x !in multiset(h) - multiset(w);
  }

  lemma {:induction false} Position(w: seq<Op>, h: seq<Op>, x: Op) returns (i: nat)
    requires Covers(w, h) && x in h && x.outcome.Succeeded?
    ensures i < |w| && w[i] == x
  {
    AcknowledgedIsCovered(w, h, x);
    assert x in multiset(h);
    assert x in multiset(w);
    i :| 0 <= i < |w| && w[i] == x;
  }

  lemma {:induction false} TwoPositions(w: seq<Op>, a: Op, b: Op) returns (i: nat, j: nat)
    requires multiset{a, b} <= multiset(w)
    ensures i < |w| && j < |w| && i != j && w[i] == a && w[j] == b
  {
    assert a in multiset(w);
    i :| 0 <= i < |w| && w[i] == a;
    assert w == w[..i] + [w[i]] + w[i+1..];
    Middle(w[..i], w[i], w[i+1..]);
    assert b in multiset(w[..i] + w[i+1..]);
    var q :| 0 <= q < |w[..i] + w[i+1..]| && (w[..i] + w[i+1..])[q] == b;
    j := if q < i then q else q + 1;
  }

  // g was told that its key held v, or was absent: a get that returned it, or a cas
  // that won expecting it.
  predicate Observes(g: Op, v: Option<string>) {
    && g.outcome.Succeeded?
    && ((g.op.Get? && v == (if g.present then Some(g.retVal) else None)) || (g.op.Cas? && g.ok && g.expected == v))
  }

  // The empty register explains that g found its key absent, unless the key was set
  // before g was invoked.
  ghost predicate StillEmpty(h: seq<Op>, g: Op, v: Option<string>) {
    v.None? && forall y | y in h && Overwrites(y, g.key) :: g.start <= y.end
  }

  // An observed state was left by some record that stands before, or is the initial
  // one, with no overwrite in between.
  lemma {:induction false} SourceOfValue(w: seq<Op>, h: seq<Op>, j: nat, v: Option<string>) returns (i: int)
    requires Explains(w, h)
    requires j < |w| && Observes(w[j], v)
    ensures -1 <= i < j
    ensures i < 0 ==> v.None?
    ensures 0 <= i ==> MayEstablish(w[i], w[j].key, v)
    ensures forall q | i < q < j :: !Overwrites(w[q], w[j].key)
  {
    var log := Proposals(w);
    AnswersAt(map[], w, j);
    i := LastWrite(map[], log, j, w[j].key);
    if 0 <= i {
      assert w[i] in w;
      if w[i].outcome.Succeeded? {
        AnswersAt(map[], w, i);
      }
    }
    forall q | i < q < j ensures !Overwrites(w[q], w[j].key) {
      if Overwrites(w[q], w[j].key) {
        AnswersAt(map[], w, q);
        assert Writes(map[], log, q, w[j].key);
      }
    }
  }

  // An overwrite that ended before g was invoked stands before it.
  lemma {:induction false} OverwriteBefore(w: seq<Op>, h: seq<Op>, j: nat, y: Op) returns (l: nat)
    requires Explains(w, h) && j < |w| && w[j].outcome.Succeeded?
    requires y in h && y.outcome.Succeeded? && y.end < w[j].start && w[j].start <= w[j].end
    ensures l < j && w[l] == y
  {
    l := Position(w, h, y);
    if j < l {
      RealTimeAt(w, j, l);
    }
  }

  lemma {:induction false} ExplainedIsNotStale(w: seq<Op>, h: seq<Op>, g: Op, v: Option<string>) returns (x: Op)
    requires Timely(h) && Explains(w, h)
    requires g in h && Observes(g, v) && !StillEmpty(h, g, v)
    ensures x in h && MayEstablish(x, g.key, v)
    ensures x.start <= g.end
    ensures forall y | y in h :: !Between(x, y, g)
  {
    var j := Position(w, h, g);
    var i := SourceOfValue(w, h, j, v);
    if i < 0 {
      var y :| y in h && Overwrites(y, g.key) && y.end < g.start;
      var l := OverwriteBefore(w, h, j, y);
      assert false;
    }
    x := w[i];
    Subhistory(w, h);
    RealTimeAt(w, i, j);
    forall y | y in h ensures !Between(x, y, g) {
      if Between(x, y, g) {
        var l := OverwriteBefore(w, h, j, y);
        if l < i {
          RealTimeAt(w, l, i);
        }
        assert false;
      }
    }
  }

  // Stale and impossible observations are always rejected: if every record that
  // could have left an observed state was invoked after the observer's response, or
  // is followed by an acknowledged overwrite wholly between it and the observer, the
  // checker rejects the history. That a key was absent is also explained by nothing
  // having been written yet.
  lemma {:induction false} StaleReadsAreRejected(h: seq<Op>, g: Op, v: Option<string>)
    requires Declared(h) && Timely(h)
    requires g in h && Observes(g, v) && !StillEmpty(h, g, v)
    requires forall x | x in h && MayEstablish(x, g.key, v) ::
               g.end < x.start || exists y :: y in h && Between(x, y, g)
    ensures !Accepts(Checkable(h))
  {
    AcceptanceIsExplanation(h);
    if w :| Explains(w, h) {
      var x := ExplainedIsNotStale(w, h, g, v);
      assert false;
    }
  }

  // A record of an undeclared op kind is never accepted, unless it is left out.
  lemma {:induction false} UndeclaredOpIsRejected(h: seq<Op>, x: Op)
    requires x in h && x.op.Other? && !x.outcome.Failed?
    ensures !Accepts(Checkable(h))
  {
    var o, ops := ToOperation(x, Horizon(h)), Checkable(h);
    ImageHas(h, Horizon(h), x);
    RestrictMembers(ops, {x.key}, o);
    var group := multiset(Restrict(ops, {x.key}));
    forall s | Orders(s, group) ensures Run(INIT, s).None? {
      assert o in group;
      assert o in multiset(s);
      RunStops(INIT, s, o);
    }
    assert !GroupLinearizable(group);
  }

  lemma {:induction false} RunStops(st: KvState, s: seq<Operation>, o: Operation)
    requires o in s && o.input.op.Other?
    ensures Run(st, s).None?
  {
    FrontLast(s);
    if o == s[|s|-1] {
    } else {
      RunStops(st, s[..|s|-1], o);
    }
  }

  // x took effect before both a and b were invoked, or was invoked after both ended.
  predicate Outside(x: Op, a: Op, b: Op) {
    || (x.outcome.Succeeded? && x.end < a.start && x.end < b.start)
    || (a.end < x.start && b.end < x.start)
  }

  predicate Winner(a: Op) {
    a.op.Cas? && a.outcome.Succeeded? && a.ok && a.expected != Some(a.value)
  }

  // Two winners of one cas contest are rejected unless some record could have
  // re-established the expected value between them.
  lemma {:induction false} DoubleWinnersAreRejected(h: seq<Op>, a: Op, b: Op)
    requires Declared(h) && Timely(h)
    requires multiset{a, b} <= multiset(h)
    requires Winner(a) && Winner(b) && a.key == b.key && a.expected == b.expected
    requires forall x | x in h && MayEstablish(x, a.key, a.expected) :: Outside(x, a, b)
    ensures !Accepts(Checkable(h))
  {
    AcceptanceIsExplanation(h);
    if w :| Explains(w, h) {
      AcknowledgedIsCovered(w, h, a);
      AcknowledgedIsCovered(w, h, b);
      var i, j := TwoPositions(w, a, b);
      var l := Reestablished(w, h, if i < j then i else j, if i < j then j else i);
      assert false;
    }
  }

  // Between two winners stands a record that may have re-established the value, and
  // it overlaps the time between their invocations and responses.
  lemma {:induction false} Reestablished(w: seq<Op>, h: seq<Op>, i: nat, j: nat) returns (l: nat)
    requires Explains(w, h) && i < j < |w|
    requires Winner(w[i]) && Winner(w[j])
    requires w[i].key == w[j].key && w[i].expected == w[j].expected
    ensures i < l < j && w[l] in h && MayEstablish(w[l], w[i].key, w[i].expected)
    ensures !Outside(w[l], w[i], w[j])
  {
    var log := Proposals(w);
    AnswersAt(map[], w, i);
    AnswersAt(map[], w, j);
    l := WinnersAreSeparated(map[], log, i, j);
    RealTimeAt(w, l, j);
    if w[l].outcome.Succeeded? {
      AnswersAt(map[], w, l);
      RealTimeAt(w, i, l);
    }
    Subhistory(w, h);
    assert w[l] in w;
  }
}
