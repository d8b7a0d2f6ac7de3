// Where the checker's verdict is not the right one: horizons that wrap, and records
// with an undeclared outcome. Both conditions are exact.
module Limits {
  import opened Wrappers
  import opened Kv
  import opened History
  import opened Checker
  import opened Linearizability
  import opened Locality
  import opened Horizons
  import opened Ambiguity
  import opened Explanation

  // ----- The wrapped horizon -----

  // The two records of the counterexample: an unanswered put, and a get of its
  // key that found nothing and was answered at the last int64.
  ghost predicate PutMeetsLastGet(x: Op, y: Op) {
    && x.op.Put? && x.outcome.Unknown? && x.end <= MAX_INT64
    && y.op.Get? && y.outcome.Succeeded? && !y.present && y.key == x.key
    && x.start < y.start && MIN_INT64 < y.start <= y.end == MAX_INT64
  }

  // A lone answered record explains itself, with every unanswered one left out.
  lemma {:induction false} SoleRecordExplains(h: seq<Op>, y: Op)
    requires y.outcome.Succeeded? && Agrees(y, Respond(map[], CommandOf(y)))
    requires forall x | x in h :: !x.outcome.Succeeded?
    ensures Explains([y], h + [y])
  {
    assert multiset(h + [y]) - multiset([y]) == multiset(h);
    SoleRecord(map[], y);
  }

  lemma {:induction false} SoleRecord(m: Store, y: Op)
    requires y.outcome.Succeeded? && Agrees(y, Respond(m, CommandOf(y)))
    ensures InRealTime([y]) && Answers(m, [y])
  {
    assert Proposals([]) == [];
    ExplanationSnoc(m, [], y);
    assert [] + [y] == [y];
  }

  lemma {:induction false} WrappedHorizon(x: Op, y: Op)
    requires PutMeetsLastGet(x, y)
    ensures Horizon([x] + [y]) == MIN_INT64
  {
    assert [x] == [] + [x];
    MaxEndSnoc([], x);
    MaxEndSnoc([x], y);
  }

  lemma {:induction false} ImageOfPair(x: Op, y: Op, horizon: int)
    requires !Dropped(x) && !Dropped(y)
    ensures Image([x] + [y], horizon) == [ToOperation(x, horizon)] + [ToOperation(y, horizon)]
  {
    assert [x] == [] + [x];
    ImageSnoc([], x, horizon);
    ImageSnoc([x], y, horizon);
  }

  lemma {:induction false} GroupOfPair(u: Operation, g: Operation, k: string)
    requires u.input.key == g.input.key == k
    ensures Restrict([u] + [g], {k}) == [u] + [g]
  {
    assert [u] == [] + [u];
    RestrictSnoc([], u, {k});
    RestrictSnoc([u], g, {k});
  }

  lemma {:induction false} WrappedIsRejected(x: Op, y: Op)
    requires PutMeetsLastGet(x, y)
    ensures !Accepts(Checkable([x] + [y]))
  {
    var u, g := ToOperation(x, MIN_INT64), ToOperation(y, MIN_INT64);
    var ops := Checkable([x] + [y]);
    assert ops == [u] + [g] by {
      WrappedHorizon(x, y);
      ImageOfPair(x, y, MIN_INT64);
    }
    GroupOfPair(u, g, x.key);
    PutBeforeGet(u, g);
    assert !GroupLinearizable(multiset(Restrict(ops, {x.key})));
  }

  // The range condition is needed. At the last int64 the horizon wraps, the
  // unanswered put seems to have ended before everything else, and a get that did
  // not see it is rejected although it is explained by the put never happening.
  lemma {:induction false} WrappedHorizonRejects(x: Op, y: Op)
    requires PutMeetsLastGet(x, y)
    ensures Declared([x] + [y]) && Timely([x] + [y]) && !InRange([x] + [y])
    ensures Explains([y], [x] + [y]) && !Accepts(Checkable([x] + [y]))
  {
    assert y in [x] + [y];
    SoleRecordExplains([x], y);
    WrappedIsRejected(x, y);
  }

  lemma {:induction false} PutBeforeGet(u: Operation, g: Operation)
    requires u.input.op.Put? && g.input.op.Get? && !g.output.present && Precedes(u, g)
    ensures !GroupLinearizable(multiset([u] + [g]))
  {
    forall s | Orders(s, multiset([u] + [g])) ensures Run(INIT, s).None? {
      PutFirst(s, u, g);
    }
  }

  lemma {:induction false} PutFirst(s: seq<Operation>, u: Operation, g: Operation)
    requires u.input.op.Put? && g.input.op.Get? && !g.output.present && Precedes(u, g)
    requires Orders(s, multiset([u] + [g]))
    ensures Run(INIT, s).None?
  {
    assert multiset([u] + [g]) == multiset{u} + multiset{g};
    var a, b := SplitAt(s, multiset{u}, g);
    OnlyElement(a + b, u);
    assert g in [g];
    InOrderSnoc([g], u);
    assert a == [] ==> s == [g] + [u];
    assert s == ([] + [u]) + [g];
    RunSnoc(INIT, [], u);
    RunSnoc(INIT, [u], g);
    assert [] + [u] == [u];
  }

  // A mutation that was never answered.
  predicate Unanswered(x: Op) {
    x.op.Mutates() && x.outcome.Unknown?
  }

  // Once the horizon wrapped, two unanswered mutations of one key each seem to have
  // ended before the other was invoked: no order is left.
  lemma {:induction false} TwoUnansweredAreRejected(h: seq<Op>, x: Op, y: Op)
    requires Horizon(h) == MIN_INT64
    requires x in h && y in h && x.client != y.client && x.key == y.key
    requires Unanswered(x) && Unanswered(y) && MIN_INT64 < x.start && MIN_INT64 < y.start
    ensures !Accepts(Checkable(h))
  {
    var u, v := ToOperation(x, MIN_INT64), ToOperation(y, MIN_INT64);
    ImageHas(h, MIN_INT64, x);
    ImageHas(h, MIN_INT64, y);
    RestrictMembers(Checkable(h), {x.key}, u);
    RestrictMembers(Checkable(h), {x.key}, v);
    var ops := multiset(Restrict(Checkable(h), {x.key}));
    forall s | Orders(s, ops) ensures false {
      assert u in ops && v in ops;
      assert u in multiset(s) && v in multiset(s);
      NoOrderOfBoth(s, u, v);
    }
    assert !GroupLinearizable(ops);
  }

  lemma {:induction false} NoOrderOfBoth(s: seq<Operation>, u: Operation, v: Operation)
    requires u in s && v in s && u != v
    requires Precedes(u, v) && Precedes(v, u)
    ensures !InOrder(s)
  {
    var i :| 0 <= i < |s| && s[i] == u;
    var j :| 0 <= j < |s| && s[j] == v;
    InOrderPairwise(s);
  }

  // Every history that holds x and ends at time t is accepted if and only if it can
  // be explained.
  ghost predicate DecidesUpTo(x: Op, t: int) {
    forall h | Declared(h) && Timely(h) && x in h && MaxEnd(h) == t :: Accepts(Checkable(h)) <==> Explainable(h)
  }

  // The exact range: with an unanswered mutation about, acceptance means explanation
  // for all histories that end at time t if and only if t is not the last int64.
  lemma {:induction false} RangeIsExact(x: Op, t: int)
    requires Unanswered(x) && MIN_INT64 < x.start <= t && x.end <= t && 0 <= t <= MAX_INT64
    ensures DecidesUpTo(x, t) <==> t < MAX_INT64
  {
    if t < MAX_INT64 {
      forall h | Declared(h) && Timely(h) && x in h && MaxEnd(h) == t
        ensures Accepts(Checkable(h)) <==> Explainable(h)
      {
        MaxEndIsLatest(h);
        AcceptanceIsExplanation(h);
      }
    } else {
      var h := UndecidedAtTheEnd(x);
    }
  }

  // x, the same from another client, and a get that saw neither.
  lemma {:induction false} UndecidedAtTheEnd(x: Op) returns (h: seq<Op>)
    requires Unanswered(x) && MIN_INT64 < x.start <= MAX_INT64 && x.end <= MAX_INT64
    ensures Declared(h) && Timely(h) && x in h && MaxEnd(h) == MAX_INT64
    ensures Explainable(h) && !Accepts(Checkable(h))
  {
    var y := x.(client := x.client + 1);
    var g := Op(0, Get, x.key, "", None, MAX_INT64, MAX_INT64, Succeeded, true, false, "", "");
    h := [x] + [y] + [g];
    LatestOfThree(x, y, g);
    assert forall z | z in h :: z == x || z == y || z == g;
    assert h[0] == x && h[1] == y;
    SoleRecordExplains([x] + [y], g);
    assert Explainable(h);
    TwoUnansweredAreRejected(h, x, y);
  }

  lemma {:induction false} LatestOfThree(x: Op, y: Op, g: Op)
    requires x.start <= g.end && x.end <= g.end && y.start <= g.end && y.end <= g.end
    requires g.start <= g.end && 0 <= g.end
    ensures MaxEnd([x] + [y] + [g]) == g.end
  {
    assert [x] == [] + [x];
    MaxEndSnoc([], x);
    MaxEndSnoc([x], y);
    MaxEndSnoc([x] + [y], g);
  }

  // ----- Undeclared outcomes -----

  lemma {:induction false} MaxEndOfTimes(h: seq<Op>, h': seq<Op>)
    requires |h| == |h'| && forall i | 0 <= i < |h| :: h[i].start == h'[i].start && h[i].end == h'[i].end
    ensures MaxEnd(h) == MaxEnd(h')
  {
    if h == [] {
    } else {
      MaxEndOfTimes(h[..|h|-1], h'[..|h'|-1]);
    }
  }

  // A mutation with an undeclared outcome is checked as an unanswered one.
  lemma {:induction false} CheckedAsUnknown(a: seq<Op>, x: Op, b: seq<Op>)
    requires x.op.Mutates() && x.outcome.Undeclared?
    ensures Checkable(a + [x] + b) == Checkable(a + [x.(outcome := Unknown)] + b)
  {
    var y := x.(outcome := Unknown);
    MaxEndOfTimes(a + [x] + b, a + [y] + b);
    var horizon := Horizon(a + [x] + b);
    ImageConcat(a + [x], b, horizon);
    ImageConcat(a + [y], b, horizon);
    ImageSnoc(a, x, horizon);
    ImageSnoc(a, y, horizon);
  }

  // An explanation needs no more for an unanswered record: it may be left out.
  lemma {:induction false} UnknownKeepsExplanation(a: seq<Op>, x: Op, b: seq<Op>)
    requires x.outcome.Unknown? && Explainable(a + b)
    ensures Explainable(a + [x] + b)
  {
    var w :| Explains(w, a + b);
    Middle(a, x, b);
    assert multiset(a + [x] + b) - multiset(w) == (multiset(a + b) - multiset(w)) + multiset{x};
    assert Explains(w, a + [x] + b);
  }

  // Adding x between a and b to a history that is accepted leaves it accepted.
  ghost predicate RaisesNoAlarm(a: seq<Op>, x: Op, b: seq<Op>) {
    Declared(a + b) && Timely(a + b) && InRange(a + [x] + b) && Accepts(Checkable(a + b)) ==>
      Accepts(Checkable(a + [x] + b))
  }

  lemma {:induction false} UnclassifiedMutationIsSafe(a: seq<Op>, x: Op, b: seq<Op>)
    requires x.op.Mutates() && x.outcome.Undeclared?
    ensures RaisesNoAlarm(a, x, b)
  {
    if Declared(a + b) && Timely(a + b) && InRange(a + [x] + b) && Accepts(Checkable(a + b)) {
      var y := x.(outcome := Unknown);
      var h := a + [y] + b;
      assert forall z | z in h :: z == y || z in a + b;
      assert x in a + [x] + b && forall z | z in a + b :: z in a + [x] + b;
      AcceptanceIsExplanation(a + b);
      UnknownKeepsExplanation(a, y, b);
      AcceptanceIsExplanation(h);
      CheckedAsUnknown(a, x, b);
    }
  }

  // A put on x's key, answered just before x was invoked.
  function EarlierPut(x: Op): Op {
    Op(0, Put, x.key, "", None, x.start - 1, x.start - 1, Succeeded, true, false, "", "")
  }

  lemma {:induction false} LonePutIsAccepted(p: Op)
    requires p.op.Put? && p.outcome.Succeeded? && p.start <= p.end
    ensures Declared([p]) && Timely([p]) && Accepts(Checkable([p]))
  {
    assert NothingOpen([p]);
    assert [] + [p] == [p];
    SoleRecordExplains([], p);
    AcceptanceIsExplanation([p]);
  }

  lemma {:induction false} GetAfterPutIsRejected(p: Op, x: Op)
    requires p.op.Put? && p.outcome.Succeeded? && p.key == x.key && p.end < x.start
    requires x.op.Get? && x.outcome.Undeclared?
    ensures !Accepts(Checkable([p] + [x]))
  {
    var horizon := Horizon([p] + [x]);
    var u, g := ToOperation(p, horizon), ToOperation(x, horizon);
    ImageOfPair(p, x, horizon);
    GroupOfPair(u, g, x.key);
    PutBeforeGet(u, g);
    assert !GroupLinearizable(multiset(Restrict(Checkable([p] + [x]), {x.key})));
  }

  lemma {:induction false} UnclassifiedGetIsNot(x: Op)
    requires x.op.Get? && x.outcome.Undeclared? && x.start < MAX_INT64 && x.end < MAX_INT64
    ensures !RaisesNoAlarm([EarlierPut(x)], x, [])
  {
    var p := EarlierPut(x);
    assert [p] + [] == [p] && [p] + [x] + [] == [p] + [x];
    LonePutIsAccepted(p);
    GetAfterPutIsRejected(p, x);
  }

  // The checker's default branch takes a record with an undeclared outcome for an
  // unknown mutation "to be safe". It is safe, in that such a record never gets an
  // accepted history rejected, if and only if the record is a mutation: of a get, Step
  // reads the blank output as the claim that the key was absent.
  lemma {:induction false} UnclassifiedIsSafe(x: Op)
    requires x.op.Declared() && x.outcome.Undeclared?
    requires MIN_INT64 < x.start < MAX_INT64 && x.end < MAX_INT64
    ensures x.op.Mutates() <==> forall a, b :: RaisesNoAlarm(a, x, b)
  {
    if x.op.Mutates() {
      forall a, b ensures RaisesNoAlarm(a, x, b) {
        UnclassifiedMutationIsSafe(a, x, b);
      }
    } else {
      UnclassifiedGetIsNot(x);
    }
  }
}
