// Ambiguous outcomes: an operation that was never answered either took effect at
// some point after it was invoked, or never did.
module Ambiguity {
  import opened Wrappers
  import opened Kv
  import opened History
  import opened Checker
  import opened Linearizability
  import opened Locality
  import opened Horizons

  // An unanswered mutation, with a window that outlasts every invocation in ops.
  ghost predicate Open(x: Operation, ops: multiset<Operation>) {
    && x.output.unknown
    && x.input.op.Mutates()
    && forall o | o in ops :: o.call <= x.ret
  }

  // The same mutation, now known to have taken effect.
  function Applied(x: Operation): Operation {
    x.(output := KvOutput(false, true, false, ""))
  }

  // Step lets an unanswered mutation go either way: it behaves as the applied one
  // where that one is possible, and otherwise changes nothing.
  lemma {:induction false} OpenStep(m: Store, x: Operation)
    requires x.output.unknown && x.input.op.Mutates()
    ensures StoreStep(m, x) ==
            if StoreStep(m, Applied(x)).Some? then StoreStep(m, Applied(x)) else Some(m)
  {
    var k := x.input.key;
    assert WithRegister(m, k, Register(m, k)) == m;
  }

  lemma {:induction false} InOrderDrop(a: seq<Operation>, x: Operation, b: seq<Operation>)
    requires InOrder(a + [x] + b)
    ensures InOrder(a + b)
  {
    if b == [] {
      assert a + [x] + b == a + [x] && a + b == a;
      InOrderSnoc(a, x);
    } else {
      var b', y := b[..|b|-1], b[|b|-1];
      assert a + [x] + b == (a + [x] + b') + [y] && a + b == (a + b') + [y];
      InOrderSnoc(a + [x] + b', y);
      InOrderDrop(a, x, b');
      InOrderSnoc(a + b', y);
    }
  }

  lemma {:induction false} InOrderReplace(a: seq<Operation>, x: Operation, y: Operation, b: seq<Operation>)
    requires InOrder(a + [x] + b) && y.call == x.call && y.ret == x.ret
    ensures InOrder(a + [y] + b)
  {
    if b == [] {
      assert a + [x] + b == a + [x] && a + [y] + b == a + [y];
      InOrderSnoc(a, x);
      InOrderSnoc(a, y);
    } else {
      var b', z := b[..|b|-1], b[|b|-1];
      assert a + [x] + b == (a + [x] + b') + [z] && a + [y] + b == (a + [y] + b') + [z];
      InOrderSnoc(a + [x] + b', z);
      InOrderReplace(a, x, y, b');
      assert !Precedes(z, y) by {
        assert x in a + [x] + b';
      }
      forall o | o in a + [y] + b' ensures !Precedes(z, o) {
        assert o == y || o in a + [x] + b';
      }
      InOrderSnoc(a + [y] + b', z);
    }
  }

  lemma {:induction false} StoreRunThree(m: Store, a: seq<Operation>, x: Operation, b: seq<Operation>)
    ensures StoreRun(m, a).None? ==> StoreRun(m, a + [x] + b).None?
    ensures StoreRun(m, a).Some? ==>
              StoreRun(m, a + [x] + b) ==
              (var next := StoreStep(StoreRun(m, a).value, x);
               if next.Some? then StoreRun(next.value, b) else None)
  {
    StoreRunSnoc(m, a, x);
    StoreRunConcat(m, a + [x], b);
  }

  // Putting an open mutation after everything else.
  lemma {:induction false} AppendOpen(ops: multiset<Operation>, x: Operation)
    requires StoreLinearizable(ops) && Open(x, ops)
    ensures StoreLinearizable(ops + multiset{x})
  {
    var s :| Orders(s, ops) && StoreRun(map[], s).Some?;
    forall y | y in s ensures !Precedes(x, y) {
      assert y in multiset(s);
    }
    InOrderSnoc(s, x);
    StoreRunSnoc(map[], s, x);
    OpenStep(StoreRun(map[], s).value, x);
    assert Orders(s + [x], ops + multiset{x});
  }

  // An admissible order that runs through the store.
  ghost predicate Explained(s: seq<Operation>) {
    InOrder(s) && StoreRun(map[], s).Some?
  }

  lemma {:induction false} DecideAt(a: seq<Operation>, x: Operation, b: seq<Operation>)
    requires x.output.unknown && x.input.op.Mutates()
    requires Explained(a + [x] + b)
    ensures Explained(a + b) || Explained(a + [Applied(x)] + b)
  {
    StoreRunThree(map[], a, x, b);
    OpenStep(StoreRun(map[], a).value, x);
    StoreRunThree(map[], a, Applied(x), b);
    StoreRunConcat(map[], a, b);
    InOrderReplace(a, x, Applied(x), b);
    InOrderDrop(a, x, b);
  }

  lemma {:induction false} ForgetAt(a: seq<Operation>, x: Operation, b: seq<Operation>)
    requires x.output.unknown && x.input.op.Mutates()
    requires Explained(a + [Applied(x)] + b)
    ensures Explained(a + [x] + b)
  {
    StoreRunThree(map[], a, Applied(x), b);
    OpenStep(StoreRun(map[], a).value, x);
    StoreRunThree(map[], a, x, b);
    InOrderReplace(a, Applied(x), x, b);
  }

  // A linearization of an applied mutation is one of the open mutation.
  lemma {:induction false} ForgetApplied(ops: multiset<Operation>, x: Operation)
    requires x.output.unknown && x.input.op.Mutates()
    requires StoreLinearizable(ops + multiset{Applied(x)})
    ensures StoreLinearizable(ops + multiset{x})
  {
    var s :| Orders(s, ops + multiset{Applied(x)}) && StoreRun(map[], s).Some?;
    var a, b := SplitAt(s, ops, Applied(x));
    ForgetAt(a, x, b);
    Middle(a, x, b);
    assert Orders(a + [x] + b, ops + multiset{x});
  }

  // In a linearization, an open mutation either takes effect or can be erased.
  lemma {:induction false} DecideOpen(ops: multiset<Operation>, x: Operation)
    requires x.output.unknown && x.input.op.Mutates()
    requires StoreLinearizable(ops + multiset{x})
    ensures StoreLinearizable(ops) || StoreLinearizable(ops + multiset{Applied(x)})
  {
    var s :| Orders(s, ops + multiset{x}) && StoreRun(map[], s).Some?;
    var a, b := SplitAt(s, ops, x);
    DecideAt(a, x, b);
    if Explained(a + b) {
      assert Orders(a + b, ops);
    } else {
      Middle(a, Applied(x), b);
      assert Orders(a + [Applied(x)] + b, ops + multiset{Applied(x)});
    }
  }

  // One ambiguous mutation, exactly: checking it as open is checking both
  // readings of it, "never applied" and "applied".
  lemma {:induction false} OneOpen(ops: multiset<Operation>, x: Operation)
    requires Open(x, ops)
    ensures StoreLinearizable(ops + multiset{x}) <==>
            StoreLinearizable(ops) || StoreLinearizable(ops + multiset{Applied(x)})
  {
    if StoreLinearizable(ops + multiset{x}) {
      DecideOpen(ops, x);
    } else {
      if StoreLinearizable(ops) {
        AppendOpen(ops, x);
      }
      if StoreLinearizable(ops + multiset{Applied(x)}) {
        ForgetApplied(ops, x);
      }
    }
  }

  // The history with every ambiguity resolved: the unanswered mutations at the
  // positions in `kept` took effect, the others never did. Nothing in it is unknown.
  function Resolved(h: seq<Op>, horizon: int, kept: set<int>): seq<Operation> {
    if h == [] then []
    else
      var n := |h| - 1;
      var front, x := Resolved(h[..n], horizon, kept), h[n];
      if Dropped(x) then front
      else if x.outcome.Succeeded? then front + [ToOperation(x, horizon)]
      else if n in kept then front + [Applied(ToOperation(x, horizon))]
      else front
  }

  lemma {:induction false} ResolvedLocal(h: seq<Op>, horizon: int, kept: set<int>, kept': set<int>)
    requires forall i | 0 <= i < |h| :: i in kept <==> i in kept'
    ensures Resolved(h, horizon, kept) == Resolved(h, horizon, kept')
  {
    if h == [] {
    } else {
      ResolvedLocal(h[..|h|-1], horizon, kept, kept');
    }
  }

  ghost predicate InvokedBy(ops: multiset<Operation>, t: int) {
    forall o | o in ops :: o.call <= t
  }

  lemma {:induction false} ImageInvoked(h: seq<Op>, horizon: int)
    requires forall x | x in h :: x.start <= horizon
    ensures InvokedBy(multiset(Image(h, horizon)), horizon)
  {
    if h == [] {
    } else {
      ImageInvoked(h[..|h|-1], horizon);
    }
  }

  // The operations of one resolution, with `more` operations already decided.
  ghost function Choice(h: seq<Op>, horizon: int, kept: set<int>, more: multiset<Operation>): multiset<Operation> {
    multiset(Resolved(h, horizon, kept)) + more
  }

  // Some choice is linearizable.
  ghost predicate Resolvable(h: seq<Op>, horizon: int, more: multiset<Operation>) {
    exists kept :: StoreLinearizable(Choice(h, horizon, kept, more))
  }

  // What a last record adds to a resolution.
  lemma {:induction false} ChoiceSnoc(h: seq<Op>, x: Op, horizon: int, kept: set<int>, more: multiset<Operation>)
    ensures Choice(h + [x], horizon, kept, more) ==
            if Dropped(x) then Choice(h, horizon, kept, more)
            else if x.outcome.Succeeded? then Choice(h, horizon, kept, more + multiset{ToOperation(x, horizon)})
            else if |h| in kept then Choice(h, horizon, kept, more + multiset{Applied(ToOperation(x, horizon))})
            else Choice(h, horizon, kept, more)
  {
    assert (h + [x])[..|h|] == h;
  }

  lemma {:induction false} ResolvableDropped(h: seq<Op>, x: Op, horizon: int, more: multiset<Operation>)
    requires Dropped(x)
    ensures Resolvable(h + [x], horizon, more) <==> Resolvable(h, horizon, more)
  {
    forall kept ensures Choice(h + [x], horizon, kept, more) == Choice(h, horizon, kept, more) {
      ChoiceSnoc(h, x, horizon, kept, more);
    }
  }

  lemma {:induction false} ResolvableSucceeded(h: seq<Op>, x: Op, horizon: int, more: multiset<Operation>)
    requires x.outcome.Succeeded?
    ensures Resolvable(h + [x], horizon, more) <==>
            Resolvable(h, horizon, more + multiset{ToOperation(x, horizon)})
  {
    var more' := more + multiset{ToOperation(x, horizon)};
    forall kept ensures Choice(h + [x], horizon, kept, more) == Choice(h, horizon, kept, more') {
      ChoiceSnoc(h, x, horizon, kept, more);
    }
  }

  // A choice for a history that ends in an unanswered mutation erases it or applies it.
  lemma {:induction false} ResolvableUnknown(h: seq<Op>, x: Op, horizon: int, more: multiset<Operation>)
    requires !Dropped(x) && !x.outcome.Succeeded?
    ensures Resolvable(h + [x], horizon, more) <==>
            Resolvable(h, horizon, more) ||
            Resolvable(h, horizon, more + multiset{Applied(ToOperation(x, horizon))})
  {
    var more' := more + multiset{Applied(ToOperation(x, horizon))};
    if Resolvable(h + [x], horizon, more) {
      var kept :| StoreLinearizable(Choice(h + [x], horizon, kept, more));
      ChoiceSnoc(h, x, horizon, kept, more);
    }
    if Resolvable(h, horizon, more) {
      EraseLast(h, x, horizon, more);
    }
    if Resolvable(h, horizon, more') {
      ApplyLast(h, x, horizon, more);
    }
  }

  lemma {:induction false} EraseLast(h: seq<Op>, x: Op, horizon: int, more: multiset<Operation>)
    requires !Dropped(x) && !x.outcome.Succeeded?
    requires Resolvable(h, horizon, more)
    ensures Resolvable(h + [x], horizon, more)
  {
    var kept :| StoreLinearizable(Choice(h, horizon, kept, more));
    ResolvedLocal(h, horizon, kept, kept - {|h|});
    ChoiceSnoc(h, x, horizon, kept - {|h|}, more);
  }

  lemma {:induction false} ApplyLast(h: seq<Op>, x: Op, horizon: int, more: multiset<Operation>)
    requires !Dropped(x) && !x.outcome.Succeeded?
    requires Resolvable(h, horizon, more + multiset{Applied(ToOperation(x, horizon))})
    ensures Resolvable(h + [x], horizon, more)
  {
    var more' := more + multiset{Applied(ToOperation(x, horizon))};
    var kept :| StoreLinearizable(Choice(h, horizon, kept, more'));
    ResolvedLocal(h, horizon, kept, kept + {|h|});
    ChoiceSnoc(h, x, horizon, kept + {|h|}, more);
  }

  // The induction behind AmbiguityIsExact, one record at a time.
  lemma {:induction false} ResolveAll(h: seq<Op>, horizon: int, more: multiset<Operation>)
    requires Declared(h)
    requires forall x | x in h :: x.start <= horizon
    requires InvokedBy(more, horizon)
    ensures StoreLinearizable(multiset(Image(h, horizon)) + more) <==> Resolvable(h, horizon, more)
  {
    if h == [] {
      assert Choice(h, horizon, {}, more) == multiset(Image(h, horizon)) + more;
      assert forall kept :: Choice(h, horizon, kept, more) == multiset(Image(h, horizon)) + more;
      return;
    }
    var front, x := h[..|h|-1], h[|h|-1];
    FrontLast(h);
    assert x in h;
    var o := ToOperation(x, horizon);
    var image := multiset(Image(front, horizon));
    ImageSnoc(front, x, horizon);
    ResolveAll(front, horizon, more);
    if Dropped(x) {
      ResolvableDropped(front, x, horizon, more);
    } else if x.outcome.Succeeded? {
      assert multiset(Image(h, horizon)) + more == image + (more + multiset{o});
      ResolveAll(front, horizon, more + multiset{o});
      ResolvableSucceeded(front, x, horizon, more);
    } else {
      ImageInvoked(front, horizon);
      assert multiset(Image(h, horizon)) + more == (image + more) + multiset{o};
      OneOpen(image + more, o);
      assert (image + more) + multiset{Applied(o)} == image + (more + multiset{Applied(o)});
      ResolveAll(front, horizon, more + multiset{Applied(o)});
      ResolvableUnknown(front, x, horizon, more);
    }
  }

  lemma {:induction false} CheckableTimes(h: seq<Op>, horizon: int)
    requires Timely(h) && forall x | x in h :: x.start < horizon
    ensures WellTimed(multiset(Image(h, horizon)))
  {
    if h == [] {
    } else {
      assert h[|h|-1] in h;
      CheckableTimes(h[..|h|-1], horizon);
    }
  }

  lemma {:induction false} BeyondTimes(h: seq<Op>)
    requires Timely(h)
    ensures WellTimed(multiset(Image(h, Beyond(h)))) && forall x | x in h :: x.start < Beyond(h)
  {
    MaxEndIsLatest(h);
    CheckableTimes(h, Beyond(h));
  }

  // Ambiguity is treated exactly: the checker accepts a history if and only if
  // some choice among its unanswered mutations makes it linearizable when the
  // chosen ones definitely took effect and the rest never happened. Definite
  // failures and unanswered reads play no part on either side. That acceptance
  // implies a choice holds of every history; the converse needs a horizon that did
  // not wrap, or none to be used.
  lemma {:induction false} AmbiguityIsExact(h: seq<Op>)
    requires Declared(h) && Timely(h)
    ensures Accepts(Checkable(h)) ==> Resolvable(h, Beyond(h), multiset{})
    ensures InRange(h) || NothingOpen(h) ==>
              (Accepts(Checkable(h)) <==> Resolvable(h, Beyond(h), multiset{}))
  {
    CheckedBeyond(h);
    BeyondTimes(h);
    var ops := Image(h, Beyond(h));
    LocalityHolds(ops);
    ResolveAll(h, Beyond(h), multiset{});
    assert multiset(ops) + multiset{} == multiset(ops);
  }

  lemma {:induction false} OnlyElement<T>(s: seq<T>, x: T)
    requires multiset(s) == multiset{x}
    ensures s == [x]
  {
    assert |s| == |multiset(s)| == 1;
    assert s[0] in multiset(s);
  }
}
