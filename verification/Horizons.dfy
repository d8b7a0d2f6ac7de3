// The horizon ToOperations computes wraps; the one it means does not. A later
// horizon only removes precedences, so that whatever is accepted with the computed
// one is accepted with the one that is meant.
module Horizons {
  import opened Kv
  import opened History
  import opened Checker
  import opened Linearizability
  import opened Locality

  // An operation whose response, if it was never seen, is put at time t.
  function Delay(o: Operation, t: int): Operation {
    if o.output.unknown then o.(ret := t) else o
  }

  function Delayed(s: seq<Operation>, t: int): seq<Operation> {
    if s == [] then [] else Delayed(s[..|s|-1], t) + [Delay(s[|s|-1], t)]
  }

  // No unseen response is later than t.
  ghost predicate OpenBefore(s: seq<Operation>, t: int) {
    forall o | o in s && o.output.unknown :: o.ret <= t
  }

  lemma {:induction false} DelayedSnoc(s: seq<Operation>, o: Operation, t: int)
    ensures Delayed(s + [o], t) == Delayed(s, t) + [Delay(o, t)]
  {
    assert (s + [o])[..|s|] == s;
  }

  lemma {:induction false} DelayedConcat(a: seq<Operation>, b: seq<Operation>, t: int)
    ensures Delayed(a + b, t) == Delayed(a, t) + Delayed(b, t)
  {
    if b == [] {
      assert a + b == a;
    } else {
      var front, o := b[..|b|-1], b[|b|-1];
      assert a + b == (a + front) + [o];
      DelayedSnoc(a + front, o, t);
      DelayedConcat(a, front, t);
    }
  }

  lemma {:induction false} DelayedHas(s: seq<Operation>, t: int, p: Operation)
    requires p in Delayed(s, t)
    ensures exists o :: o in s && Delay(o, t) == p
  {
    FrontLast(s);
    if p == Delay(s[|s|-1], t) {
    } else {
      DelayedHas(s[..|s|-1], t, p);
    }
  }

  lemma {:induction false} DelayedRun(st: KvState, s: seq<Operation>, t: int)
    ensures Run(st, Delayed(s, t)) == Run(st, s)
  {
    if s == [] {
    } else {
      DelayedRun(st, s[..|s|-1], t);
      RunSnoc(st, Delayed(s[..|s|-1], t), Delay(s[|s|-1], t));
    }
  }

  lemma {:induction false} DelayedInOrder(s: seq<Operation>, t: int)
    requires InOrder(s) && OpenBefore(s, t)
    ensures InOrder(Delayed(s, t))
  {
    if s == [] {
    } else {
      var front, o := s[..|s|-1], s[|s|-1];
      FrontLast(s);
      DelayedInOrder(front, t);
      forall p | p in Delayed(front, t) ensures !Precedes(Delay(o, t), p) {
        DelayedHas(front, t, p);
      }
      InOrderSnoc(Delayed(front, t), Delay(o, t));
    }
  }

  lemma {:induction false} DelayedPermuted(a: seq<Operation>, b: seq<Operation>, t: int)
    requires multiset(a) == multiset(b)
    ensures multiset(Delayed(a, t)) == multiset(Delayed(b, t))
  {
    if a == [] {
      assert |multiset(b)| == 0;
    } else {
      var front, o := a[..|a|-1], a[|a|-1];
      FrontLast(a);
      var c, d := SplitAt(b, multiset(front), o);
      DelayedPermuted(front, c + d, t);
      DelayedConcat(c, d, t);
      DelayedSnoc(c, o, t);
      DelayedConcat(c + [o], d, t);
      Middle(Delayed(c, t), Delay(o, t), Delayed(d, t));
    }
  }

  lemma {:induction false} DelayedRestrict(s: seq<Operation>, keys: set<string>, t: int)
    ensures Restrict(Delayed(s, t), keys) == Delayed(Restrict(s, keys), t)
  {
    if s == [] {
    } else {
      var front, o := s[..|s|-1], s[|s|-1];
      DelayedRestrict(front, keys, t);
      RestrictSnoc(Delayed(front, t), Delay(o, t), keys);
      DelayedSnoc(Restrict(front, keys), o, t);
    }
  }

  lemma {:induction false} DelayedImage(h: seq<Op>, horizon: int, t: int)
    ensures Delayed(Image(h, horizon), t) == Image(h, t)
  {
    if h == [] {
    } else {
      var front, x := h[..|h|-1], h[|h|-1];
      DelayedImage(front, horizon, t);
      DelayedSnoc(Image(front, horizon), ToOperation(x, horizon), t);
    }
  }

  lemma {:induction false} ImageOpenBefore(h: seq<Op>, horizon: int)
    ensures OpenBefore(Image(h, horizon), horizon)
  {
    if h == [] {
    } else {
      ImageOpenBefore(h[..|h|-1], horizon);
    }
  }

  lemma {:induction false} GroupDelayed(ops: seq<Operation>, t: int)
    requires OpenBefore(ops, t) && GroupLinearizable(multiset(ops))
    ensures GroupLinearizable(multiset(Delayed(ops, t)))
  {
    var s :| Orders(s, multiset(ops)) && Run(INIT, s).Some?;
    forall o | o in s ensures o in ops {
      assert o in multiset(s);
    }
    DelayedPermuted(s, ops, t);
    DelayedInOrder(s, t);
    DelayedRun(INIT, s, t);
    assert Orders(Delayed(s, t), multiset(Delayed(ops, t)));
  }

  // A later horizon accepts whatever an earlier one accepts.
  lemma {:induction false} LaterHorizonAccepts(h: seq<Op>, horizon: int, t: int)
    requires horizon <= t && Accepts(Image(h, horizon))
    ensures Accepts(Image(h, t))
  {
    DelayedImage(h, horizon, t);
    ImageOpenBefore(h, horizon);
    var ops := Image(h, horizon);
    forall k: string ensures GroupLinearizable(multiset(Restrict(Image(h, t), {k}))) {
      DelayedRestrict(ops, {k}, t);
      forall o | o in Restrict(ops, {k}) ensures o in ops {
        RestrictMembers(ops, {k}, o);
      }
      GroupDelayed(Restrict(ops, {k}), t);
    }
  }

  lemma {:induction false} ClosedImage(h: seq<Op>, horizon: int, t: int)
    requires NothingOpen(h)
    ensures Image(h, horizon) == Image(h, t)
  {
    if h == [] {
    } else {
      FrontLast(h);
      assert h[|h|-1] in h;
      ClosedImage(h[..|h|-1], horizon, t);
    }
  }

  // What the checker accepts it also accepts with a horizon that did not wrap, and
  // conversely if no timestamp is the last int64 or no mutation is unanswered.
  lemma {:induction false} CheckedBeyond(h: seq<Op>)
    ensures Accepts(Checkable(h)) ==> Accepts(Image(h, Beyond(h)))
    ensures InRange(h) || NothingOpen(h) ==> Checkable(h) == Image(h, Beyond(h))
  {
    MaxEndIsLatest(h);
    if Accepts(Checkable(h)) {
      LaterHorizonAccepts(h, Horizon(h), Beyond(h));
    }
    if InRange(h) {
      assert Horizon(h) == Beyond(h);
    } else if NothingOpen(h) {
      ClosedImage(h, Horizon(h), Beyond(h));
    }
  }
}
