// Locality: checking every key on its own decides linearizability of the
// whole multi-key history.
module Locality {
  import opened Wrappers
  import opened Kv
  import opened Checker
  import opened Linearizability

  ghost predicate WellTimed(ops: multiset<Operation>) {
    forall o | o in ops :: o.call <= o.ret
  }

  lemma {:induction false} RestrictCount(s: seq<Operation>, keys: set<string>, o: Operation)
    ensures multiset(Restrict(s, keys))[o] == if o.input.key in keys then multiset(s)[o] else 0
  {
    if s == [] {
    } else {
      FrontLast(s);
      RestrictCount(s[..|s|-1], keys, o);
    }
  }

  lemma {:induction false} RestrictSame(s: seq<Operation>, t: seq<Operation>, keys: set<string>)
    requires multiset(s) == multiset(t)
    ensures multiset(Restrict(s, keys)) == multiset(Restrict(t, keys))
  {
    forall o ensures multiset(Restrict(s, keys))[o] == multiset(Restrict(t, keys))[o] {
      RestrictCount(s, keys, o);
      RestrictCount(t, keys, o);
    }
  }

  lemma {:induction false} RestrictPrecedesNone(o: Operation, s: seq<Operation>, keys: set<string>)
    requires PrecedesNone(o, s)
    ensures PrecedesNone(o, Restrict(s, keys))
  {
    forall y | y in Restrict(s, keys) ensures !Precedes(o, y) {
      RestrictMembers(s, keys, y);
    }
  }

  lemma {:induction false} RestrictInOrder(s: seq<Operation>, keys: set<string>)
    requires InOrder(s)
    ensures InOrder(Restrict(s, keys))
  {
    if s == [] {
    } else {
      FrontLast(s);
      InOrderSnoc(s[..|s|-1], s[|s|-1]);
      RestrictInOrder(s[..|s|-1], keys);
      InOrderSnoc(Restrict(s[..|s|-1], keys), s[|s|-1]);
      RestrictPrecedesNone(s[|s|-1], s[..|s|-1], keys);
    }
  }

  lemma {:induction false} RestrictTwice(s: seq<Operation>, keys: set<string>, k: string)
    requires k in keys
    ensures Restrict(Restrict(s, keys), {k}) == Restrict(s, {k})
  {
    if s == [] {
    } else {
      var front := s[..|s|-1];
      RestrictTwice(front, keys, k);
      RestrictSnoc(Restrict(front, keys), s[|s|-1], {k});
    }
  }

  // One step of the store is one step of the register it names.
  lemma {:induction false} StepOfKey(m: Store, o: Operation, k: string)
    ensures o.input.key == k ==>
              Then(Some(Register(m, k)), o) ==
              if StoreStep(m, o).Some? then Some(Register(StoreStep(m, o).value, k)) else None
    ensures o.input.key != k && StoreStep(m, o).Some? ==> Register(StoreStep(m, o).value, k) == Register(m, k)
  {
  }

  // A multi-key run is the single-key runs side by side: an accepted one leaves
  // every register as the run of its key does, ...
  lemma {:induction false} RunOfKey(m: Store, s: seq<Operation>, k: string)
    requires StoreRun(m, s).Some?
    ensures Run(Register(m, k), Restrict(s, {k})) == Some(Register(StoreRun(m, s).value, k))
  {
    if s == [] {
    } else {
      var front, o := s[..|s|-1], s[|s|-1];
      FrontLast(s);
      RunOfKey(m, front, k);
      StepOfKey(StoreRun(m, front).value, o, k);
      RestrictSnoc(front, o, {k});
      RunSnoc(Register(m, k), Restrict(front, {k}), o);
    }
  }

  // ... and a rejected one is rejected for some key.
  lemma {:induction false} RejectedKey(m: Store, s: seq<Operation>) returns (k: string)
    requires StoreRun(m, s).None?
    ensures Run(Register(m, k), Restrict(s, {k})).None?
  {
    var front, o := s[..|s|-1], s[|s|-1];
    if StoreRun(m, front).None? {
      k := RejectedKey(m, front);
    } else {
      k := o.input.key;
      RunOfKey(m, front, k);
      StepOfKey(StoreRun(m, front).value, o, k);
    }
    FrontLast(s);
    RestrictSnoc(front, o, {k});
    RunSnoc(Register(m, k), Restrict(front, {k}), o);
  }

  function Then(st: Option<KvState>, o: Operation): Option<KvState> {
    if st.None? then None
    else
      var (ok, next) := Step(st.value, o.input, o.output);
      if ok then Some(next) else None
  }

  lemma {:induction false} RunSnoc(st: KvState, s: seq<Operation>, o: Operation)
    ensures Run(st, s + [o]) == Then(Run(st, s), o)
  {
    assert (s + [o])[..|s|] == s;
  }

  // The position of a latest invocation.
  lemma {:induction false} Latest(s: seq<Operation>) returns (i: nat)
    requires s != []
    ensures i < |s|
    ensures forall o | o in s :: o.call <= s[i].call
  {
    i := 0;
    if |s| == 1 {
    } else {
      FrontLast(s);
      var front := s[..|s|-1];
      i := Latest(front);
      if front[i].call <= s[|s|-1].call {
        i := |s| - 1;
      }
    }
  }

  // An admissible order of well-timed operations on keys in `keys`.
  ghost predicate Lane(s: seq<Operation>, keys: set<string>) {
    && InOrder(s)
    && forall o | o in s :: o.call <= o.ret && o.input.key in keys
  }

  // If some operation of s is invoked no earlier than all of t, the last one of s
  // precedes nothing in t.
  lemma {:induction false} LastOutlasts(s: seq<Operation>, i: nat, keys: set<string>, t: seq<Operation>)
    requires i < |s| && Lane(s, keys)
    requires forall y | y in t :: y.call <= s[i].call
    ensures PrecedesNone(s[|s|-1], t)
  {
    assert s[i].call <= s[|s|-1].ret by {
      assert i < |s| - 1 ==> s[i] in s[..|s|-1];
    }
  }

  lemma {:induction false} PrecedesNoneOfBoth(o: Operation, s: seq<Operation>, a: seq<Operation>, b: seq<Operation>)
    requires multiset(s) == multiset(a) + multiset(b)
    requires PrecedesNone(o, a) && PrecedesNone(o, b)
    ensures PrecedesNone(o, s)
  {
    forall y | y in s ensures !Precedes(o, y) {
      assert y in multiset(s);
    }
  }

  lemma {:induction false} LaneFront(s: seq<Operation>, keys: set<string>)
    requires Lane(s, keys) && s != []
    ensures Lane(s[..|s|-1], keys) && s[|s|-1].input.key in keys
  {
    FrontLast(s);
  }

  // Two lanes on disjoint keys interleave into one. The operation to put last is
  // the last one of the lane that holds the latest invocation: it precedes nothing.
  lemma {:induction false} Interleave(a: seq<Operation>, b: seq<Operation>, ka: set<string>, kb: set<string>)
    returns (s: seq<Operation>)
    requires Lane(a, ka) && Lane(b, kb) && ka !! kb
    ensures InOrder(s)
    ensures multiset(s) == multiset(a) + multiset(b)
    ensures Restrict(s, ka) == a && Restrict(s, kb) == b
    decreases |a| + |b|
  {
    if a == [] && b == [] {
      return [];
    }
    var i, j := 0, 0;
    if a != [] {
      i := Latest(a);
    }
    if b != [] {
      j := Latest(b);
    }
    if b == [] || (a != [] && b[j].call <= a[i].call) {
      LastOutlasts(a, i, ka, a);
      LastOutlasts(a, i, ka, b);
      s := InterleaveLast(a, b, ka, kb);
    } else {
      LastOutlasts(b, j, kb, b);
      LastOutlasts(b, j, kb, a);
      s := InterleaveLast(b, a, kb, ka);
    }
  }

  lemma {:induction false} InterleaveLast(a: seq<Operation>, b: seq<Operation>, ka: set<string>, kb: set<string>)
    returns (s: seq<Operation>)
    requires Lane(a, ka) && Lane(b, kb) && ka !! kb
    requires a != [] && PrecedesNone(a[|a|-1], a) && PrecedesNone(a[|a|-1], b)
    ensures InOrder(s)
    ensures multiset(s) == multiset(a) + multiset(b)
    ensures Restrict(s, ka) == a && Restrict(s, kb) == b
    decreases |a| + |b|, 0
  {
    var front, last := a[..|a|-1], a[|a|-1];
    LaneFront(a, ka);
    var s' := Interleave(front, b, ka, kb);
    s := s' + [last];
    RestrictSnoc(s', last, ka);
    RestrictSnoc(s', last, kb);
    FrontLast(a);
    PrecedesNoneOfBoth(last, s', front, b);
    InOrderSnoc(s', last);
  }

  ghost predicate GroupsLinearizable(ops: multiset<Operation>, r: seq<Operation>, keys: set<string>) {
    && multiset(r) == ops
    && InOrder(r)
    && forall k | k in keys :: Run(INIT, Restrict(r, {k})).Some?
  }

  // Groups that have linearizations have one in common.
  lemma {:induction false} Combine(ops: seq<Operation>, keys: set<string>) returns (s: seq<Operation>)
    requires WellTimed(multiset(ops))
    requires forall k | k in keys :: GroupLinearizable(multiset(Restrict(ops, {k})))
    ensures GroupsLinearizable(multiset(Restrict(ops, keys)), s, keys)
    decreases keys
  {
    if keys == {} {
      assert multiset(Restrict(ops, keys)) == multiset{} by {
        forall o {
          RestrictCount(ops, keys, o);
        }
      }
      return [];
    }
    var k :| k in keys;
    var rest := keys - {k};
    var a := Combine(ops, rest);
    var b :| Orders(b, multiset(Restrict(ops, {k}))) && Run(INIT, b).Some?;
    GroupIsLane(ops, rest, a);
    GroupIsLane(ops, {k}, b);
    s := Interleave(a, b, rest, {k});
    RestrictSplit(ops, keys, k);
    forall j | j in keys ensures Run(INIT, Restrict(s, {j})).Some? {
      if j != k {
        RestrictTwice(s, rest, j);
      }
    }
  }

  lemma {:induction false} RestrictSplit(ops: seq<Operation>, keys: set<string>, k: string)
    requires k in keys
    ensures multiset(Restrict(ops, keys)) ==
            multiset(Restrict(ops, keys - {k})) + multiset(Restrict(ops, {k}))
  {
    var parts := multiset(Restrict(ops, keys - {k})) + multiset(Restrict(ops, {k}));
    forall o ensures multiset(Restrict(ops, keys))[o] == parts[o] {
      RestrictCount(ops, keys - {k}, o);
      RestrictCount(ops, {k}, o);
      RestrictCount(ops, keys, o);
    }
  }

  lemma {:induction false} GroupIsLane(ops: seq<Operation>, keys: set<string>, s: seq<Operation>)
    requires Orders(s, multiset(Restrict(ops, keys)))
    requires WellTimed(multiset(ops))
    ensures Lane(s, keys)
  {
    forall o | o in s ensures o.call <= o.ret && o.input.key in keys {
      assert o in multiset(s);
      RestrictCount(ops, keys, o);
    }
  }

  lemma {:induction false} AllKeys(ops: seq<Operation>) returns (keys: set<string>)
    ensures Restrict(ops, keys) == ops
    ensures forall k | k !in keys :: Restrict(ops, {k}) == []
  {
    keys := set o | o in ops :: o.input.key;
    RestrictAll(ops, keys);
    forall k | k !in keys ensures Restrict(ops, {k}) == [] {
      RestrictAbsent(ops, k);
    }
  }

  lemma {:induction false} RestrictAll(ops: seq<Operation>, keys: set<string>)
    requires forall o | o in ops :: o.input.key in keys
    ensures Restrict(ops, keys) == ops
  {
    if ops == [] {
    } else {
      FrontLast(ops);
      RestrictAll(ops[..|ops|-1], keys);
    }
  }

  // Locality: a history is linearizable against the whole store exactly when
  // each key's group is linearizable against the register.
  lemma {:induction false} LocalityHolds(ops: seq<Operation>)
    requires WellTimed(multiset(ops))
    ensures Accepts(ops) <==> StoreLinearizable(multiset(ops))
  {
    if Accepts(ops) {
      var keys := AllKeys(ops);
      var s := Combine(ops, keys);
      forall k ensures Run(Register(map[], k), Restrict(s, {k})).Some? {
        if k !in keys {
          RestrictSame(s, ops, {k});
          assert |multiset(Restrict(s, {k}))| == 0;
        }
      }
      if StoreRun(map[], s).None? {
        var k := RejectedKey(map[], s);
        assert false;
      }
      assert Orders(s, multiset(ops));
    }
    if StoreLinearizable(multiset(ops)) {
      var s :| Orders(s, multiset(ops)) && StoreRun(map[], s).Some?;
      forall k: string ensures GroupLinearizable(multiset(Restrict(ops, {k}))) {
        RestrictSame(s, ops, {k});
        RestrictInOrder(s, {k});
        RunOfKey(map[], s, k);
        assert Orders(Restrict(s, {k}), multiset(Restrict(ops, {k})));
      }
    }
  }

  // The groups may come out of Partition in any order: they are all linearizable
  // exactly when every key's group is.
  lemma {:induction false} PartitionDecides(ops: seq<Operation>, parts: seq<seq<Operation>>, keys: seq<string>)
    requires IsPartition(ops, parts, keys)
    ensures (forall i | 0 <= i < |parts| :: GroupLinearizable(multiset(parts[i]))) <==> Accepts(ops)
  {
    if forall i | 0 <= i < |parts| :: GroupLinearizable(multiset(parts[i])) {
      forall k: string ensures GroupLinearizable(multiset(Restrict(ops, {k}))) {
        if k in keys {
          var i :| 0 <= i < |keys| && keys[i] == k;
          assert GroupLinearizable(multiset(parts[i]));
        } else {
          RestrictAbsent(ops, k);
          assert Orders([], multiset(Restrict(ops, {k})));
        }
      }
    }
  }
}
