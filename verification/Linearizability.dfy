// Linearizability, defined directly: against the register of one key, which is
// what the checker searches for, and against the whole store.
module Linearizability {
  import opened Wrappers
  import opened Kv
  import opened Checker

  // a's response was seen before b was invoked; ties are concurrent.
  predicate Precedes(a: Operation, b: Operation) {
    a.ret < b.call
  }

  // o precedes nothing in s.
  ghost predicate PrecedesNone(o: Operation, s: seq<Operation>) {
    forall y | y in s :: !Precedes(o, y)
  }

  // The order of s contradicts no real-time precedence.
  ghost predicate InOrder(s: seq<Operation>) {
    s == [] || (InOrder(s[..|s|-1]) && PrecedesNone(s[|s|-1], s[..|s|-1]))
  }

  // s is an admissible order of exactly these operations.
  ghost predicate Orders(s: seq<Operation>, ops: multiset<Operation>) {
    multiset(s) == ops && InOrder(s)
  }

  // The register after accepting every operation of s, or None if Step rejects one.
  function Run(st: KvState, s: seq<Operation>): Option<KvState> {
    if s == [] then Some(st)
    else
      match Run(st, s[..|s|-1])
      case None => None
      case Some(st') =>
        var o := s[|s|-1];
        var (ok, next) := Step(st', o.input, o.output);
        if ok then Some(next) else None
  }

  // One key's group, with no regard to which key it is.
  ghost predicate GroupLinearizable(ops: multiset<Operation>) {
    exists s :: Orders(s, ops) && Run(INIT, s).Some?
  }

  // What the checker accepts: every group of the partition has a linearization.
  ghost predicate Accepts(ops: seq<Operation>) {
    forall k: string :: GroupLinearizable(multiset(Restrict(ops, {k})))
  }

  // The register of key k inside a store, and the store with it replaced.
  function Register(m: Store, k: string): KvState {
    if k in m then KvState(true, m[k]) else INIT
  }

  function WithRegister(m: Store, k: string, st: KvState): Store {
    if st.present then m[k := st.val] else m - {k}
  }

  // Step on the one register of the store that the operation names.
  function StoreStep(m: Store, o: Operation): Option<Store> {
    var (ok, st) := Step(Register(m, o.input.key), o.input, o.output);
    if ok then Some(WithRegister(m, o.input.key, st)) else None
  }

  function StoreRun(m: Store, s: seq<Operation>): Option<Store> {
    if s == [] then Some(m)
    else
      match StoreRun(m, s[..|s|-1])
      case None => None
      case Some(m') => StoreStep(m', s[|s|-1])
  }

  // A multi-key history is linearizable against the whole, initially empty, store.
  ghost predicate StoreLinearizable(ops: multiset<Operation>) {
    exists s :: Orders(s, ops) && StoreRun(map[], s).Some?
  }

  // ----- Basic facts -----

  lemma {:induction false} StoreRunSnoc(m: Store, s: seq<Operation>, o: Operation)
    ensures StoreRun(m, s + [o]) ==
            if StoreRun(m, s).Some? then StoreStep(StoreRun(m, s).value, o) else None
  {
    assert (s + [o])[..|s|] == s;
  }

  lemma {:induction false} StoreRunConcat(m: Store, a: seq<Operation>, b: seq<Operation>)
    ensures StoreRun(m, a + b) ==
            if StoreRun(m, a).Some? then StoreRun(StoreRun(m, a).value, b) else None
  {
    if b == [] {
      assert a + b == a;
    } else {
      assert (a + b)[..|a + b| - 1] == a + b[..|b| - 1];
      StoreRunConcat(m, a, b[..|b| - 1]);
    }
  }

  lemma {:induction false} InOrderSnoc(s: seq<Operation>, o: Operation)
    ensures InOrder(s + [o]) <==> InOrder(s) && PrecedesNone(o, s)
  {
    assert (s + [o])[..|s|] == s;
  }

  // InOrder says that no operation stands before one that precedes it.
  lemma {:induction false} InOrderPairwise(s: seq<Operation>)
    ensures InOrder(s) <==> forall i, j | 0 <= i < j < |s| :: !Precedes(s[j], s[i])
  {
    if s == [] {
    } else {
      var front := s[..|s|-1];
      InOrderPairwise(front);
      assert forall i | 0 <= i < |front| :: s[i] == front[i];
      assert forall y | y in front :: exists i :: 0 <= i < |front| && front[i] == y;
    }
  }

  lemma {:induction false} FrontLast<T>(s: seq<T>)
    requires s != []
    ensures s == s[..|s|-1] + [s[|s|-1]]
    ensures multiset(s) == multiset(s[..|s|-1]) + multiset{s[|s|-1]}
  {
    assert s == s[..|s|-1] + [s[|s|-1]];
  }

  // The elements of a sequence around one of its positions.
  lemma {:induction false} Middle<T>(a: seq<T>, x: T, b: seq<T>)
    ensures multiset(a + [x] + b) == multiset(a + b) + multiset{x}
  {
    assert multiset(a + [x]) == multiset(a) + multiset{x};
    assert multiset(a + [x] + b) == multiset(a + [x]) + multiset(b);
    assert multiset(a + b) == multiset(a) + multiset(b);
  }

  // A sequence that holds x, taken apart at x.
  lemma {:induction false} SplitAt<T>(s: seq<T>, rest: multiset<T>, x: T) returns (a: seq<T>, b: seq<T>)
    requires multiset(s) == rest + multiset{x}
    ensures s == a + [x] + b
    ensures multiset(a + b) == rest
  {
    assert x in multiset(s);
    var i :| 0 <= i < |s| && s[i] == x;
    a, b := s[..i], s[i+1..];
    assert s == a + [x] + b;
    Middle(a, x, b);
    assert multiset(a + b) == multiset(s) - multiset{x};
  }
}
