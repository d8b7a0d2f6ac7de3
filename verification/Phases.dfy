// The phases of a harness run follow each other: a phase begins when no call of the
// one before is in flight any more. What such cuts in a run give, whatever the
// timestamps, for the reset, contention and durability verdicts.
module Phases {
  import opened Wrappers
  import opened Kv
  import opened History
  import opened Clients
  import opened Checker
  import opened Linearizability
  import opened Ledger
  import opened Cluster
  import opened Invariant
  import opened Runs
  import opened Harness

  // A state in which no call is in flight, and a later one.
  ghost predicate Cut(trace: seq<State>, actions: seq<Action>, m: nat, n: nat) {
    IsRun(trace, actions) && m <= n < |trace| && Quiescent(trace[m])
  }

  // ----- What stands before a cut, and what after it -----

  // A command committed before the cut belongs to a record from before the cut.
  lemma {:induction false} PastLine(trace: seq<State>, actions: seq<Action>, m: nat, n: nat, i: nat) returns (p: nat)
    requires Cut(trace, actions, m, n) && i < |trace[m].log| && trace[m].log[i].entry.Cmd?
    ensures i < |trace[n].log| && p < |trace[m].hist| && LinesOf(trace[n])[i].owner == Some(p)
  {
    var s, t := trace[m], trace[n];
    RunInv(trace, actions, m);
    RunInv(trace, actions, n);
    RunsOnlyGrow(trace, actions, m, n);
    QuiescentSettled(s);
    p := LinesOf(s)[i].owner.value;
    OwnerIsFinal(s, i, p);
    assert GoodRecord(t, p);
  }

  // An operation acknowledged before the cut was committed before it.
  lemma {:induction false} PastRecord(trace: seq<State>, actions: seq<Action>, m: nat, n: nat, p: nat) returns (i: nat)
    requires Cut(trace, actions, m, n) && p < |trace[m].hist| && trace[m].hist[p].op.outcome.Succeeded?
    ensures i < |trace[m].log| <= |trace[n].log|
    ensures p < |trace[n].hist| && trace[n].hist[p] == trace[m].hist[p]
    ensures LinesOf(trace[n])[i].owner == Some(p)
    ensures trace[n].log[i].entry == Cmd(CommandOf(trace[n].hist[p].op))
  {
    var s := trace[m];
    RunBalanced(trace, actions, m);
    RunsOnlyGrow(trace, actions, m, n);
    i := LineOf(s.base, LinesOf(s), Ops(s.hist), p);
    var q := PastLine(trace, actions, m, n, i);
    OwnerIsFinal(s, i, p);
    RunInv(trace, actions, n);
    OwnerIsFinal(trace[n], i, q);
    assert GoodRecord(trace[n], p) && GoodRecord(trace[n], q);
  }

  // An operation that ended without ambiguity before the cut is over: what is
  // committed after the cut is not its entry.
  lemma {:induction false} PastIsOver(trace: seq<State>, actions: seq<Action>, m: nat, n: nat, i: nat, p: nat)
    requires Cut(trace, actions, m, n) && i < |trace[n].log| && LinesOf(trace[n])[i].owner == Some(p)
    requires p < |trace[m].hist| && !trace[m].hist[p].op.outcome.Unknown?
    ensures i < |trace[m].log|
  {
    var t := trace[n];
    RunBalanced(trace, actions, n);
    RunsOnlyGrow(trace, actions, m, n);
    OwnerIsFinal(t, i, p);
    assert GoodRecord(t, p);
    var j := PastRecord(trace, actions, m, n, p);
    assert Book(t.base, LinesOf(t), Ops(t.hist));
  }

  // An operation recorded after the cut was committed after it.
  lemma {:induction false} FutureIsLater(trace: seq<State>, actions: seq<Action>, m: nat, n: nat, i: nat, p: nat)
    requires Cut(trace, actions, m, n) && i < |trace[n].log| && LinesOf(trace[n])[i].owner == Some(p)
    requires |trace[m].hist| <= p
    ensures |trace[m].log| <= i
  {
    if i < |trace[m].log| {
      RunInv(trace, actions, n);
      RunsOnlyGrow(trace, actions, m, n);
      OwnerIsFinal(trace[n], i, p);
      var q := PastLine(trace, actions, m, n, i);
    }
  }

  // ----- Reset -----

  // A passed reset is enough: if the reset's deletes are all that was recorded before
  // the cut and all of them were acknowledged, and every key that the store held and
  // that is used afterwards is among the reset ones, the final history is accepted.
  lemma {:induction false} PassedResetIsEnough(trace: seq<State>, actions: seq<Action>, m: nat, n: nat, keys: seq<string>)
    requires Cut(trace, actions, m, n)
    requires AllAcknowledge(Ops(trace[m].hist), keys)
    requires forall p | |trace[m].hist| <= p < |trace[n].hist| && trace[n].hist[p].op.key in trace[n].base ::
               trace[n].hist[p].op.key in keys
    requires Settled(LinesOf(trace[n])) && trace[n].now < MAX_INT64
    ensures Accepts(Checkable(Ops(trace[n].hist)))
  {
    var s, lines := trace[n], LinesOf(trace[n]);
    forall i | 0 <= i < |lines| && lines[i].entry.Cmd? && lines[i].entry.cmd.key in s.base
      ensures lines[i].entry.cmd.op.Delete? || DeletedBefore(lines, i, lines[i].entry.cmd.key)
    {
      var p := lines[i].owner.value;
      RunInv(trace, actions, n);
      OwnerIsFinal(s, i, p);
      DeletedFirst(trace, actions, m, n, keys, i);
    }
    ResetRunsAreAccepted(trace, actions, n);
  }

  lemma {:induction false} DeletedFirst(trace: seq<State>, actions: seq<Action>, m: nat, n: nat, keys: seq<string>, i: nat)
    requires Cut(trace, actions, m, n)
    requires AllAcknowledge(Ops(trace[m].hist), keys)
    requires i < |trace[n].log| && trace[n].log[i].entry.Cmd? && LinesOf(trace[n])[i].owner.Some?
    requires var p := LinesOf(trace[n])[i].owner.value;
             |trace[m].hist| <= p < |trace[n].hist| ==> trace[n].hist[p].op.key in keys
    ensures var c := trace[n].log[i].entry.cmd; c.op.Delete? || DeletedBefore(LinesOf(trace[n]), i, c.key)
  {
    var s, lines, h := trace[n], LinesOf(trace[n]), Ops(trace[m].hist);
    var p := lines[i].owner.value;
    RunInv(trace, actions, n);
    RunsOnlyGrow(trace, actions, m, n);
    OwnerIsFinal(s, i, p);
    if p < |h| {
      assert h[p].op.Delete?;
    } else {
      FutureIsLater(trace, actions, m, n, i, p);
      var q :| 0 <= q < |keys| && keys[q] == s.hist[p].op.key;
      assert h[q] in h;
      var j := PastRecord(trace, actions, m, n, q);
      assert Deletes(lines[j].entry, s.hist[p].op.key);
    }
  }

  // The same for the reset the harness runs: a run of the phases that use the listed
  // keys only is accepted if the reset check passed.
  lemma {:induction false} HarnessRunsAreAccepted(trace: seq<State>, actions: seq<Action>, m: nat, n: nat, numKeys: nat)
    requires Cut(trace, actions, m, n) && Quiescent(trace[n]) && trace[n].now < MAX_INT64
    requires AllAcknowledge(Ops(trace[m].hist), ResetKeys(numKeys))
    requires forall p | |trace[m].hist| <= p < |trace[n].hist| :: Used(trace[n].hist[p].op.key, numKeys)
    ensures Accepts(Checkable(Ops(trace[n].hist)))
  {
    RunInv(trace, actions, n);
    QuiescentSettled(trace[n]);
    forall p | |trace[m].hist| <= p < |trace[n].hist| ensures trace[n].hist[p].op.key in ResetKeys(numKeys) {
      ResetCoversUse(numKeys, trace[n].hist[p].op.key);
    }
    PassedResetIsEnough(trace, actions, m, n, ResetKeys(numKeys));
  }

  // ----- A put, and then operations that rely on it -----

  // Three cuts: at l nothing on the key can still take effect; between l and m an
  // acknowledged put of the key is recorded; up to n, of the records that may have
  // set the key since l, all but that put are among `others`.
  ghost predicate PutThen(
    trace: seq<State>, actions: seq<Action>, l: nat, m: nat, n: nat, put: nat, key: string, others: set<nat>)
  {
    && Cut(trace, actions, l, n) && Cut(trace, actions, m, n) && Quiescent(trace[n]) && l <= m
    && |trace[l].hist| <= put < |trace[m].hist| <= |trace[n].hist|
    && (var x := trace[m].hist[put].op; x.op.Put? && x.outcome.Succeeded? && x.key == key)
    && (forall p | 0 <= p < |trace[n].hist| && MaySet(trace[n].hist[p].op, key) && p != put && p !in others ::
          p < |trace[l].hist| && !trace[n].hist[p].op.outcome.Unknown?)
    && (forall p | p in others :: |trace[m].hist| <= p < |trace[n].hist|)
  }

  // After the put's entry only the others' entries can set the key.
  lemma {:induction false} OnlyOthersAfter(
    trace: seq<State>, actions: seq<Action>, l: nat, m: nat, n: nat, put: nat, key: string, others: set<nat>)
    returns (b: nat)
    requires PutThen(trace, actions, l, m, n, put, key, others)
    ensures b < |trace[m].log| <= |trace[n].log|
    ensures trace[n].log[b].entry == Cmd(CommandOf(trace[n].hist[put].op)) && trace[n].hist[put] == trace[m].hist[put]
    ensures forall i | b < i < |trace[n].log| && SetsKey(trace[n].log[i].entry, key) :: OwnedBy(trace[n], i, others)
  {
    var s := trace[n];
    b := PastRecord(trace, actions, m, n, put);
    RunBalanced(trace, actions, n);
    QuiescentSettled(s);
    RunsOnlyGrow(trace, actions, l, n);
    FutureIsLater(trace, actions, l, n, b, put);
    forall i | b < i < |s.log| && SetsKey(s.log[i].entry, key) ensures OwnedBy(s, i, others) {
      var p := LinesOf(s)[i].owner.value;
      OwnerIsFinal(s, i, p);
      if p !in others && p != put {
        PastIsOver(trace, actions, l, n, i, p);
      }
      assert Book(s.base, LinesOf(s), Ops(s.hist));
    }
  }

  ghost predicate OwnedBy(s: State, i: nat, others: set<nat>)
    requires i < |s.log|
  {
    LinesOf(s)[i].owner.Some? && LinesOf(s)[i].owner.value in others
  }

  // ----- Durability -----

  // The verdict on one iteration, and on one round trip of the smoke phase.
  predicate ReadsBack(got: Op, value: string) {
    got.outcome.Succeeded? && got.present && got.retVal == value
  }

  // An acknowledged put survives: a get of its key that follows it, whatever was
  // killed in between, returns its value exactly if it is answered.
  lemma {:induction false} AcknowledgedPutIsReadBack(
    trace: seq<State>, actions: seq<Action>, l: nat, m: nat, n: nat, put: nat, got: nat)
    requires m < |trace| && put < |trace[m].hist| && PutThen(trace, actions, l, m, n, put, trace[m].hist[put].op.key, {})
    requires |trace[m].hist| <= got < |trace[n].hist|
    requires trace[n].hist[got].op.op.Get? && trace[n].hist[got].op.key == trace[m].hist[put].op.key
    ensures ReadsBack(trace[n].hist[got].op, trace[m].hist[put].op.value) <==>
            trace[n].hist[got].op.outcome.Succeeded?
  {
    var s, x, g := trace[n], trace[m].hist[put].op, trace[n].hist[got].op;
    var lines, log := LinesOf(s), EntriesOf(LinesOf(s));
    var b := OnlyOthersAfter(trace, actions, l, m, n, put, x.key, {});
    RunBalanced(trace, actions, n);
    if g.outcome.Succeeded? {
      var i := LineOf(s.base, lines, Ops(s.hist), got);
      FutureIsLater(trace, actions, m, n, i, got);
      assert Writes(s.base, log, b, x.key);
      var w := LastWrite(s.base, log, i, x.key);
      assert w > b ==> SetsKey(s.log[w].entry, x.key);
      assert w == b;
    }
  }

  // ----- Contention -----

  // The round as the harness runs it: contenders start when the put has returned,
  // and nothing else that may set the key is pending then.
  ghost predicate ContestRun(
    trace: seq<State>, actions: seq<Action>, l: nat, m: nat, n: nat, put: nat, cs: seq<nat>, key: string, value: string)
  {
    && PutThen(trace, actions, l, m, n, put, key, set q | q in cs)
    && trace[m].hist[put].op.value == value
    && Distinct(cs) && Within(cs, |trace[n].hist|)
    && forall q | 0 <= q < |cs| :: Contends(trace[n].hist[cs[q]].op, key, value)
  }

  lemma {:induction false} ContestRunIsContest(
    trace: seq<State>, actions: seq<Action>, l: nat, m: nat, n: nat, put: nat, cs: seq<nat>, key: string, value: string)
    returns (b: nat)
    requires ContestRun(trace, actions, l, m, n, put, cs, key, value)
    ensures Contest(LinesOf(trace[n]), Ops(trace[n].hist), b, cs, key, value)
  {
    var s, others: set<nat> := trace[n], set q | q in cs;
    var lines := LinesOf(s);
    b := OnlyOthersAfter(trace, actions, l, m, n, put, key, others);
    forall i | b < i < |lines| && SetsKey(lines[i].entry, key)
      ensures lines[i].owner.Some? && lines[i].owner.value in cs
    {
      assert OwnedBy(s, i, others);
    }
    forall i | 0 <= i <= b && lines[i].owner.Some? ensures lines[i].owner.value !in cs {
      if lines[i].owner.value in cs {
        assert lines[i].owner.value in others;
        FutureIsLater(trace, actions, m, n, i, lines[i].owner.value);
      }
    }
  }

  // In every run: a round passes exactly if some contender did not definitely fail.
  lemma {:induction false} ContentionInEveryRun(
    trace: seq<State>, actions: seq<Action>, l: nat, m: nat, n: nat, put: nat, cs: seq<nat>, key: string, value: string)
    requires ContestRun(trace, actions, l, m, n, put, cs, key, value)
    ensures RoundOk(Pick(Ops(trace[n].hist), cs)) <==>
            exists q :: 0 <= q < |cs| && !trace[n].hist[cs[q]].op.outcome.Failed?
  {
    var s := trace[n];
    RunBalanced(trace, actions, n);
    var b := ContestRunIsContest(trace, actions, l, m, n, put, cs, key, value);
    ContentionVerdictIsRight(s.base, LinesOf(s), Ops(s.hist), b, cs, key, value);
  }
}
