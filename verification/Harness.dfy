// internal/harness/run.go: the verdicts of the reset, contention and convergence
// phases, and why they are right.
module Harness {
  import opened Wrappers
  import opened Json
  import opened Kv
  import opened History
  import opened Clients
  import opened Linearizability
  import opened Ledger
  import opened Cluster
  import opened Invariant
  import opened Runs

  // ----- Reset -----

  datatype CheckResult = CheckResult(name: string, pass: bool, detail: string)

  // A key with a number, such as "k0".
  function Numbered(prefix: string, i: nat): string {
    prefix + PrintNat(i)
  }

  ghost predicate HasNumber(key: string, prefix: string, n: nat) {
    exists i: nat :: i < n && key == Numbered(prefix, i)
  }

  // The keys of the random workload.
  function WorkloadKeys(n: nat): seq<string> {
    if n == 0 then [] else WorkloadKeys(n - 1) + [Numbered("k", n - 1)]
  }

  // The keys of n iterations of the durability and contention phases.
  function IterationKeys(n: nat): seq<string> {
    if n == 0 then []
    else IterationKeys(n - 1) + [Numbered("durable-", n - 1), Numbered("cas-arena-", n - 1)]
  }

  const FIXED_KEYS := ["smoke", "majority-live", "minority-probe"]

  function ResetKeys(numKeys: nat): seq<string> {
    FIXED_KEYS + WorkloadKeys(numKeys) + IterationKeys(3)
  }

  // The keys that the phases after the reset invoke operations on: smoke, both sides
  // of the partition, the random workload, durability and contention.
  ghost predicate Used(key: string, numKeys: nat) {
    || key == "smoke" || key == "majority-live" || key == "minority-probe"
    || HasNumber(key, "k", numKeys)
    || HasNumber(key, "durable-", 3)
    || HasNumber(key, "cas-arena-", 3)
  }

  lemma {:induction false} HasNumberNext(key: string, prefix: string, n: nat)
    ensures HasNumber(key, prefix, n + 1) <==> HasNumber(key, prefix, n) || key == Numbered(prefix, n)
  {
  }

  lemma {:induction false} WorkloadAre(n: nat, key: string)
    ensures key in WorkloadKeys(n) <==> HasNumber(key, "k", n)
  {
    if n == 0 {
    } else {
      WorkloadAre(n - 1, key);
      HasNumberNext(key, "k", n - 1);
    }
  }

  lemma {:induction false} IterationsAre(n: nat, key: string)
    ensures key in IterationKeys(n) <==> HasNumber(key, "durable-", n) || HasNumber(key, "cas-arena-", n)
  {
    if n == 0 {
    } else {
      IterationsAre(n - 1, key);
      HasNumberNext(key, "durable-", n - 1);
      HasNumberNext(key, "cas-arena-", n - 1);
    }
  }

  // The reset deletes every key that is used later, and no other.
  lemma {:induction false} ResetCoversUse(numKeys: nat, key: string)
    ensures key in ResetKeys(numKeys) <==> Used(key, numKeys)
  {
    WorkloadAre(numKeys, key);
    IterationsAre(3, key);
    assert key in FIXED_KEYS <==> key == FIXED_KEYS[0] || key == FIXED_KEYS[1] || key == FIXED_KEYS[2];
  }

  // The order in which they are deleted.
  lemma {:induction false} WorkloadKeysAt(n: nat)
    ensures |WorkloadKeys(n)| == n && forall i | 0 <= i < n :: WorkloadKeys(n)[i] == "k" + PrintNat(i)
  {
    if n == 0 {
    } else {
      WorkloadKeysAt(n - 1);
    }
  }

  lemma {:induction false} ResetKeysAt(n: nat)
    ensures |ResetKeys(n)| == n + 9
    ensures ResetKeys(n)[..3] == ["smoke", "majority-live", "minority-probe"]
    ensures forall i | 0 <= i < n :: ResetKeys(n)[3 + i] == "k" + PrintNat(i)
    ensures forall i | 0 <= i < 3 :: ResetKeys(n)[n + 3 + 2 * i] == "durable-" + PrintNat(i)
    ensures forall i | 0 <= i < 3 :: ResetKeys(n)[n + 4 + 2 * i] == "cas-arena-" + PrintNat(i)
  {
    WorkloadKeysAt(n);
    assert IterationKeys(1) == [] + [Numbered("durable-", 0), Numbered("cas-arena-", 0)];
    assert IterationKeys(2) == IterationKeys(1) + [Numbered("durable-", 1), Numbered("cas-arena-", 1)];
    assert IterationKeys(3) == IterationKeys(2) + [Numbered("durable-", 2), Numbered("cas-arena-", 2)];
  }

  // Record i is a delete of key i; all of them were acknowledged.
  predicate AllDelete(records: seq<Op>, keys: seq<string>) {
    |records| == |keys| && forall i | 0 <= i < |records| :: records[i].op.Delete? && records[i].key == keys[i]
  }

  predicate AllAcknowledge(records: seq<Op>, keys: seq<string>) {
    AllDelete(records, keys) && forall x | x in records :: x.outcome.Succeeded?
  }

  function CountFailed(records: seq<Op>): nat {
    if records == [] then 0
    else CountFailed(records[..|records|-1]) + if records[|records|-1].outcome.Succeeded? then 0 else 1
  }

  lemma {:induction false} NoneFailed(records: seq<Op>)
    ensures CountFailed(records) == 0 <==> forall x | x in records :: x.outcome.Succeeded?
  {
    if records == [] {
    } else {
      FrontLast(records);
      NoneFailed(records[..|records|-1]);
    }
  }

  // The count is the number of positions that were not acknowledged.
  lemma {:induction false} CountFailedIs(records: seq<Op>)
    ensures CountFailed(records) == |set i | 0 <= i < |records| && !records[i].outcome.Succeeded?|
  {
    var here := set i | 0 <= i < |records| && !records[i].outcome.Succeeded?;
    if records == [] {
      assert here == {};
    } else {
      var n := |records| - 1;
      var front := records[..n];
      CountFailedIs(front);
      var before := set i | 0 <= i < |front| && !front[i].outcome.Succeeded?;
      assert here == if records[n].outcome.Succeeded? then before else before + {n};
    }
  }

  // A delete of the reset's own client, given up only after 20 seconds.
  ghost predicate TriedByReset(x: Op, t: Schedule) {
    && x.client == 999
    && (x.outcome.Failed? ==> exists i: nat :: t.begin + 20_000_000_000 < t.checked(i))
  }

  function ResetDetail(keys: nat, failed: nat): string {
    "deleted " + PrintNat(keys) + " workload keys (" + PrintNat(failed) + " failed)"
  }

  class Runner {
    const nodes: seq<Node>
    const numKeys: nat
    const rec: Recorder
    var checks: seq<CheckResult>

    constructor (nodes: seq<Node>, numKeys: nat, rec: Recorder)
      ensures this.nodes == nodes && this.numKeys == numKeys && this.rec == rec && checks == []
    {
      this.nodes := nodes;
      this.numKeys := numKeys;
      this.rec := rec;
      checks := [];
    }

    method Check(name: string, pass: bool, detail: string)
      modifies this
      ensures checks == old(checks) + [CheckResult(name, pass, detail)]
    {
      checks := checks + [CheckResult(name, pass, detail)];
    }

    method KeysToReset() returns (keys: seq<string>)
      ensures keys == ResetKeys(numKeys)
    {
      keys := FIXED_KEYS;
      for i := 0 to numKeys
        invariant keys == FIXED_KEYS + WorkloadKeys(i)
      {
        keys := keys + [Numbered("k", i)];
      }
      for i := 0 to 3
        invariant keys == FIXED_KEYS + WorkloadKeys(numKeys) + IterationKeys(i)
      {
        keys := keys + [Numbered("durable-", i), Numbered("cas-arena-", i)];
      }
    }

    // Deletes every key the run will use; passes only if every delete was acknowledged.
    method PhaseReset(starts: nat -> nat, schedules: nat -> Schedule) returns (ghost records: seq<Op>)
      requires |nodes| > 0 && forall i: nat :: Paced(schedules(i))
      modifies this, rec
      ensures rec.ops == old(rec.ops) + records && AllDelete(records, ResetKeys(numKeys))
      ensures forall i | 0 <= i < |records| :: TriedByReset(records[i], schedules(i))
      ensures checks == old(checks) +
              [CheckResult("reset-initial-state", AllAcknowledge(records, ResetKeys(numKeys)),
                           ResetDetail(|ResetKeys(numKeys)|, CountFailed(records)))]
    {
      var keys := KeysToReset();
      var c := new Client(nodes, rec);
      var failed;
      failed, records := DeleteAll(c, keys, starts, schedules);
      NoneFailed(records);
      Check("reset-initial-state", failed == 0, ResetDetail(|keys|, failed));
    }
  }

  method DeleteAll(c: Client, keys: seq<string>, starts: nat -> nat, schedules: nat -> Schedule)
    returns (failed: nat, ghost records: seq<Op>)
    requires |c.nodes| > 0 && forall i: nat :: Paced(schedules(i))
    modifies c, c.rec
    ensures c.rec.ops == old(c.rec.ops) + records && failed == CountFailed(records)
    ensures AllDelete(records, keys)
    ensures forall i | 0 <= i < |records| :: TriedByReset(records[i], schedules(i))
  {
    failed := 0;
    records := [];
    for i := 0 to |keys|
      invariant c.rec.ops == old(c.rec.ops) + records
      invariant AllDelete(records, keys[..i]) && failed == CountFailed(records)
      invariant forall j | 0 <= j < i :: TriedByReset(records[j], schedules(j))
    {
      var op := DeleteKey(c, keys[i], starts(i), schedules(i));
      OneMoreDelete(records, keys, i, op);
      records := records + [op];
      if !op.outcome.Succeeded? {
        failed := failed + 1;
      }
    }
    assert keys[..|keys|] == keys;
  }

  method DeleteKey(c: Client, key: string, start: nat, t: Schedule) returns (op: Op)
    requires |c.nodes| > 0 && Paced(t)
    modifies c, c.rec
    ensures c.rec.ops == old(c.rec.ops) + [op]
    ensures op.op.Delete? && op.key == key && TriedByReset(op, t)
  {
    var delete := Op(999, Delete, key, "", None, 0, 0, Undeclared(""), false, false, "", "");
    var x, _, _ := c.Invoke(delete, 20_000_000_000, None, start, t);
    return x;
  }

  lemma {:induction false} OneMoreDelete(records: seq<Op>, keys: seq<string>, i: nat, op: Op)
    requires i < |keys| && AllDelete(records, keys[..i]) && op.op.Delete? && op.key == keys[i]
    ensures AllDelete(records + [op], keys[..i + 1])
    ensures CountFailed(records + [op]) == CountFailed(records) + if op.outcome.Succeeded? then 0 else 1
  {
    assert (records + [op])[..|records|] == records;
    assert keys[..i + 1] == keys[..i] + [keys[i]];
  }

  // ----- CAS contention -----

  predicate IsWin(x: Op) {
    x.outcome.Succeeded? && x.ok
  }

  function CountWins(results: seq<Op>): nat {
    if results == [] then 0
    else CountWins(results[..|results|-1]) + if IsWin(results[|results|-1]) then 1 else 0
  }

  function CountUnknowns(results: seq<Op>): nat {
    if results == [] then 0
    else CountUnknowns(results[..|results|-1]) + if results[|results|-1].outcome.Unknown? then 1 else 0
  }

  predicate RoundOk(results: seq<Op>) {
    var wins, unknowns := CountWins(results), CountUnknowns(results);
    (unknowns == 0 && wins == 1) || (unknowns > 0 && wins <= 1)
  }

  method ContentionVerdict(results: seq<Op>) returns (roundOk: bool)
    ensures roundOk == RoundOk(results)
    ensures roundOk <==>
            && (forall i, j | 0 <= i < j < |results| :: !(IsWin(results[i]) && IsWin(results[j])))
            && (exists x :: x in results && (IsWin(x) || x.outcome.Unknown?))
  {
    var wins, unknowns := 0, 0;
    for i := 0 to |results|
      invariant wins == CountWins(results[..i]) && unknowns == CountUnknowns(results[..i])
    {
      var res := results[i];
      assert results[..i + 1][..i] == results[..i];
      if res.outcome.Succeeded? && res.ok {
        wins := wins + 1;
      } else if res.outcome.Unknown? {
        unknowns := unknowns + 1;
      }
    }
    assert results[..|results|] == results;
    RoundOkMeans(results);
    roundOk := (unknowns == 0 && wins == 1) || (unknowns > 0 && wins <= 1);
  }

  lemma {:induction false} SomeWin(results: seq<Op>)
    ensures CountWins(results) > 0 <==> exists x :: x in results && IsWin(x)
  {
    if results == [] {
    } else {
      FrontLast(results);
      SomeWin(results[..|results|-1]);
    }
  }

  lemma {:induction false} SomeUnknown(results: seq<Op>)
    ensures CountUnknowns(results) > 0 <==> exists x :: x in results && x.outcome.Unknown?
  {
    if results == [] {
    } else {
      FrontLast(results);
      SomeUnknown(results[..|results|-1]);
    }
  }

  lemma {:induction false} SingleWin(results: seq<Op>)
    requires forall i, j | 0 <= i < j < |results| :: !(IsWin(results[i]) && IsWin(results[j]))
    ensures CountWins(results) <= 1
  {
    if results == [] {
    } else {
      var front := results[..|results|-1];
      assert forall i | 0 <= i < |front| :: front[i] == results[i];
      SingleWin(front);
      SomeWin(front);
      forall x | x in front && IsWin(x) ensures !IsWin(results[|results|-1]) {
        var i :| 0 <= i < |front| && front[i] == x;
        assert IsWin(results[i]);
      }
    }
  }

  // The verdict without the counts, for whatever results: no two contenders won, and
  // some contender won or is ambiguous.
  lemma {:induction false} RoundOkMeans(results: seq<Op>)
    ensures RoundOk(results) <==>
            && (forall i, j | 0 <= i < j < |results| :: !(IsWin(results[i]) && IsWin(results[j])))
            && (exists x :: x in results && (IsWin(x) || x.outcome.Unknown?))
  {
    SomeWin(results);
    SomeUnknown(results);
    if forall i, j | 0 <= i < j < |results| :: !(IsWin(results[i]) && IsWin(results[j])) {
      SingleWin(results);
    } else {
      var i, j :| 0 <= i < j < |results| && IsWin(results[i]) && IsWin(results[j]);
      TwoWins(results, i, j);
    }
  }

  lemma {:induction false} TwoWins(results: seq<Op>, i: nat, j: nat)
    requires i < j < |results| && IsWin(results[i]) && IsWin(results[j])
    ensures CountWins(results) >= 2
  {
    var front := results[..|results|-1];
    if j < |front| {
      TwoWins(front, i, j);
    } else {
      assert front[i] in front;
      SomeWin(front);
    }
  }

  // A contest on `key`: line b puts `value`; whatever may set the key afterwards
  // was proposed by the contenders, records of cas that expect `value` and write
  // something else.
  ghost predicate Contest(lines: seq<Line>, h: seq<Op>, b: nat, cs: seq<nat>, key: string, value: string) {
    && b < |lines| && lines[b].entry == Cmd(Command(Put, key, value, None))
    && Distinct(cs) && Within(cs, |h|)
    && (forall q | 0 <= q < |cs| :: Contends(h[cs[q]], key, value))
    && (forall i | b < i < |lines| && SetsKey(lines[i].entry, key) ::
          lines[i].owner.Some? && lines[i].owner.value in cs)
    && (forall i | 0 <= i <= b && lines[i].owner.Some? :: lines[i].owner.value !in cs)
  }

  // An entry, and a record, that may change what the key holds.
  predicate SetsKey(e: Entry, key: string) {
    e.Cmd? && e.cmd.key == key && !e.cmd.op.Get?
  }

  predicate MaySet(x: Op, key: string) {
    x.key == key && !x.op.Get? && !x.outcome.Failed?
  }

  predicate Contends(x: Op, key: string, value: string) {
    && x.op.Cas? && x.key == key && x.expected == Some(value) && x.value != value
    && !x.outcome.Undeclared?
  }

  // A line on the key after the put is a contender's.
  lemma {:induction false} ContenderLine(m: Store, lines: seq<Line>, h: seq<Op>, b: nat, cs: seq<nat>, key: string, value: string, i: nat)
    returns (q: nat)
    requires Balanced(m, lines, h) && Contest(lines, h, b, cs, key, value)
    requires b < i < |lines| && SetsKey(lines[i].entry, key)
    ensures q < |cs| && lines[i].owner == Some(cs[q]) && StandsFor(m, lines, i, h[cs[q]])
  {
    q :| 0 <= q < |cs| && cs[q] == lines[i].owner.value;
    assert Owned(m, lines, h, i);
  }

  // An acknowledged contender's line comes after the put, and it won exactly if
  // it was told so.
  lemma {:induction false} AcknowledgedContender(m: Store, lines: seq<Line>, h: seq<Op>, b: nat, cs: seq<nat>, key: string, value: string, q: nat)
    returns (i: nat)
    requires Balanced(m, lines, h) && Contest(lines, h, b, cs, key, value)
    requires q < |cs| && h[cs[q]].outcome.Succeeded?
    ensures b < i < |lines| && lines[i].owner == Some(cs[q])
    ensures lines[i].entry == Cmd(CommandOf(h[cs[q]]))
    ensures IsWin(h[cs[q]]) <==> Wins(m, EntriesOf(lines), i)
  {
    i := LineOf(m, lines, h, cs[q]);
    assert cs[q] in cs;
  }

  lemma {:induction false} AtMostOneWinner(m: Store, lines: seq<Line>, h: seq<Op>, b: nat, cs: seq<nat>, key: string, value: string, q: nat, r: nat)
    requires Balanced(m, lines, h) && Contest(lines, h, b, cs, key, value)
    requires q < r < |cs|
    ensures !(IsWin(h[cs[q]]) && IsWin(h[cs[r]]))
  {
    if IsWin(h[cs[q]]) && IsWin(h[cs[r]]) {
      var i := AcknowledgedContender(m, lines, h, b, cs, key, value, q);
      var j := AcknowledgedContender(m, lines, h, b, cs, key, value, r);
      var log := EntriesOf(lines);
      var l := WinnersAreSeparated(m, log, if i < j then i else j, if i < j then j else i);
      var o := ContenderLine(m, lines, h, b, cs, key, value, l);
      assert false;
    }
  }

  // If every contender that did not fail was answered, one of them won.
  lemma {:induction false} OneWins(m: Store, lines: seq<Line>, h: seq<Op>, b: nat, cs: seq<nat>, key: string, value: string, q: nat)
    returns (r: nat)
    requires Balanced(m, lines, h) && Contest(lines, h, b, cs, key, value)
    requires forall p | 0 <= p < |cs| :: !h[cs[p]].outcome.Unknown?
    requires q < |cs| && h[cs[q]].outcome.Succeeded?
    ensures r < |cs| && IsWin(h[cs[r]])
  {
    var log := EntriesOf(lines);
    var i := AcknowledgedContender(m, lines, h, b, cs, key, value, q);
    var l := LastWrite(m, log, i, key);
    assert Writes(m, log, b, key);
    if l == b {
      r := q;
    } else {
      r := ContenderLine(m, lines, h, b, cs, key, value, l);
    }
  }

  // The contention verdict is right for any number of contenders: a round passes
  // exactly if some contender did not definitely fail.
  lemma {:induction false} ContentionVerdictIsRight(m: Store, lines: seq<Line>, h: seq<Op>, b: nat, cs: seq<nat>, key: string, value: string)
    requires Balanced(m, lines, h) && Contest(lines, h, b, cs, key, value)
    ensures RoundOk(Pick(h, cs)) <==> exists q :: 0 <= q < |cs| && !h[cs[q]].outcome.Failed?
  {
    var results := Pick(h, cs);
    SomeWin(results);
    SomeUnknown(results);
    forall q, r | 0 <= q < r < |results| ensures !(IsWin(results[q]) && IsWin(results[r])) {
      AtMostOneWinner(m, lines, h, b, cs, key, value, q, r);
    }
    SingleWin(results);
    if CountUnknowns(results) == 0 {
      assert forall p | 0 <= p < |cs| :: results[p] in results;
      if q :| 0 <= q < |cs| && !h[cs[q]].outcome.Failed? {
        var r := OneWins(m, lines, h, b, cs, key, value, q);
        assert IsWin(results[r]);
      }
    }
  }

  // A contest as the history shows it: the put was acknowledged before any contender
  // was invoked, and whatever else may have set the key ended before the put.
  ghost predicate ContestShown(h: seq<Op>, put: nat, cs: seq<nat>, key: string, value: string) {
    && put < |h| && h[put].op.Put? && h[put].outcome.Succeeded? && h[put].key == key && h[put].value == value
    && Distinct(cs) && Within(cs, |h|)
    && (forall q | 0 <= q < |cs| :: Contends(h[cs[q]], key, value) && h[put].end < h[cs[q]].start)
    && (forall o | 0 <= o < |h| && MaySet(h[o], key) && o != put && o !in cs ::
          h[o].outcome.Succeeded? && h[o].end < h[put].start)
  }

  lemma {:induction false} ShownContest(m: Store, lines: seq<Line>, h: seq<Op>, put: nat, cs: seq<nat>, key: string, value: string)
    returns (b: nat)
    requires Balanced(m, lines, h) && Settled(lines) && ContestShown(h, put, cs, key, value)
    ensures Contest(lines, h, b, cs, key, value)
  {
    b := LineOf(m, lines, h, put);
    forall i | b < i < |lines| && SetsKey(lines[i].entry, key)
      ensures lines[i].owner.Some? && lines[i].owner.value in cs
    {
      assert Owned(m, lines, h, i);
      assert lines[i].owner != lines[b].owner && lines[b].at <= lines[i].at;
    }
    forall i | 0 <= i <= b && lines[i].owner.Some? ensures lines[i].owner.value !in cs {
      assert Owned(m, lines, h, i);
      assert i == b || lines[i].at <= lines[b].at;
    }
  }

  // In every run: once the contenders have all returned, the round passes exactly
  // if one of them did not definitely fail. Here the timestamps show the contest.
  lemma {:induction false} ContentionByTimestamps(
    trace: seq<State>, actions: seq<Action>, n: nat, put: nat, cs: seq<nat>, key: string, value: string)
    requires IsRun(trace, actions) && n < |trace| && Quiescent(trace[n])
    requires ContestShown(Ops(trace[n].hist), put, cs, key, value)
    ensures RoundOk(Pick(Ops(trace[n].hist), cs)) <==>
            exists q :: 0 <= q < |cs| && !trace[n].hist[cs[q]].op.outcome.Failed?
  {
    var s := trace[n];
    RunBalanced(trace, actions, n);
    QuiescentSettled(s);
    var b := ShownContest(s.base, LinesOf(s), Ops(s.hist), put, cs, key, value);
    ContentionVerdictIsRight(s.base, LinesOf(s), Ops(s.hist), b, cs, key, value);
  }

  // ----- Convergence -----

  // What a node's debug endpoint shows.
  datatype NodeState = NodeState(lastApplied: nat, data: Store)

  method Identical(states: seq<NodeState>) returns (identical: bool)
    ensures identical <==> |states| == 3 && forall i, j | 0 <= i < 3 && 0 <= j < 3 :: states[i] == states[j]
  {
    if |states| != 3 {
      return false;
    }
    identical :=
      && states[0].data == states[1].data
      && states[1].data == states[2].data
      && states[0].lastApplied == states[1].lastApplied
      && states[1].lastApplied == states[2].lastApplied;
  }

  // One request to a node: the applied index is read in one state, the map in that
  // state or a later one.
  datatype Fetch = Fetch(node: string, indexAt: nat, dataAt: nat)

  ghost predicate IsFetch(trace: seq<State>, f: Fetch) {
    && f.indexAt <= f.dataAt < |trace|
    && f.node in trace[f.indexAt].replicas && f.node in trace[f.dataAt].replicas
  }

  function Shown(trace: seq<State>, f: Fetch): NodeState
    requires IsFetch(trace, f)
  {
    NodeState(trace[f.indexAt].replicas[f.node].applied, trace[f.dataAt].replicas[f.node].data)
  }

  // The map that a fetch shows, by the number of entries applied when it was read.
  function FoldOf(s: State, applied: nat): Store {
    Replay(s.base, Entries(s.log)[..if applied <= |s.log| then applied else |s.log|])
  }

  function AppliedAtData(trace: seq<State>, f: Fetch): nat
    requires IsFetch(trace, f)
  {
    trace[f.dataAt].replicas[f.node].applied
  }

  lemma {:induction false} ShownIsFold(trace: seq<State>, actions: seq<Action>, f: Fetch, n: nat)
    requires IsRun(trace, actions) && IsFetch(trace, f) && f.dataAt <= n < |trace|
    ensures Shown(trace, f).data == FoldOf(trace[n], AppliedAtData(trace, f))
  {
    var s, t, i := trace[f.dataAt], trace[n], AppliedAtData(trace, f);
    ReplicasFollowLog(trace, actions, f.dataAt, f.node, f.node);
    RunsOnlyGrow(trace, actions, f.dataAt, n);
    BaseIsFixed(trace, actions, f.dataAt);
    BaseIsFixed(trace, actions, n);
    assert Entries(s.log)[..i] == Entries(t.log)[..i];
  }

  // What the convergence test decides, for three nodes fetched at any times: it
  // passes exactly if the indexes are equal and the prefixes of the log that had been
  // applied when the maps were read fold to the same map. If no node applied anything
  // between its two reads, it passes exactly if the nodes have applied equally much.
  lemma {:induction false} ConvergenceTestIsRight(trace: seq<State>, actions: seq<Action>, fs: seq<Fetch>)
    requires IsRun(trace, actions)
    requires |fs| == 3 && forall i | 0 <= i < 3 :: IsFetch(trace, fs[i])
    ensures var s := trace[|trace|-1];
            (forall i, j | 0 <= i < 3 && 0 <= j < 3 :: Shown(trace, fs[i]) == Shown(trace, fs[j])) <==>
            (forall i, j | 0 <= i < 3 && 0 <= j < 3 ::
               && Shown(trace, fs[i]).lastApplied == Shown(trace, fs[j]).lastApplied
               && FoldOf(s, AppliedAtData(trace, fs[i])) == FoldOf(s, AppliedAtData(trace, fs[j])))
    ensures (forall i | 0 <= i < 3 :: Shown(trace, fs[i]).lastApplied == AppliedAtData(trace, fs[i])) ==>
              ((forall i, j | 0 <= i < 3 && 0 <= j < 3 :: Shown(trace, fs[i]) == Shown(trace, fs[j])) <==>
               (forall i, j | 0 <= i < 3 && 0 <= j < 3 ::
                  AppliedAtData(trace, fs[i]) == AppliedAtData(trace, fs[j])))
  {
    forall i | 0 <= i < 3
      ensures Shown(trace, fs[i]).data == FoldOf(trace[|trace|-1], AppliedAtData(trace, fs[i]))
    {
      ShownIsFold(trace, actions, fs[i], |trace| - 1);
    }
  }
}
