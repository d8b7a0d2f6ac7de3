// Why the final check waits for the clients: a run in which a put has taken
// effect but is still in flight, so that a get already saw a value that no record
// explains. Once the put is recorded too, the run is one of those always accepted.
module Quiescence {
  import opened Wrappers
  import opened Kv
  import opened History
  import opened Clients
  import opened Server
  import opened Checker
  import opened Linearizability
  import opened Rejection
  import opened Cluster
  import opened Invariant
  import opened Runs

  const NODE := "node1"
  const KEY := "k"
  const VALUE := "v"

  function Fresh(kind: OpKind, value: string): Op {
    Op(0, kind, KEY, value, None, 0, 0, Undeclared(""), false, false, "", "")
  }

  const PUT := Fresh(Put, VALUE)
  const GET := Fresh(Get, "")

  lemma {:induction false} Extend(trace: seq<State>, actions: seq<Action>, a: Action, s: State)
    requires IsRun(trace, actions) && Next(trace[|trace|-1], a, s)
    ensures IsRun(trace + [s], actions + [a])
  {
    var t, b := trace + [s], actions + [a];
    forall i | 0 <= i < |b| ensures Next(t[i], b[i], t[i+1]) {
      if i < |actions| {
        assert Next(trace[i], actions[i], trace[i+1]);
      }
    }
  }

  function Start(): State {
    State(map[], [], 0, [], map[NODE := Replica(0, map[], Snapshot(0, map[]))], [], [], [])
  }

  // Call c is made, sent to the node, proposed and committed.
  lemma {:induction false} Committed(trace: seq<State>, actions: seq<Action>, op: Op) returns (t: seq<State>, b: seq<Action>)
    requires IsRun(trace, actions) && op.op.Declared()
    ensures IsRun(t, b) && t[0] == trace[0]
    ensures var s, c, a := trace[|trace|-1], |trace[|trace|-1].calls|, |trace[|trace|-1].attempts|;
            var sent := op.(start := s.now, node := NODE);
            t[|t|-1] == s.(
              calls := s.calls + [Call(sent, false, None, s.now, Waiting(a))],
              attempts := s.attempts + [Attempt(c, CommandOf(op), false, s.now, false, 0, Logged(|s.log|, Some(NODE)), None)],
              log := s.log + [LogLine(Cmd(CommandOf(op)), s.now, Some(a))])
  {
    var s, c, a := trace[|trace|-1], |trace[|trace|-1].calls|, |trace[|trace|-1].attempts|;
    var s1 := s.(calls := s.calls + [Call(op, false, None, s.now, Ready(s.now))]);
    Extend(trace, actions, Begin(op, 0, false, None), s1);
    var sent := op.(start := s.now, node := NODE);
    var attempt := Attempt(c, CommandOf(op), false, s.now, false, 0, Travelling(NODE), None);
    var s2 := s.(calls := s.calls + [Call(sent, false, None, s.now, Waiting(a))], attempts := s.attempts + [attempt]);
    assert s2.calls == s1.calls[c := s2.calls[c]];
    Extend(trace + [s1], actions + [Begin(op, 0, false, None)], Send(c, NODE), s2);
    var s3 := s2.(attempts := s.attempts + [attempt.(stage := Pending(NODE))]);
    assert s3.attempts == s2.attempts[a := s3.attempts[a]];
    Extend(trace + [s1] + [s2], actions + [Begin(op, 0, false, None)] + [Send(c, NODE)], Propose(a), s3);
    var s4 := s3.(attempts := s.attempts + [attempt.(stage := Logged(|s.log|, Some(NODE)))],
                  log := s.log + [LogLine(Cmd(CommandOf(op)), s.now, Some(a))]);
    assert s4.attempts == s3.attempts[a := s4.attempts[a]];
    b := actions + [Begin(op, 0, false, None)] + [Send(c, NODE)] + [Propose(a)];
    t := trace + [s1] + [s2] + [s3];
    Extend(t, b, Commit(a), s4);
    t, b := t + [s4], b + [Commit(a)];
  }

  // After a put and then a get were committed, in an empty store.
  function BothCommitted(): State {
    Start().(
      calls := [Call(PUT.(node := NODE), false, None, 0, Waiting(0)), Call(GET.(node := NODE), false, None, 0, Waiting(1))],
      attempts := [
        Attempt(0, CommandOf(PUT), false, 0, false, 0, Logged(0, Some(NODE)), None),
        Attempt(1, CommandOf(GET), false, 0, false, 0, Logged(1, Some(NODE)), None)],
      log := [LogLine(Cmd(CommandOf(PUT)), 0, Some(0)), LogLine(Cmd(CommandOf(GET)), 0, Some(1))])
  }

  lemma {:induction false} CommitBoth() returns (t: seq<State>, b: seq<Action>)
    ensures IsRun(t, b) && t[0] == Start() && t[|t|-1] == BothCommitted()
  {
    t, b := Committed([Start()], [], PUT);
    t, b := Committed(t, b, GET);
  }

  function Holding(applied: nat, data: Store): map<string, Replica> {
    map[NODE := Replica(applied, data, Snapshot(0, map[]))]
  }

  const PUT_ANSWERED :=
    Attempt(0, CommandOf(PUT), false, 0, false, 0, Logged(0, None), Some(Okay(Some(Result(true, false, "")))))
  const GET_ANSWERED :=
    Attempt(1, CommandOf(GET), false, 0, false, 0, Logged(1, None), Some(Okay(Some(Result(true, true, VALUE)))))

  // The node has applied one entry, or both, and answered as far.
  function PutApplied(): State {
    var s := BothCommitted();
    s.(replicas := Holding(1, map[KEY := VALUE]), attempts := [PUT_ANSWERED, s.attempts[1]])
  }

  function BothApplied(): State {
    BothCommitted().(replicas := Holding(2, map[KEY := VALUE]), attempts := [PUT_ANSWERED, GET_ANSWERED])
  }

  lemma {:induction false} PutIsApplied()
    ensures Next(BothCommitted(), ApplyNext(NODE), PutApplied())
  {
    var s, s' := BothCommitted(), PutApplied();
    assert s'.replicas == s.replicas[NODE := s'.replicas[NODE]];
    assert s'.attempts == s.attempts[0 := PUT_ANSWERED];
  }

  lemma {:induction false} GetIsApplied()
    ensures Next(PutApplied(), ApplyNext(NODE), BothApplied())
  {
    var s, s' := PutApplied(), BothApplied();
    assert s'.replicas == s.replicas[NODE := s'.replicas[NODE]];
    assert s'.attempts == s.attempts[1 := GET_ANSWERED];
  }

  // Both entries are applied at the node, which answers both calls.
  lemma {:induction false} AnswerBoth() returns (t: seq<State>, b: seq<Action>)
    ensures IsRun(t, b) && t[0] == Start() && t[|t|-1] == BothApplied()
  {
    t, b := CommitBoth();
    PutIsApplied();
    Extend(t, b, ApplyNext(NODE), PutApplied());
    t, b := t + [PutApplied()], b + [ApplyNext(NODE)];
    GetIsApplied();
    Extend(t, b, ApplyNext(NODE), BothApplied());
    t, b := t + [BothApplied()], b + [ApplyNext(NODE)];
  }

  const SEEN := GET.(node := NODE, outcome := Succeeded, ok := true, present := true, retVal := VALUE)
  const DONE := PUT.(node := NODE, outcome := Succeeded, ok := true)

  function GetRecorded(): State {
    var s := BothApplied();
    s.(hist := [Record(1, 1, SEEN)], calls := [s.calls[0], s.calls[1].(phase := Recorded(0))])
  }

  function BothRecorded(): State {
    var s := GetRecorded();
    s.(hist := [Record(1, 1, SEEN), Record(0, 0, DONE)], calls := [s.calls[0].(phase := Recorded(1)), s.calls[1]])
  }

  lemma {:induction false} GetIsRecorded()
    ensures Next(BothApplied(), Receive(1, false), GetRecorded())
  {
    var s, s' := BothApplied(), GetRecorded();
    assert s'.calls == s.calls[1 := s'.calls[1]];
  }

  lemma {:induction false} PutIsRecorded()
    ensures Next(GetRecorded(), Receive(0, false), BothRecorded())
  {
    var s, s' := GetRecorded(), BothRecorded();
    assert s'.calls == s.calls[0 := s'.calls[0]];
    assert s'.hist == s.hist + [Record(0, 0, DONE)];
  }

  // Quiescence is needed: with one call still in flight the checker may reject
  // what was recorded; when that call ends, the same run is accepted.
  lemma {:induction false} QuiescenceIsNeeded() returns (t: seq<State>, b: seq<Action>, n: nat)
    ensures IsRun(t, b) && t[0].base == map[] && n + 1 < |t|
    ensures !Quiescent(t[n]) && t[n].now < MAX_INT64 && !Accepts(Checkable(Ops(t[n].hist)))
    ensures Quiescent(t[n+1]) && Accepts(Checkable(Ops(t[n+1].hist)))
  {
    t, b := AnswerBoth();
    GetIsRecorded();
    Extend(t, b, Receive(1, false), GetRecorded());
    t, b := t + [GetRecorded()], b + [Receive(1, false)];
    n := |t| - 1;
    LonelyReadIsRejected(GetRecorded());
    PutIsRecorded();
    Extend(t, b, Receive(0, false), BothRecorded());
    t, b := t + [BothRecorded()], b + [Receive(0, false)];
    assert GetRecorded().calls[0].phase.Waiting?;
    NoFalseAlarms(t, b, n + 1);
  }

  lemma {:induction false} LonelyReadIsRejected(s: State)
    requires s.hist == [Record(1, 1, SEEN)]
    ensures !Accepts(Checkable(Ops(s.hist)))
  {
    var h := Ops(s.hist);
    assert h == [SEEN];
    StaleReadsAreRejected(h, SEEN, Some(VALUE));
  }

  function Crashed(): State {
    BothApplied().(replicas := Holding(0, map[]))
  }

  function HalfReplayed(): State {
    BothApplied().(replicas := Holding(1, map[KEY := VALUE]))
  }

  lemma {:induction false} NodeCrashes()
    ensures Next(BothApplied(), Crash(NODE), Crashed())
  {
    var s, s' := BothApplied(), Crashed();
    assert s'.replicas == s.replicas[NODE := s'.replicas[NODE]];
    assert seq(|s.attempts|, i requires 0 <= i < |s.attempts| => AfterCrash(s.attempts[i], NODE)) == s.attempts;
  }

  lemma {:induction false} NodeReplays()
    ensures Next(Crashed(), ApplyNext(NODE), HalfReplayed()) && Next(HalfReplayed(), ApplyNext(NODE), BothApplied())
  {
    var s, s', s'' := Crashed(), HalfReplayed(), BothApplied();
    assert s'.replicas == s.replicas[NODE := s'.replicas[NODE]];
    assert s'.attempts == s.attempts[0 := PUT_ANSWERED];
    assert s''.replicas == s'.replicas[NODE := s''.replicas[NODE]];
    assert s''.attempts == s'.attempts[1 := GET_ANSWERED];
  }

  // A run with a crash: the node loses its map, and gets it back from its empty
  // snapshot and the log.
  lemma {:induction false} CrashAndReplay() returns (t: seq<State>, b: seq<Action>, n: nat)
    ensures IsRun(t, b) && n + 1 < |t|
    ensures NODE in t[n].replicas && t[n].replicas[NODE].data == map[KEY := VALUE]
    ensures NODE in t[n+1].replicas && t[n+1].replicas[NODE].data == map[]
    ensures NODE in t[|t|-1].replicas && t[|t|-1].replicas[NODE] == t[n].replicas[NODE]
  {
    t, b := AnswerBoth();
    n := |t| - 1;
    NodeCrashes();
    NodeReplays();
    Extend(t, b, Crash(NODE), Crashed());
    t, b := t + [Crashed()], b + [Crash(NODE)];
    Extend(t, b, ApplyNext(NODE), HalfReplayed());
    t, b := t + [HalfReplayed()], b + [ApplyNext(NODE)];
    Extend(t, b, ApplyNext(NODE), BothApplied());
    t, b := t + [BothApplied()], b + [ApplyNext(NODE)];
  }
}
