// Why unanswered mutations stay open to the end of the history: a run in which a put
// is forwarded, answered with "apply failed" and recorded as unknown, and is committed
// only after its client has moved on.
module Lateness {
  import opened Wrappers
  import opened Kv
  import opened History
  import opened Clients
  import opened Server
  import opened Cluster
  import opened Quiescence

  const FOLLOWER := "node1"
  const LEADER := "node2"
  const PEERS := [Peer(FOLLOWER, "", "http://node1:8080"), Peer(LEADER, "", "http://node2:8080")]

  function Begun(): State {
    State(map[], PEERS, 0, [], map[], [],
          [Call(PUT, false, None, 0, Ready(0))], [])
  }

  function Sent(stage: Stage, forwarded: bool, reply: Option<Exchange>): Attempt {
    Attempt(0, CommandOf(PUT), false, 0, forwarded, if forwarded then 1 else 0, stage, reply)
  }

  // The call with its one attempt.
  function With(t: Attempt): State {
    Begun().(calls := [Call(PUT.(node := FOLLOWER), false, None, 0, Waiting(0))], attempts := [t])
  }

  lemma {:induction false} LeaderIsKnown()
    ensures BelievedLeader(FOLLOWER, PEERS, LEADER) == "http://node2:8080"
  {
    assert FOLLOWER[4] == '1' && LEADER[4] == '2';
    assert PEERS[1..][0] == PEERS[1];
    assert UrlOf(PEERS, LEADER) == UrlOf(PEERS[1..], LEADER);
  }

  // The put reaches the follower, is proposed there, refused, and forwarded.
  lemma {:induction false} Forwarded() returns (t: seq<State>, b: seq<Action>)
    ensures IsRun(t, b) && t[|t|-1] == With(Sent(Travelling(LEADER), true, None))
  {
    var s0 := Begun().(calls := []);
    t, b := [s0], [];
    Extend(t, b, Begin(PUT, 0, false, None), Begun());
    t, b := t + [Begun()], b + [Begin(PUT, 0, false, None)];
    var s2 := With(Sent(Travelling(FOLLOWER), false, None));
    Extend(t, b, Send(0, FOLLOWER), s2);
    t, b := t + [s2], b + [Send(0, FOLLOWER)];
    var s3 := With(Sent(Pending(FOLLOWER), false, None));
    Extend(t, b, Propose(0), s3);
    t, b := t + [s3], b + [Propose(0)];
    LeaderIsKnown();
    var s4 := With(Sent(Travelling(LEADER), true, None));
    var refuse := Refuse(0, ErrNotLeader, LEADER, true, LEADER);
    Extend(t, b, refuse, s4);
    t, b := t + [s4], b + [refuse];
  }

  // The leader loses its leadership, and the client records the put as unknown.
  function Gone(): State {
    Begun().(calls := [Call(PUT.(node := FOLLOWER), false, None, 0, Recorded(0))],
             attempts := [Sent(Orphaned, true, Some(Refused(ApplyFailed)))],
             hist := [Record(0, 0, PUT.(node := FOLLOWER, outcome := Unknown))])
  }

  lemma {:induction false} RecordedUnknown() returns (t: seq<State>, b: seq<Action>)
    ensures IsRun(t, b) && t[|t|-1] == Gone()
  {
    t, b := Forwarded();
    var s5 := With(Sent(Pending(LEADER), true, None));
    Extend(t, b, Propose(0), s5);
    t, b := t + [s5], b + [Propose(0)];
    var s6 := With(Sent(Orphaned, true, Some(Refused(ApplyFailed))));
    Extend(t, b, RaftError(0), s6);
    t, b := t + [s6], b + [RaftError(0)];
    Extend(t, b, Receive(0, false), Gone());
    t, b := t + [Gone()], b + [Receive(0, false)];
  }

  // An unknown put may take effect after everything that was recorded: no call is in
  // flight, the log is empty, and yet the put is committed in the next step.
  lemma {:induction false} UnknownMayCommitLate() returns (t: seq<State>, b: seq<Action>, n: nat)
    ensures IsRun(t, b) && n + 1 < |t| && Quiescent(t[n]) && t[n].log == []
    ensures |t[n].hist| == 1 && t[n].hist[0].op.op.Put? && t[n].hist[0].op.outcome.Unknown?
    ensures t[n].hist[0].att < |t[n].attempts| && t[n].attempts[t[n].hist[0].att].forwarded
    ensures |t[n+1].log| == 1 && t[n+1].log[0].att == Some(t[n].hist[0].att)
    ensures t[n+1].log[0].entry == Cmd(CommandOf(t[n].hist[0].op))
  {
    t, b := RecordedUnknown();
    n := |t| - 1;
    var s := Gone().(log := [LogLine(Cmd(CommandOf(PUT)), 0, Some(0))],
                     attempts := [Sent(Logged(0, None), true, Some(Refused(ApplyFailed)))]);
    Extend(t, b, Commit(0), s);
    t, b := t + [s], b + [Commit(0)];
  }
}
