// The whole system as a state machine: clients, nodes that propose or forward,
// one committed log, and replicas that apply it, crash and recover.
//
// Raft is used through this interface only: there is one append-only committed
// log; a proposal answered with "not leader" never enters it; a proposal answered
// with any other error may still enter it later; an entry is answered without
// error when the proposing node has applied it, with its FSM's response.
module Cluster {
  import opened Wrappers
  import opened Kv
  import opened History
  import opened Clients
  import opened Server

  // Where the effect of one attempt stands: on its way to a node, handed to raft
  // there, given up on by its node but perhaps still to be committed, committed
  // (with the node that still waits for it, if any), or never to be committed.
  datatype Stage =
    | Travelling(to: string)
    | Pending(at: string)
    | Orphaned
    | Logged(index: nat, waiting: Option<string>)
    | Dead

  // One HTTP attempt, with the answer its client can receive.
  datatype Attempt = Attempt(
    call: nat, cmd: Command, noProxy: bool, sent: int,
    forwarded: bool, hops: nat, stage: Stage, reply: Option<Exchange>)

  // An Invoke call: between attempts, waiting for one, or recorded at a position.
  datatype Phase = Ready(until: int) | Waiting(att: nat) | Recorded(pos: nat)

  datatype Call = Call(op: Op, noProxy: bool, pin: Option<string>, overall: int, phase: Phase)

  // A record, with the call and the attempt it comes from.
  datatype Record = Record(call: nat, att: nat, op: Op)

  datatype LogLine = LogLine(entry: Entry, at: int, att: Option<nat>)

  datatype Snapshot = Snapshot(index: nat, data: Store)
  datatype Replica = Replica(applied: nat, data: Store, snap: Snapshot)

  // `base` is what the store held before the run (from logs of earlier runs).
  datatype State = State(
    base: Store, peers: seq<Peer>, now: int, log: seq<LogLine>,
    replicas: map<string, Replica>, attempts: seq<Attempt>, calls: seq<Call>, hist: seq<Record>)

  datatype Action =
    | Tick(d: nat)
    | Begin(op: Op, deadline: int, noProxy: bool, pin: Option<string>)
    | Send(call: nat, node: string)
    | NotSent(call: nat, error: NetError, late: bool)
    | Receive(call: nat, late: bool)
    | LoseResponse(call: nat, e: Exchange)
    | RejectRequest(att: nat)
    | Propose(att: nat)
    | Refuse(att: nat, outcome: ApplyOutcome, leader: string, parses: bool, target: string)
    | RaftError(att: nat)
    | FailProxy(att: nat)
    | Commit(att: nat)
    | CommitNoOp
    | ApplyNext(node: string)
    | TakeSnapshot(node: string)
    | InstallSnapshot(node: string, from: string)
    | Crash(node: string)

  function CommittedEntry(l: LogLine): Entry {
    l.entry
  }

  function Entries(log: seq<LogLine>): seq<Entry> {
    LogOf(CommittedEntry, log)
  }

  // The store just before log position i.
  function Held(base: Store, log: seq<LogLine>, i: nat): Store
    requires i <= |log|
  {
    Replay(base, Entries(log)[..i])
  }

  ghost predicate Init(s: State) {
    && s.log == [] && s.attempts == [] && s.calls == [] && s.hist == []
    && forall n | n in s.replicas :: s.replicas[n] == Replica(0, s.base, Snapshot(0, s.base))
  }

  // The first answer written for a request is the one that counts.
  function WithReply(t: Attempt, e: Exchange): Attempt {
    if t.reply.None? then t.(reply := Some(e)) else t
  }

  // After ErrNotLeader: the request is answered, or goes on to another node.
  function Refusal(t: Attempt, d: Decision, target: string): Attempt {
    match d
    case Answer(e) => WithReply(t.(stage := Dead), e)
    case Forward(_) => t.(forwarded := true, hops := t.hops + 1, stage := Travelling(target))
  }

  // A crash loses the handlers waiting at the node, not what raft may have logged.
  function AfterCrash(t: Attempt, node: string): Attempt {
    match t.stage
    case Pending(at) => if at == node then t.(stage := Orphaned) else t
    case Logged(i, waiting) => if waiting == Some(node) then t.(stage := Logged(i, None)) else t
    case _ => t
  }

  // The end of one attempt: the call is recorded, or goes on after a backoff. The
  // deadline is looked at no earlier than the response.
  ghost predicate Finish(s: State, c: nat, e: Exchange, late: bool, s': State)
    requires c < |s.calls| && s.calls[c].phase.Waiting?
  {
    var call := s.calls[c];
    && (s.now > call.overall ==> late)
    && match Conclude(call.op.(end := s.now), Classify(e), late || call.pin.Some?)
       case None => s' == s.(calls := s.calls[c := call.(phase := Ready(s.now + BACKOFF))])
       case Some(op) =>
         s' == s.(hist := s.hist + [Record(c, call.phase.att, op)],
                  calls := s.calls[c := call.(phase := Recorded(|s.hist|))])
  }

  // The step is that of the Invoke loop: after an answer that promises "not applied" an
  // unpinned call goes on in 150 ms unless it is late; any other answer, or a late one,
  // ends it with one record of what the answer says.
  lemma {:induction false} FinishIsInvoke(s: State, c: nat, e: Exchange, late: bool, s': State)
    requires c < |s.calls| && s.calls[c].phase.Waiting? && Finish(s, c, e, late, s')
    ensures s.now > s.calls[c].overall ==> late
    ensures var call := s.calls[c];
            if NotApplied(e) && !late && call.pin.None? then
              s'.hist == s.hist && s'.calls == s.calls[c := call.(phase := Ready(s.now + 150_000_000))]
            else
              && |s'.hist| == |s.hist| + 1 && s.hist <= s'.hist
              && s'.calls == s.calls[c := call.(phase := Recorded(|s.hist|))]
              && var r := s'.hist[|s.hist|];
                 && r.call == c && r.att == call.phase.att
                 && CommandOf(r.op) == CommandOf(call.op) && r.op.start == call.op.start && r.op.end == s.now
                 && (r.op.outcome.Failed? <==> NotApplied(e))
                 && (r.op.outcome.Succeeded? <==> e.Okay? && e.body.Some?)
                 && (r.op.outcome.Succeeded? ==> Result(r.op.ok, r.op.present, r.op.retVal) == e.body.value)
                 && !r.op.outcome.Undeclared?
  {
  }

  // A call that is not late can go on, and one that is can end: a next state exists.
  lemma {:induction false} FinishIsPossible(s: State, c: nat, e: Exchange, late: bool) returns (s': State)
    requires c < |s.calls| && s.calls[c].phase.Waiting? && (s.now > s.calls[c].overall ==> late)
    ensures Finish(s, c, e, late, s')
  {
    var call := s.calls[c];
    match Conclude(call.op.(end := s.now), Classify(e), late || call.pin.Some?)
    case None =>
      s' := s.(calls := s.calls[c := call.(phase := Ready(s.now + BACKOFF))]);
    case Some(op) =>
      s' := s.(hist := s.hist + [Record(c, call.phase.att, op)],
               calls := s.calls[c := call.(phase := Recorded(|s.hist|))]);
  }

  ghost predicate InFlight(s: State, c: nat) {
    c < |s.calls| && s.calls[c].phase.Waiting? && s.calls[c].phase.att < |s.attempts|
  }

  // A node applies its next entry. If its own handler waits for that entry, it
  // answers with what its FSM says.
  function Answered(t: Attempt, index: nat, node: string, response: Response): Attempt {
    if t.stage == Logged(index, Some(node)) then
      match Decide(Done(response), t.noProxy, t.forwarded, "", true)
      case Answer(e) => WithReply(t.(stage := Logged(index, None)), e)
      case Forward(_) => t
    else t
  }

  ghost predicate Next(s: State, a: Action, s': State) {
    match a
    case Tick(d) => s' == s.(now := s.now + d)
    case Begin(op, deadline, noProxy, pin) =>
      && op.op.Declared()
      && s' == s.(calls := s.calls + [Call(op, noProxy, pin, s.now + deadline, Ready(s.now))])
    case Send(c, node) =>
      && c < |s.calls| && s.calls[c].phase.Ready? && s.calls[c].phase.until <= s.now
      && (s.calls[c].pin.Some? ==> node == s.calls[c].pin.value)
      && var call := s.calls[c];
         s' == s.(attempts := s.attempts +
                    [Attempt(c, CommandOf(call.op), call.noProxy, s.now, false, 0, Travelling(node), None)],
                  calls := s.calls[c := call.(op := call.op.(start := s.now, node := node),
                                              phase := Waiting(|s.attempts|))])
    case NotSent(c, error, late) =>
      && InFlight(s, c) && IsDefinitelyNotSent(error)
      && var att := s.calls[c].phase.att;
         var t := s.attempts[att];
         && t.stage.Travelling? && !t.forwarded
         && Finish(s.(attempts := s.attempts[att := t.(stage := Dead)]), c, NoResponse(error), late, s')
    case Receive(c, late) =>
      && InFlight(s, c)
      && var reply := s.attempts[s.calls[c].phase.att].reply;
         && reply.Some? && Finish(s, c, reply.value, late, s')
    case LoseResponse(c, e) =>
      && InFlight(s, c)
      && (e == NoResponse(OtherError) || e == Unreadable || e == Okay(None))
      && Finish(s, c, e, true, s')
    case RejectRequest(a) =>
      && a < |s.attempts| && s.attempts[a].stage.Travelling?
      && s' == s.(attempts := s.attempts[a := WithReply(s.attempts[a].(stage := Dead), Refused(BadRequest))])
    case Propose(a) =>
      && a < |s.attempts| && s.attempts[a].stage.Travelling?
      && s' == s.(attempts := s.attempts[a := s.attempts[a].(stage := Pending(s.attempts[a].stage.to))])
    case Refuse(a, outcome, leader, parses, target) =>
      && a < |s.attempts| && s.attempts[a].stage.Pending?
      && (outcome.ErrNotLeader? || outcome.ErrLeadershipTransfer?)
      && var t := s.attempts[a];
         var d := Decide(outcome, t.noProxy, t.forwarded, BelievedLeader(t.stage.at, s.peers, leader), parses);
         s' == s.(attempts := s.attempts[a := Refusal(t, d, target)])
    case RaftError(a) =>
      && a < |s.attempts|
      && var t := s.attempts[a];
         && (t.stage.Pending? || (t.stage.Logged? && t.stage.waiting.Some?))
         && var d := Decide(ErrOther, t.noProxy, t.forwarded, "", true);
            var stage := if t.stage.Pending? then Orphaned else Logged(t.stage.index, None);
            d.Answer? && s' == s.(attempts := s.attempts[a := WithReply(t.(stage := stage), d.exchange)])
    case FailProxy(a) =>
      && a < |s.attempts| && s.attempts[a].forwarded
      && s' == s.(attempts := s.attempts[a := WithReply(s.attempts[a], Refused(ProxyFailed))])
    case Commit(a) =>
      && a < |s.attempts| && (s.attempts[a].stage.Pending? || s.attempts[a].stage.Orphaned?)
      && var t := s.attempts[a];
         var waiting := if t.stage.Pending? then Some(t.stage.at) else None;
         s' == s.(log := s.log + [LogLine(Cmd(t.cmd), s.now, Some(a))],
                  attempts := s.attempts[a := t.(stage := Logged(|s.log|, waiting))])
    case CommitNoOp => s' == s.(log := s.log + [LogLine(NoOp, s.now, None)])
    case ApplyNext(n) =>
      && n in s.replicas && s.replicas[n].applied < |s.log|
      && var r := s.replicas[n];
         var line := s.log[r.applied];
         var replicas := s.replicas[n := r.(applied := r.applied + 1, data := AfterEntry(r.data, line.entry))];
         if line.entry.Cmd? && line.att.Some? && line.att.value < |s.attempts| then
           var a := line.att.value;
           s' == s.(replicas := replicas,
                    attempts := s.attempts[a := Answered(s.attempts[a], r.applied, n, Respond(r.data, line.entry.cmd))])
         else
           s' == s.(replicas := replicas)
    case TakeSnapshot(n) =>
      && n in s.replicas
      && var r := s.replicas[n];
         s' == s.(replicas := s.replicas[n := r.(snap := Snapshot(r.applied, r.data))])
    case InstallSnapshot(n, m) =>
      && n in s.replicas && m in s.replicas && s.replicas[n].applied < s.replicas[m].snap.index
      && var snap := s.replicas[m].snap;
         s' == s.(replicas := s.replicas[n := Replica(snap.index, snap.data, snap)])
    case Crash(n) =>
      && n in s.replicas
      && var snap := s.replicas[n].snap;
         s' == s.(replicas := s.replicas[n := Replica(snap.index, snap.data, snap)],
                  attempts := seq(|s.attempts|, i requires 0 <= i < |s.attempts| => AfterCrash(s.attempts[i], n)))
  }

  // A run: every state follows from the one before by some action.
  ghost predicate IsRun(trace: seq<State>, actions: seq<Action>) {
    && |trace| == |actions| + 1
    && Init(trace[0])
    && forall i | 0 <= i < |actions| :: Next(trace[i], actions[i], trace[i+1])
  }

  // The recorded history.
  function Ops(hist: seq<Record>): (h: seq<Op>)
    ensures |h| == |hist|
    ensures forall i :: 0 <= i < |hist| ==> h[i] == hist[i].op
  {
    seq(|hist|, i requires 0 <= i < |hist| => hist[i].op)
  }

  // No Invoke call is in flight: what waiting for the clients to finish gives.
  ghost predicate Quiescent(s: State) {
    forall c | 0 <= c < |s.calls| :: s.calls[c].phase.Recorded?
  }
}
