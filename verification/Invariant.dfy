// What every step of the cluster keeps.
module Invariant {
  import opened Wrappers
  import opened Kv
  import opened History
  import opened Clients
  import opened Server
  import opened Ledger
  import opened Cluster

  // A committed command comes from an attempt that knows it is in the log there.
  ghost predicate GoodLine(s: State, i: nat)
    requires i < |s.log|
  {
    var l := s.log[i];
    && l.at <= s.now
    && match l.att
       case None => l.entry == NoOp
       case Some(a) =>
         && a < |s.attempts|
         && l.entry == Cmd(s.attempts[a].cmd)
         && s.attempts[a].stage.Logged? && s.attempts[a].stage.index == i
         && s.attempts[a].sent <= l.at
  }

  // The one attempt of a call that may still take, or has taken, effect.
  function Live(s: State, c: nat): Option<nat>
    requires c < |s.calls|
  {
    match s.calls[c].phase
    case Ready(_) => None
    case Waiting(a) => Some(a)
    case Recorded(p) => if p < |s.hist| then Some(s.hist[p].att) else None
  }

  // An answer of 200 carries the store's answer at the attempt's own log position;
  // a definite rejection means the attempt never takes effect.
  ghost predicate GoodReply(base: Store, log: seq<LogLine>, t: Attempt) {
    match t.reply
    case None => true
    case Some(Okay(Some(res))) =>
      && t.stage.Logged? && t.stage.index < |log|
      && Reply(res) == Respond(Held(base, log, t.stage.index), t.cmd)
    case Some(Refused(code)) => Definite(code) ==> t.stage.Dead?
    case _ => false
  }

  ghost predicate GoodAttempt(s: State, a: nat)
    requires a < |s.attempts|
  {
    var t := s.attempts[a];
    && t.call < |s.calls|
    && t.cmd.op.Declared()
    && t.sent <= s.now
    && t.hops == (if t.forwarded then 1 else 0)
    && (t.noProxy ==> !t.forwarded)
    && (t.stage.Logged? ==> t.stage.index < |s.log| && s.log[t.stage.index].att == Some(a))
    && (t.stage.Dead? || Live(s, t.call) == Some(a))
    && GoodReply(s.base, s.log, t)
  }

  ghost predicate GoodCall(s: State, c: nat)
    requires c < |s.calls|
  {
    var call := s.calls[c];
    && call.op.op.Declared()
    && match call.phase
       case Ready(_) => true
       case Waiting(a) =>
         && a < |s.attempts|
         && s.attempts[a].call == c
         && s.attempts[a].cmd == CommandOf(call.op)
         && s.attempts[a].sent == call.op.start
       case Recorded(p) => p < |s.hist| && s.hist[p].call == c
  }

  // A record tells the truth about its call's final attempt.
  ghost predicate Truthful(base: Store, log: seq<LogLine>, t: Attempt, x: Op) {
    && x.op.Declared() && !x.outcome.Undeclared?
    && t.cmd == CommandOf(x)
    && x.start == t.sent && x.start <= x.end
    && (x.outcome.Failed? ==> t.stage.Dead?)
    && (x.outcome.Succeeded? ==>
          && t.stage.Logged? && t.stage.index < |log|
          && log[t.stage.index].at <= x.end
          && AnswerOf(x) == Respond(Held(base, log, t.stage.index), t.cmd))
  }

  ghost predicate GoodRecord(s: State, p: nat)
    requires p < |s.hist|
  {
    var r := s.hist[p];
    && r.call < |s.calls| && s.calls[r.call].phase == Recorded(p)
    && r.att < |s.attempts| && s.attempts[r.att].call == r.call
    && r.op.end <= s.now
    && Truthful(s.base, s.log, s.attempts[r.att], r.op)
  }

  // A replica and its snapshot hold the fold of the log prefix they have applied.
  ghost predicate GoodReplica(base: Store, log: seq<LogLine>, r: Replica) {
    && r.applied <= |log| && r.data == Held(base, log, r.applied)
    && r.snap.index <= |log| && r.snap.data == Held(base, log, r.snap.index)
  }

  ghost predicate GoodReplicas(base: Store, log: seq<LogLine>, replicas: map<string, Replica>) {
    forall n | n in replicas :: GoodReplica(base, log, replicas[n])
  }

  ghost predicate Inv(s: State) {
    && (forall i, j | 0 <= i < j < |s.log| :: s.log[i].at <= s.log[j].at)
    && (forall i | 0 <= i < |s.log| :: GoodLine(s, i))
    && (forall a | 0 <= a < |s.attempts| :: GoodAttempt(s, a))
    && (forall c | 0 <= c < |s.calls| :: GoodCall(s, c))
    && (forall p | 0 <= p < |s.hist| :: GoodRecord(s, p))
    && GoodReplicas(s.base, s.log, s.replicas)
  }

  lemma {:induction false} InitInv(s: State)
    requires Init(s)
    ensures Inv(s)
  {
  }

  lemma {:induction false} HeldAppend(base: Store, log: seq<LogLine>, l: LogLine, i: nat)
    requires i <= |log|
    ensures Held(base, log + [l], i) == Held(base, log, i)
  {
    assert Entries(log + [l])[..i] == Entries(log)[..i];
  }

  lemma {:induction false} HeldNext(base: Store, log: seq<LogLine>, i: nat)
    requires i < |log|
    ensures Held(base, log, i + 1) == AfterEntry(Held(base, log, i), log[i].entry)
  {
    var es := Entries(log);
    assert es[..i + 1] == es[..i] + [es[i]];
    ReplaySnoc(base, es[..i], es[i]);
  }

  // ----- Steps that move attempts along, with replicas -----

  // How an attempt may change while the log stays as it is.
  ghost predicate Moves(base: Store, log: seq<LogLine>, t: Attempt, t': Attempt) {
    && t'.call == t.call && t'.cmd == t.cmd && t'.sent == t.sent && t'.noProxy == t.noProxy
    && t'.hops == (if t'.forwarded then 1 else 0)
    && (t'.noProxy ==> !t'.forwarded)
    && (t.stage.Dead? ==> t'.stage.Dead?)
    && (t.stage.Logged? <==> t'.stage.Logged?)
    && (t.stage.Logged? ==> t'.stage.index == t.stage.index)
    && GoodReply(base, log, t')
  }

  lemma {:induction false} MovesKeep(s: State, s': State)
    requires Inv(s)
    requires s' == s.(attempts := s'.attempts, replicas := s'.replicas)
    requires |s'.attempts| == |s.attempts|
    requires forall a | 0 <= a < |s.attempts| :: Moves(s.base, s.log, s.attempts[a], s'.attempts[a])
    requires GoodReplicas(s.base, s.log, s'.replicas)
    ensures Inv(s')
  {
    forall i | 0 <= i < |s'.log| ensures GoodLine(s', i) {
      assert GoodLine(s, i);
    }
    forall a | 0 <= a < |s'.attempts| ensures GoodAttempt(s', a) {
      assert GoodAttempt(s, a) && Moves(s.base, s.log, s.attempts[a], s'.attempts[a]);
      assert Live(s', s.attempts[a].call) == Live(s, s.attempts[a].call);
    }
    forall c | 0 <= c < |s'.calls| ensures GoodCall(s', c) {
      assert GoodCall(s, c);
    }
    forall p | 0 <= p < |s'.hist| ensures GoodRecord(s', p) {
      assert GoodRecord(s, p);
      assert Moves(s.base, s.log, s.attempts[s.hist[p].att], s'.attempts[s.hist[p].att]);
    }
  }

  lemma {:induction false} StaysPut(s: State, a: nat)
    requires Inv(s) && a < |s.attempts|
    ensures Moves(s.base, s.log, s.attempts[a], s.attempts[a])
  {
    assert GoodAttempt(s, a);
  }

  lemma {:induction false} OneMoves(s: State, a: nat, t: Attempt, s': State)
    requires Inv(s) && a < |s.attempts|
    requires Moves(s.base, s.log, s.attempts[a], t)
    requires s' == s.(attempts := s.attempts[a := t], replicas := s'.replicas)
    requires GoodReplicas(s.base, s.log, s'.replicas)
    ensures Inv(s')
  {
    forall b | 0 <= b < |s.attempts| ensures Moves(s.base, s.log, s.attempts[b], s'.attempts[b]) {
      StaysPut(s, b);
    }
    MovesKeep(s, s');
  }

  lemma {:induction false} AttemptStep(s: State, a: Action, s': State)
    requires Inv(s) && Next(s, a, s')
    requires a.RejectRequest? || a.Propose? || a.Refuse? || a.RaftError? || a.FailProxy?
    ensures Inv(s')
  {
    assert GoodAttempt(s, a.att);
    OneMoves(s, a.att, s'.attempts[a.att], s');
  }

  lemma {:induction false} ApplyStep(s: State, a: Action, s': State)
    requires Inv(s) && Next(s, a, s') && a.ApplyNext?
    ensures Inv(s')
  {
    var r := s.replicas[a.node];
    assert GoodReplica(s.base, s.log, r) && GoodLine(s, r.applied);
    HeldNext(s.base, s.log, r.applied);
    ReplaceReplica(s, a.node, s'.replicas[a.node]);
    var l := s.log[r.applied];
    if l.att.Some? {
      AnsweredMoves(s, l.att.value, a.node);
      OneMoves(s, l.att.value, s'.attempts[l.att.value], s');
    } else {
      NoneMoves(s, s');
    }
  }

  lemma {:induction false} NoneMoves(s: State, s': State)
    requires Inv(s)
    requires s' == s.(replicas := s'.replicas) && GoodReplicas(s.base, s.log, s'.replicas)
    ensures Inv(s')
  {
    forall b | 0 <= b < |s.attempts| ensures Moves(s.base, s.log, s.attempts[b], s'.attempts[b]) {
      StaysPut(s, b);
    }
    MovesKeep(s, s');
  }

  // A node answers from its own replica, which holds what the log says it holds.
  lemma {:induction false} AnsweredMoves(s: State, att: nat, n: string)
    requires Inv(s) && att < |s.attempts| && n in s.replicas && s.replicas[n].applied < |s.log|
    requires s.log[s.replicas[n].applied].att == Some(att)
    ensures var t, r := s.attempts[att], s.replicas[n];
            Moves(s.base, s.log, t, Answered(t, r.applied, n, Respond(r.data, t.cmd)))
  {
    assert GoodAttempt(s, att) && GoodReplica(s.base, s.log, s.replicas[n]);
  }

  lemma {:induction false} ReplicaStep(s: State, a: Action, s': State)
    requires Inv(s) && Next(s, a, s')
    requires a.TakeSnapshot? || a.InstallSnapshot?
    ensures Inv(s')
  {
    assert GoodReplica(s.base, s.log, s.replicas[a.node]);
    if a.InstallSnapshot? {
      assert GoodReplica(s.base, s.log, s.replicas[a.from]);
    }
    ReplaceReplica(s, a.node, s'.replicas[a.node]);
    NoneMoves(s, s');
  }

  lemma {:induction false} ReplaceReplica(s: State, n: string, r: Replica)
    requires Inv(s) && GoodReplica(s.base, s.log, r)
    ensures GoodReplicas(s.base, s.log, s.replicas[n := r])
  {
    var replicas := s.replicas[n := r];
    forall m | m in replicas ensures GoodReplica(s.base, s.log, replicas[m]) {
      assert m != n ==> m in s.replicas && replicas[m] == s.replicas[m];
    }
  }

  lemma {:induction false} CrashMoves(s: State, b: nat, n: string)
    requires Inv(s) && b < |s.attempts|
    ensures Moves(s.base, s.log, s.attempts[b], AfterCrash(s.attempts[b], n))
  {
    assert GoodAttempt(s, b);
  }

  lemma {:induction false} CrashStep(s: State, a: Action, s': State)
    requires Inv(s) && Next(s, a, s') && a.Crash?
    ensures Inv(s')
  {
    assert GoodReplica(s.base, s.log, s.replicas[a.node]);
    ReplaceReplica(s, a.node, s'.replicas[a.node]);
    forall b | 0 <= b < |s.attempts| ensures Moves(s.base, s.log, s.attempts[b], s'.attempts[b]) {
      CrashMoves(s, b, a.node);
      assert s'.attempts[b] == AfterCrash(s.attempts[b], a.node);
    }
    MovesKeep(s, s');
  }

  // ----- Steps that extend the log -----

  // Facts about log positions stay when an entry is appended.
  lemma {:induction false} AppendReplica(s: State, l: LogLine, n: string)
    requires Inv(s) && n in s.replicas
    ensures GoodReplica(s.base, s.log + [l], s.replicas[n])
  {
    var r := s.replicas[n];
    assert GoodReplica(s.base, s.log, r);
    HeldAppend(s.base, s.log, l, r.applied);
    HeldAppend(s.base, s.log, l, r.snap.index);
  }

  lemma {:induction false} AppendReply(s: State, l: LogLine, a: nat)
    requires Inv(s) && a < |s.attempts|
    ensures GoodReply(s.base, s.log + [l], s.attempts[a])
  {
    var t := s.attempts[a];
    assert GoodAttempt(s, a);
    if t.stage.Logged? {
      HeldAppend(s.base, s.log, l, t.stage.index);
    }
  }

  lemma {:induction false} AppendRecord(s: State, l: LogLine, p: nat)
    requires Inv(s) && p < |s.hist|
    ensures s.hist[p].att < |s.attempts|
    ensures Truthful(s.base, s.log + [l], s.attempts[s.hist[p].att], s.hist[p].op)
  {
    assert GoodRecord(s, p);
    var t := s.attempts[s.hist[p].att];
    if t.stage.Logged? && t.stage.index < |s.log| {
      HeldAppend(s.base, s.log, l, t.stage.index);
    }
  }

  // One more line of the log, which an attempt that was still open now stands for.
  ghost predicate Extends(s: State, l: LogLine, s': State) {
    && l.at == s.now
    && s'.log == s.log + [l]
    && s' == s.(log := s'.log, attempts := s'.attempts)
    && match l.att
       case None => l.entry == NoOp && s'.attempts == s.attempts
       case Some(a) =>
         && a < |s.attempts| && l.entry == Cmd(s.attempts[a].cmd)
         && !s.attempts[a].stage.Logged? && !s.attempts[a].stage.Dead?
         && exists waiting :: s'.attempts == s.attempts[a := s.attempts[a].(stage := Logged(|s.log|, waiting))]
  }

  lemma {:induction false} ExtendsLog(s: State, l: LogLine, s': State)
    requires Inv(s) && Extends(s, l, s')
    ensures forall i, j | 0 <= i < j < |s'.log| :: s'.log[i].at <= s'.log[j].at
    ensures forall i | 0 <= i < |s'.log| :: GoodLine(s', i)
  {
    forall i, j | 0 <= i < j < |s'.log| ensures s'.log[i].at <= s'.log[j].at {
      assert GoodLine(s, i);
    }
    if l.att.Some? {
      assert GoodAttempt(s, l.att.value);
    }
    forall i | 0 <= i < |s'.log| ensures GoodLine(s', i) {
      if i < |s.log| {
        assert GoodLine(s, i);
      }
    }
  }

  lemma {:induction false} ExtendsAttempt(s: State, l: LogLine, s': State, b: nat)
    requires Inv(s) && Extends(s, l, s') && b < |s.attempts|
    ensures |s'.attempts| == |s.attempts| && GoodAttempt(s', b)
  {
    assert GoodAttempt(s, b);
    AppendReply(s, l, b);
    assert Live(s', s.attempts[b].call) == Live(s, s.attempts[b].call);
  }

  lemma {:induction false} ExtendsRecord(s: State, l: LogLine, s': State, p: nat)
    requires Inv(s) && Extends(s, l, s') && p < |s.hist|
    ensures GoodRecord(s', p)
  {
    assert GoodRecord(s, p);
    AppendRecord(s, l, p);
  }

  lemma {:induction false} ExtendsKeeps(s: State, l: LogLine, s': State)
    requires Inv(s) && Extends(s, l, s')
    ensures Inv(s')
  {
    ExtendsLog(s, l, s');
    forall b | 0 <= b < |s'.attempts| ensures GoodAttempt(s', b) {
      ExtendsAttempt(s, l, s', b);
    }
    forall c | 0 <= c < |s'.calls| ensures GoodCall(s', c) {
      assert GoodCall(s, c);
    }
    forall p | 0 <= p < |s'.hist| ensures GoodRecord(s', p) {
      ExtendsRecord(s, l, s', p);
    }
    forall n | n in s'.replicas ensures GoodReplica(s'.base, s'.log, s'.replicas[n]) {
      AppendReplica(s, l, n);
    }
  }

  lemma {:induction false} CommitStep(s: State, a: Action, s': State)
    requires Inv(s) && Next(s, a, s') && (a.Commit? || a.CommitNoOp?)
    ensures Inv(s')
  {
    var l := s'.log[|s.log|];
    if a.Commit? {
      var t := s.attempts[a.att];
      var waiting := if t.stage.Pending? then Some(t.stage.at) else None;
      assert s'.attempts == s.attempts[a.att := t.(stage := Logged(|s.log|, waiting))];
    }
    ExtendsKeeps(s, l, s');
  }

  // ----- Steps of the clients -----

  lemma {:induction false} TickStep(s: State, a: Action, s': State)
    requires Inv(s) && Next(s, a, s') && a.Tick?
    ensures Inv(s')
  {
    forall i | 0 <= i < |s'.log| ensures GoodLine(s', i) {
      assert GoodLine(s, i);
    }
    forall b | 0 <= b < |s'.attempts| ensures GoodAttempt(s', b) {
      assert GoodAttempt(s, b);
      assert Live(s', s.attempts[b].call) == Live(s, s.attempts[b].call);
    }
    forall c | 0 <= c < |s'.calls| ensures GoodCall(s', c) {
      assert GoodCall(s, c);
    }
    forall p | 0 <= p < |s'.hist| ensures GoodRecord(s', p) {
      assert GoodRecord(s, p);
    }
  }

  lemma {:induction false} BeginStep(s: State, a: Action, s': State)
    requires Inv(s) && Next(s, a, s') && a.Begin?
    ensures Inv(s')
  {
    forall i | 0 <= i < |s'.log| ensures GoodLine(s', i) {
      assert GoodLine(s, i);
    }
    forall b | 0 <= b < |s'.attempts| ensures GoodAttempt(s', b) {
      assert GoodAttempt(s, b);
      assert Live(s', s.attempts[b].call) == Live(s, s.attempts[b].call);
    }
    forall c | 0 <= c < |s'.calls| ensures GoodCall(s', c) {
      if c < |s.calls| {
        assert GoodCall(s, c);
      }
    }
    forall p | 0 <= p < |s'.hist| ensures GoodRecord(s', p) {
      assert GoodRecord(s, p);
    }
  }

  lemma {:induction false} SendStep(s: State, a: Action, s': State)
    requires Inv(s) && Next(s, a, s') && a.Send?
    ensures Inv(s')
  {
    assert GoodCall(s, a.call);
    forall i | 0 <= i < |s'.log| ensures GoodLine(s', i) {
      assert GoodLine(s, i);
    }
    forall b | 0 <= b < |s'.attempts| ensures GoodAttempt(s', b) {
      if b < |s.attempts| {
        assert GoodAttempt(s, b);
        assert s.attempts[b].call != a.call ==> Live(s', s.attempts[b].call) == Live(s, s.attempts[b].call);
      }
    }
    forall c | 0 <= c < |s'.calls| ensures GoodCall(s', c) {
      assert GoodCall(s, c);
    }
    forall p | 0 <= p < |s'.hist| ensures GoodRecord(s', p) {
      assert GoodRecord(s, p);
    }
  }

  // An attempt may be taken for failed only when it is dead.
  ghost predicate Informs(s: State, att: nat, e: Exchange)
    requires att < |s.attempts|
  {
    match Classify(e)
    case AttemptFail => s.attempts[att].stage.Dead?
    case AttemptOk(r) => s.attempts[att].reply == Some(Okay(Some(r)))
    case AttemptUnknown => true
  }

  lemma {:induction false} FinishKeeps(s: State, c: nat, e: Exchange, late: bool, s': State)
    requires Inv(s) && InFlight(s, c)
    requires Informs(s, s.calls[c].phase.att, e)
    requires Finish(s, c, e, late, s')
    ensures Inv(s')
  {
    var att := s.calls[c].phase.att;
    assert GoodCall(s, c) && GoodAttempt(s, att);
    forall i | 0 <= i < |s'.log| ensures GoodLine(s', i) {
      assert GoodLine(s, i);
    }
    forall b | 0 <= b < |s'.attempts| ensures GoodAttempt(s', b) {
      assert GoodAttempt(s, b);
      LiveAfterFinish(s, c, e, late, s', b);
    }
    forall d | 0 <= d < |s'.calls| ensures GoodCall(s', d) {
      assert GoodCall(s, d);
    }
    forall p | 0 <= p < |s'.hist| ensures GoodRecord(s', p) {
      if p < |s.hist| {
        assert GoodRecord(s, p);
      } else if s.attempts[att].stage.Logged? {
        assert GoodLine(s, s.attempts[att].stage.index);
      }
    }
  }

  lemma {:induction false} LiveAfterFinish(s: State, c: nat, e: Exchange, late: bool, s': State, b: nat)
    requires Inv(s) && InFlight(s, c)
    requires Informs(s, s.calls[c].phase.att, e)
    requires Finish(s, c, e, late, s')
    requires b < |s.attempts| && GoodAttempt(s, b)
    ensures s.attempts[b].stage.Dead? || Live(s', s.attempts[b].call) == Some(b)
  {
    var d := s.attempts[b].call;
    assert GoodCall(s, d);
    if d != c {
      assert s'.calls[d] == s.calls[d];
    }
  }

  lemma {:induction false} ClientStep(s: State, a: Action, s': State)
    requires Inv(s) && Next(s, a, s')
    requires a.NotSent? || a.Receive? || a.LoseResponse?
    ensures Inv(s')
  {
    var att := s.calls[a.call].phase.att;
    assert GoodAttempt(s, att);
    match a {
      case NotSent(c, error, late) =>
        var s1 := s.(attempts := s.attempts[att := s.attempts[att].(stage := Dead)]);
        OneMoves(s, att, s1.attempts[att], s1);
        FinishKeeps(s1, c, NoResponse(error), late, s');
      case Receive(c, late) =>
        FinishKeeps(s, c, s.attempts[att].reply.value, late, s');
      case LoseResponse(c, e) =>
        FinishKeeps(s, c, e, true, s');
    }
  }

  // Every step keeps the invariant.
  lemma {:induction false} NextInv(s: State, a: Action, s': State)
    requires Inv(s) && Next(s, a, s')
    ensures Inv(s')
  {
    match a {
      case Tick(_) => TickStep(s, a, s');
      case Begin(_, _, _, _) => BeginStep(s, a, s');
      case Send(_, _) => SendStep(s, a, s');
      case NotSent(_, _, _) => ClientStep(s, a, s');
      case Receive(_, _) => ClientStep(s, a, s');
      case LoseResponse(_, _) => ClientStep(s, a, s');
      case RejectRequest(_) => AttemptStep(s, a, s');
      case Propose(_) => AttemptStep(s, a, s');
      case Refuse(_, _, _, _, _) => AttemptStep(s, a, s');
      case RaftError(_) => AttemptStep(s, a, s');
      case FailProxy(_) => AttemptStep(s, a, s');
      case Commit(_) => CommitStep(s, a, s');
      case CommitNoOp => CommitStep(s, a, s');
      case ApplyNext(_) => ApplyStep(s, a, s');
      case TakeSnapshot(_) => ReplicaStep(s, a, s');
      case InstallSnapshot(_, _) => ReplicaStep(s, a, s');
      case Crash(_) => CrashStep(s, a, s');
    }
  }

  // Every state of every run satisfies the invariant.
  lemma {:induction false} RunInv(trace: seq<State>, actions: seq<Action>, n: nat)
    requires IsRun(trace, actions) && n < |trace|
    ensures Inv(trace[n])
  {
    if n == 0 {
      InitInv(trace[0]);
    } else {
      RunInv(trace, actions, n - 1);
      assert Next(trace[n-1], actions[n-1], trace[n-1+1]);
      NextInv(trace[n-1], actions[n-1], trace[n]);
    }
  }
}
