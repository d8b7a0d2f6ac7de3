// What holds in every run of the cluster.
module Runs {
  import opened Wrappers
  import opened Kv
  import opened History
  import opened Clients
  import opened Checker
  import opened Linearizability
  import opened Explanation
  import opened Ledger
  import opened Cluster
  import opened Invariant

  // The record of the operation that proposed a log line, if it has ended.
  function Owner(s: State, att: Option<nat>): Option<nat> {
    match att
    case None => None
    case Some(a) =>
      if a < |s.attempts| && s.attempts[a].call < |s.calls| && s.calls[s.attempts[a].call].phase.Recorded?
      then Some(s.calls[s.attempts[a].call].phase.pos)
      else None
  }

  function LinesOf(s: State): (lines: seq<Line>)
    ensures |lines| == |s.log|
    ensures forall i :: 0 <= i < |lines| ==> lines[i] == Line(s.log[i].entry, s.log[i].at, Owner(s, s.log[i].att))
  {
    seq(|s.log|, i requires 0 <= i < |s.log| => Line(s.log[i].entry, s.log[i].at, Owner(s, s.log[i].att)))
  }

  // Line i belongs to the record at p: it is its final attempt that stands there.
  lemma {:induction false} OwnerIsFinal(s: State, i: nat, p: nat)
    requires Inv(s) && i < |s.log| && Owner(s, s.log[i].att) == Some(p)
    ensures p < |s.hist| && s.log[i].att == Some(s.hist[p].att)
    ensures StandsFor(s.base, LinesOf(s), i, s.hist[p].op)
  {
    assert GoodLine(s, i);
    var a := s.log[i].att.value;
    assert GoodAttempt(s, a) && GoodCall(s, s.attempts[a].call);
    assert GoodRecord(s, p);
    assert EntriesOf(LinesOf(s)) == Entries(s.log);
  }

  lemma {:induction false} InvBook(s: State)
    requires Inv(s)
    ensures Book(s.base, LinesOf(s), Ops(s.hist))
  {
    var lines, h := LinesOf(s), Ops(s.hist);
    forall i | 0 <= i < |lines| ensures Owned(s.base, lines, h, i) {
      if lines[i].owner.Some? {
        OwnerIsFinal(s, i, lines[i].owner.value);
      }
    }
    forall i, j | 0 <= i < j < |lines| && lines[i].owner.Some? ensures lines[i].owner != lines[j].owner {
      assert GoodLine(s, i) && GoodLine(s, j);
      if lines[i].owner == lines[j].owner {
        OwnerIsFinal(s, i, lines[i].owner.value);
        OwnerIsFinal(s, j, lines[i].owner.value);
      }
    }
  }

  // In every state the log and the history keep balanced books.
  lemma {:induction false} InvBalanced(s: State)
    requires Inv(s)
    ensures Balanced(s.base, LinesOf(s), Ops(s.hist))
  {
    var lines, h := LinesOf(s), Ops(s.hist);
    InvBook(s);
    forall o | 0 <= o < |h| && h[o].outcome.Succeeded? ensures HasLine(lines, o) {
      assert GoodRecord(s, o);
      var a := s.hist[o].att;
      assert GoodAttempt(s, a);
      assert lines[s.attempts[a].stage.index].owner == Some(o);
    }
  }

  lemma {:induction false} QuiescentSettled(s: State)
    requires Inv(s) && Quiescent(s)
    ensures Settled(LinesOf(s))
  {
    var lines := LinesOf(s);
    forall i | 0 <= i < |lines| && lines[i].entry.Cmd? ensures lines[i].owner.Some? {
      assert GoodLine(s, i);
      assert GoodAttempt(s, s.log[i].att.value);
    }
  }

  lemma {:induction false} HistoryIsProper(s: State)
    requires Inv(s)
    ensures Declared(Ops(s.hist)) && Timely(Ops(s.hist))
    ensures s.now < MAX_INT64 ==> InRange(Ops(s.hist))
  {
    var h := Ops(s.hist);
    forall x | x in h
      ensures x.op.Declared() && !x.outcome.Undeclared? && x.start <= x.end && x.end <= s.now
    {
      var p :| 0 <= p < |h| && h[p] == x;
      assert GoodRecord(s, p);
    }
  }

  lemma {:induction false} RunBalanced(trace: seq<State>, actions: seq<Action>, n: nat)
    requires IsRun(trace, actions) && n < |trace|
    ensures Inv(trace[n])
    ensures Balanced(trace[n].base, LinesOf(trace[n]), Ops(trace[n].hist))
  {
    RunInv(trace, actions, n);
    InvBalanced(trace[n]);
  }

  // No false alarms: whatever the interleaving of clients, forwarding, late
  // commits, crashes and restarts, the checker accepts the recorded history once
  // every committed command has its record, if each key that held something before
  // the run is deleted before it is used. Calls in flight that have not been
  // committed, or never are, do no harm.
  lemma {:induction false} ResetRunsAreAccepted(trace: seq<State>, actions: seq<Action>, n: nat)
    requires IsRun(trace, actions) && n < |trace|
    requires Settled(LinesOf(trace[n])) && trace[n].now < MAX_INT64
    requires ResetFirst(trace[n].base, LinesOf(trace[n]))
    ensures Accepts(Checkable(Ops(trace[n].hist)))
  {
    var s := trace[n];
    RunBalanced(trace, actions, n);
    HistoryIsProper(s);
    var w := LedgerExplains(s.base, LinesOf(s), Ops(s.hist));
    AcceptanceIsExplanation(Ops(s.hist));
  }

  // The same from an empty store.
  lemma {:induction false} SettledRunsAreAccepted(trace: seq<State>, actions: seq<Action>, n: nat)
    requires IsRun(trace, actions) && n < |trace|
    requires trace[0].base == map[]
    requires Settled(LinesOf(trace[n])) && trace[n].now < MAX_INT64
    ensures Accepts(Checkable(Ops(trace[n].hist)))
  {
    BaseIsFixed(trace, actions, n);
    ResetRunsAreAccepted(trace, actions, n);
  }

  // Waiting for all clients is enough.
  lemma {:induction false} NoFalseAlarms(trace: seq<State>, actions: seq<Action>, n: nat)
    requires IsRun(trace, actions) && n < |trace|
    requires trace[0].base == map[]
    requires Quiescent(trace[n]) && trace[n].now < MAX_INT64
    ensures Accepts(Checkable(Ops(trace[n].hist)))
  {
    RunInv(trace, actions, n);
    QuiescentSettled(trace[n]);
    SettledRunsAreAccepted(trace, actions, n);
  }

  lemma {:induction false} BaseIsFixed(trace: seq<State>, actions: seq<Action>, n: nat)
    requires IsRun(trace, actions) && n < |trace|
    ensures trace[n].base == trace[0].base
  {
    if n == 0 {
    } else {
      BaseIsFixed(trace, actions, n - 1);
      assert Next(trace[n-1], actions[n-1], trace[n-1+1]);
    }
  }

  // The history shows the reset by itself: on a key the store held before, every
  // record that may have taken effect is a delete or was invoked after an
  // acknowledged delete.
  ghost predicate ResetShown(base: Store, h: seq<Op>) {
    forall x | x in h && !x.outcome.Failed? && x.key in base ::
      x.op.Delete? || exists d :: d in h && IsReset(d, x)
  }

  predicate IsReset(d: Op, x: Op) {
    d.op.Delete? && d.outcome.Succeeded? && d.key == x.key && d.end < x.start
  }

  lemma {:induction false} ShownIsReset(base: Store, lines: seq<Line>, h: seq<Op>)
    requires Balanced(base, lines, h) && Settled(lines) && ResetShown(base, h)
    ensures ResetFirst(base, lines)
  {
    forall i | 0 <= i < |lines| && lines[i].entry.Cmd? && lines[i].entry.cmd.key in base
      ensures lines[i].entry.cmd.op.Delete? || DeletedBefore(lines, i, lines[i].entry.cmd.key)
    {
      assert Owned(base, lines, h, i);
      var x := h[lines[i].owner.value];
      if !x.op.Delete? {
        assert x in h;
        var d :| d in h && IsReset(d, x);
        var o :| 0 <= o < |h| && h[o] == d;
        var j := LineOf(base, lines, h, o);
        assert lines[j].at < lines[i].at;
        assert j < i;
      }
    }
  }

  // Reset removes residue: the store may have held anything before the run.
  lemma {:induction false} ResetRemovesResidue(trace: seq<State>, actions: seq<Action>, n: nat)
    requires IsRun(trace, actions) && n < |trace|
    requires Settled(LinesOf(trace[n])) && trace[n].now < MAX_INT64
    requires ResetShown(trace[n].base, Ops(trace[n].hist))
    ensures Accepts(Checkable(Ops(trace[n].hist)))
  {
    RunBalanced(trace, actions, n);
    ShownIsReset(trace[n].base, LinesOf(trace[n]), Ops(trace[n].hist));
    ResetRunsAreAccepted(trace, actions, n);
  }

  // Line i was proposed by an attempt of call c.
  ghost predicate ProposedBy(s: State, i: nat, c: nat)
    requires i < |s.log|
  {
    s.log[i].att.Some? && s.log[i].att.value < |s.attempts| && s.attempts[s.log[i].att.value].call == c
  }

  // At most once, across retries and forwarding: a call puts at most one entry in
  // the log, and none of its attempts is forwarded twice.
  lemma {:induction false} AtMostOnce(trace: seq<State>, actions: seq<Action>, n: nat, c: nat)
    requires IsRun(trace, actions) && n < |trace| && c < |trace[n].calls|
    ensures forall i, j | 0 <= i < |trace[n].log| && 0 <= j < |trace[n].log| &&
                          ProposedBy(trace[n], i, c) && ProposedBy(trace[n], j, c) :: i == j
    ensures forall a | 0 <= a < |trace[n].attempts| && trace[n].attempts[a].call == c :: trace[n].attempts[a].hops <= 1
  {
    var s := trace[n];
    RunInv(trace, actions, n);
    forall i, j | 0 <= i < |s.log| && 0 <= j < |s.log| && ProposedBy(s, i, c) && ProposedBy(s, j, c) ensures i == j {
      assert GoodLine(s, i) && GoodLine(s, j);
      assert GoodAttempt(s, s.log[i].att.value) && GoodAttempt(s, s.log[j].att.value);
    }
    forall a | 0 <= a < |s.attempts| && s.attempts[a].call == c ensures s.attempts[a].hops <= 1 {
      assert GoodAttempt(s, a);
    }
  }

  // ... and how the outcome tells: a failed call has no entry, an acknowledged one
  // has its entry, committed between the final attempt's start and its response,
  // and the entry of an unknown one, if any, is not older than its final attempt.
  lemma {:induction false} OutcomeTells(trace: seq<State>, actions: seq<Action>, n: nat, p: nat)
    requires IsRun(trace, actions) && n < |trace| && p < |trace[n].hist|
    ensures var s, r := trace[n], trace[n].hist[p];
            && r.call < |s.calls| && r.att < |s.attempts|
            && (forall i | 0 <= i < |s.log| && ProposedBy(s, i, r.call) ::
                  !r.op.outcome.Failed? && s.log[i].att == Some(r.att) && r.op.start <= s.log[i].at)
            && (r.op.outcome.Succeeded? ==>
                  exists i :: 0 <= i < |s.log| && ProposedBy(s, i, r.call) && r.op.start <= s.log[i].at <= r.op.end)
  {
    var s, r := trace[n], trace[n].hist[p];
    RunInv(trace, actions, n);
    assert GoodRecord(s, p);
    forall i | 0 <= i < |s.log| && ProposedBy(s, i, r.call)
      ensures !r.op.outcome.Failed? && s.log[i].att == Some(r.att) && r.op.start <= s.log[i].at
    {
      assert GoodLine(s, i);
      assert GoodAttempt(s, s.log[i].att.value);
    }
    if r.op.outcome.Succeeded? {
      assert GoodAttempt(s, r.att);
      var i := s.attempts[r.att].stage.index;
      assert GoodLine(s, i) && ProposedBy(s, i, r.call);
    }
  }

  ghost predicate Grows(s: State, s': State) {
    s.log <= s'.log && s.hist <= s'.hist
  }

  lemma {:induction false} StepGrows(trace: seq<State>, actions: seq<Action>, k: nat)
    requires IsRun(trace, actions) && k + 1 < |trace|
    ensures Grows(trace[k], trace[k+1])
  {
    assert Next(trace[k], actions[k], trace[k+1]);
  }

  lemma {:induction false} GrowsOn(a: State, b: State, c: State)
    requires Grows(a, b) && Grows(b, c)
    ensures Grows(a, c)
  {
  }

  lemma {:induction false} GrowthAddsUp(trace: seq<State>, m: nat, n: nat)
    requires m <= n < |trace|
    requires forall k | m <= k < n :: Grows(trace[k], trace[k+1])
    ensures Grows(trace[m], trace[n])
  {
    if m == n {
    } else {
      GrowthAddsUp(trace, m, n - 1);
      assert Grows(trace[n-1], trace[n-1+1]);
      GrowsOn(trace[m], trace[n-1], trace[n]);
    }
  }

  // Whatever was committed or recorded stays: a call that was recorded as failed
  // never gets an entry later.
  lemma {:induction false} RunsOnlyGrow(trace: seq<State>, actions: seq<Action>, m: nat, n: nat)
    requires IsRun(trace, actions) && m <= n < |trace|
    ensures Grows(trace[m], trace[n])
  {
    forall k | m <= k < n ensures Grows(trace[k], trace[k+1]) {
      StepGrows(trace, actions, k);
    }
    GrowthAddsUp(trace, m, n);
  }

  // Replica invariant: whatever was committed, applied, snapshotted, crashed,
  // restored and replayed, a node's map is the fold of the log prefix it has
  // applied; nodes with equal applied index hold equal data.
  lemma {:induction false} ReplicasFollowLog(trace: seq<State>, actions: seq<Action>, n: nat, a: string, b: string)
    requires IsRun(trace, actions) && n < |trace|
    requires a in trace[n].replicas && b in trace[n].replicas
    ensures var s := trace[n];
            && s.replicas[a].applied <= |s.log|
            && s.replicas[a].data == Replay(s.base, Entries(s.log)[..s.replicas[a].applied])
            && (s.replicas[a].applied == s.replicas[b].applied ==> s.replicas[a].data == s.replicas[b].data)
  {
    RunInv(trace, actions, n);
    var s := trace[n];
    assert GoodReplica(s.base, s.log, s.replicas[a]) && GoodReplica(s.base, s.log, s.replicas[b]);
  }

  // In every run an acknowledged write lasts and later reads see it or a later
  // entry, in flight calls or not.
  lemma {:induction false} AcknowledgedWritesLast(trace: seq<State>, actions: seq<Action>, n: nat, ox: nat, og: nat)
    returns (ix: nat, ig: nat, l: nat)
    requires IsRun(trace, actions) && n < |trace|
    requires ox < |trace[n].hist| && og < |trace[n].hist|
    requires var x, g := trace[n].hist[ox].op, trace[n].hist[og].op;
             && x.outcome.Succeeded? && (x.op.Put? || x.op.Delete?)
             && g.outcome.Succeeded? && g.op.Get?
             && x.key == g.key && x.end < g.start
    ensures var s := trace[n];
            && ix <= l < ig < |s.log|
            && s.log[ix].att == Some(s.hist[ox].att) && s.log[ig].att == Some(s.hist[og].att)
            && Writes(s.base, Entries(s.log), l, s.hist[og].op.key)
            && ReadValue(s.hist[og].op) == Written(s.log[l].entry.cmd)
  {
    var s := trace[n];
    RunBalanced(trace, actions, n);
    assert EntriesOf(LinesOf(s)) == Entries(s.log);
    ix, ig, l := ReadsSeeAcknowledged(s.base, LinesOf(s), Ops(s.hist), ox, og);
    OwnerIsFinal(s, ix, ox);
    OwnerIsFinal(s, ig, og);
  }

  // What a client remembers after an acknowledged operation was the key's value
  // right after that operation's entry.
  lemma {:induction false} ClientViewsArePast(trace: seq<State>, actions: seq<Action>, n: nat, o: nat) returns (i: nat)
    requires IsRun(trace, actions) && n < |trace|
    requires o < |trace[n].hist| && trace[n].hist[o].op.outcome.Succeeded?
    ensures var s, x := trace[n], trace[n].hist[o].op;
            && i < |s.log| && s.log[i].att == Some(s.hist[o].att)
            && Seen(x) == Lookup(Replay(s.base, Entries(s.log)[..i+1]), x.key)
  {
    var s := trace[n];
    RunBalanced(trace, actions, n);
    assert GoodRecord(s, o);
    assert EntriesOf(LinesOf(s)) == Entries(s.log);
    i := ViewIsPastState(s.base, LinesOf(s), Ops(s.hist), o);
    OwnerIsFinal(s, i, o);
  }

  // In every run an acknowledged answer tells the truth about the key as it was
  // right before the operation's own entry: for a delete, whether the key existed.
  lemma {:induction false} AcknowledgedAnswersTell(trace: seq<State>, actions: seq<Action>, n: nat, o: nat) returns (i: nat)
    requires IsRun(trace, actions) && n < |trace|
    requires o < |trace[n].hist| && trace[n].hist[o].op.outcome.Succeeded?
    ensures var s, x := trace[n], trace[n].hist[o].op;
            && i < |s.log| && s.log[i].att == Some(s.hist[o].att)
            && s.log[i].entry == Cmd(CommandOf(x))
            && Tells(Result(x.ok, x.present, x.retVal), CommandOf(x), Lookup(Replay(s.base, Entries(s.log)[..i]), x.key))
  {
    var s, x := trace[n], trace[n].hist[o].op;
    RunBalanced(trace, actions, n);
    assert GoodRecord(s, o);
    assert EntriesOf(LinesOf(s)) == Entries(s.log);
    i := LineOf(s.base, LinesOf(s), Ops(s.hist), o);
    OwnerIsFinal(s, i, o);
    AnswersTell(Replay(s.base, Entries(s.log)[..i]), CommandOf(x));
  }
}
