# Quorum: the store and its linearizability checker, verified

Quorum is a replicated key-value store built on hashicorp/raft, together with a
harness that records client histories under faults and checks them for
linearizability. This project models both sides as one system and proves that they
fit together: that the checker accepts exactly the histories the store can explain, as
long as its horizon does not wrap, and that no run of clients, nodes, forwarding, late commits, crashes and restarts
makes it raise a false alarm.

`dafny verify dfyconfig.toml` checks everything. Every lemma carries `{:induction false}`:
all inductions are written out.

## Layers

| file | what it models |
|---|---|
| `Kv.dfy` | commands, and what applying one does to the store; the meaning of a log is the fold of Apply |
| `Fsm.dfy` | the FSM object: a map that Apply updates in place, behind a reference; snapshots, Persist and Restore |
| `History.dfy`, `Checker.dfy` | recorded operations, the per-key register `Step`, `Partition`, `ToOperations` |
| `Linearizability.dfy`, `Locality.dfy` | linearizability defined directly (an order that respects real time and runs through `Step`), per key and over the whole store |
| `Horizons.dfy`, `Ambiguity.dfy`, `Explanation.dfy`, `Rejection.dfy` | what acceptance means: unanswered mutations and their horizon, explanation by one log, histories that must be rejected |
| `Limits.dfy` | where the verdict is not the right one, and exactly when: wrapped horizons, undeclared outcomes |
| `Check.dfy`, `Fixtures.dfy` | the verdict of `Check`, and the histories of the checker's own tests |
| `Clients.dfy`, `Server.dfy` | classification and retry loop of one operation; what a node does with a proposal |
| `Cluster.dfy`, `Invariant.dfy` | the system as a state machine over 17 kinds of steps, and the invariant every step keeps |
| `Ledger.dfy`, `Runs.dfy` | the relation between log and history that runs keep, and the theorems about all runs |
| `Quiescence.dfy`, `Lateness.dfy` | concrete runs: one rejected while a call is in flight, one with a crash, one with forwarding and a late commit |
| `Harness.dfy`, `Phases.dfy` | the verdicts of the reset, contention, durability and convergence phases, and why they are right in a run of phases that follow each other |
| `Json.dfy`, `Codec.dfy`, `Formats.dfy` | JSON printing and reading of commands and history files, and the formats themselves |

The main results are `Locality.LocalityHolds`, `Ambiguity.AmbiguityIsExact`,
`Explanation.AcceptanceIsExplanation`, `Limits.RangeIsExact`, `Limits.UnclassifiedIsSafe`,
`Rejection.StaleReadsAreRejected`, `Runs.NoFalseAlarms`, `Runs.AtMostOnce`,
`Runs.OutcomeTells`, `Runs.ReplicasFollowLog`, `Runs.AcknowledgedWritesLast`,
`Phases.HarnessRunsAreAccepted`, `Phases.ContentionInEveryRun`,
`Phases.AcknowledgedPutIsReadBack`, `Fsm.Recover` and `Codec.ReadUndoesWrite`.

## Assumptions

- Raft is an interface: there is one append-only committed log of commands and
  no-ops. A proposal answered with `ErrNotLeader` or `ErrLeadershipTransferInProgress`
  never enters it; one answered with any other error may enter it later, any number of
  steps after its client has moved on; one answered without error has been applied by
  the answering node at its own log position, and the answer is that FSM's.
- Errors that the client counts as "definitely not sent" mean that no server got the request.
- Timestamps come from one clock that does not go back and stays below the last int64.
- The initial store (`base`) stands for whatever earlier runs left on the volumes.

## Findings

- `ToOperations` computes its horizon with a wrapping int64 addition. What is accepted can
  always be explained. The converse holds if no timestamp is the last int64 or no mutation
  is unanswered (`Explanation.AcceptanceIsExplanation`). With an unanswered mutation it
  holds for all histories that end at a given time if and only if that time is not the last
  int64 (`Limits.RangeIsExact`); beyond it, `Limits.WrappedHorizonRejects` and
  `Limits.UndecidedAtTheEnd` give explainable histories that are rejected.
- The comment on the default branch of `ToOperations` says that an unclassified record
  is treated as an unknown mutation "to be safe". `Limits.UnclassifiedIsSafe` shows that
  such a record never gets an accepted history rejected if and only if it is a mutation:
  an unclassified get becomes the claim that its key was absent.
- The final check must wait for calls whose entry is committed:
  `Quiescence.QuiescenceIsNeeded` is a run whose history is rejected while such a call is
  in flight and accepted one step later. Other calls in flight do no harm
  (`Runs.SettledRunsAreAccepted`); waiting for all clients covers both.
- The comment on the contention verdict expects exactly one winner when nothing was
  ambiguous. `Harness.ContentionVerdictIsRight` adds the condition: a round in which
  every contender definitely failed does not pass.
- The convergence test reads a node's applied index before its map.
  `Harness.ConvergenceTestIsRight` says what it decides if entries are applied in between:
  equal indexes, and equal maps that are folds of possibly other prefixes.

## Model

| member | source | states |
|---|---|---|
| Kv.ReplayConcat | internal/kv/fsm.go:56-84 | Replaying a log equals replaying any prefix and then the rest from the state reached: what snapshots rely on. |
| Kv.AfterIsLocal | internal/kv/fsm.go:30-54 | A command leaves every other key's presence and value alone. |
| Kv.OnlyItsKey | internal/kv/fsm.go:30-54 | A command's answer and its effect on its key depend on that key alone. |
| Kv.Established | internal/kv/fsm.go:43-50 | If an expectation fails at one log position and holds at a later one, an entry in between established it by taking effect. |
| Kv.WinnersAreSeparated | internal/kv/fsm.go:43-50 | Between two winning cas on a key with one expectation, the first writing something else, some entry re-established the expected value (a delete for expect-absent). |
| Kv.LastWrite | internal/kv/fsm.go:32-50 | At every log position a key holds what the last put, delete or winning cas on it left, or its initial value if there is none. |
| Kv.AnswersTell | internal/kv/command.go:25-30 | Of every answer in terms of what the key held before: only a cas is ever refused, exactly if the key does not hold what it expects; gets, deletes and lost cas report whether the key existed; gets and lost cas its value. |
| Kv.OnlyDeclaredAnswer | internal/kv/fsm.go:51-53 | An op panics, and changes nothing, if and only if it is not one of the four. |
| Kv.DeleteReportsAsGet | internal/kv/fsm.go:36-42 | A delete reports the presence that a get in its place would report. |
| Kv.DeleteReports | internal/kv/fsm.go:39-42 | In every log a delete reports that the key existed if and only if the last entry before it that set the key was a put or winning cas, or there was none and the initial store held the key. |
| Checker.Partition | internal/checker/checker.go:52-63 | Returns one group per key that occurs, in arbitrary order of keys, each the subsequence of that key's operations in their order. |
| Checker.ToOperations | internal/checker/checker.go:130-178 | One operation for each record that is neither failed nor an unanswered get, in order, with that record's client, call and input; answered ones keep their output and return, all others are open until the horizon. |
| Checker.MaxEndIsLatest | internal/checker/checker.go:131-139 | The first loop finds the latest timestamp, or 0 if none is positive. |
| Checker.HorizonIsPastEverything | internal/checker/checker.go:131-140 | The horizon is later than every timestamp if and only if no timestamp is the last int64. |
| Linearizability.InOrderPairwise | internal/checker/checker.go:4-9 | The order that is built up one operation at a time is the real-time order: no operation stands before one whose response came before its call. |
| Locality.RunOfKey | internal/checker/checker.go:51-95 | A run of the whole store, restricted to one key, is a run of that key's register and ends at the store's value. |
| Locality.RejectedKey | internal/checker/checker.go:51-95 | If the whole store rejects an order, the register of some key rejects its part of it. |
| Locality.Interleave | internal/checker/checker.go:52-63 | Admissible orders of operations on disjoint sets of keys can be merged into one admissible order that keeps both, if each operation was invoked before it returned. |
| Locality.LocalityHolds | internal/checker/checker.go:52-63 | A multi-key history whose operations return after they are called is linearizable against the whole map if and only if every key's group is linearizable against the single register. |
| Locality.PartitionDecides | internal/checker/checker.go:52-63 | Whatever order the groups come out in, all of them are linearizable if and only if every key is. |
| Ambiguity.OpenStep | internal/checker/checker.go:70-91 | Step on an unanswered mutation does what the applied mutation does where that is possible and otherwise changes nothing. |
| Ambiguity.OneOpen | internal/checker/checker.go:142-157 | One unanswered mutation with its stretched window: linearizable if and only if the rest is, either without the mutation or with it applied. |
| Ambiguity.AmbiguityIsExact | internal/checker/checker.go:130-165 | If a history is accepted, some subset of its unanswered mutations can be taken as applied and the others erased so that the remainder is linearizable; conversely too if no timestamp is the last int64 or no mutation is unanswered. Failed records and unanswered gets play no part. |
| Explanation.StepIsApply | internal/checker/checker.go:65-95 | On a checked record Step accepts exactly the answers that agree with the FSM's on the fields it reads, and moves the key as Apply moves it. |
| Explanation.AcceptanceIsExplanation | internal/checker/checker.go:51-96 | Every accepted history has one log of its commands, respecting real time, with every acknowledged record and some of the unanswered ones, that replayed from the empty store gives every recorded answer; and every history that has one is accepted, if no timestamp is the last int64 or no mutation is unanswered. |
| Explanation.TranscriptRuns | internal/kv/fsm.go:24-54 | Step accepts the FSM's own answers to any log, and ends in the FSM's state. |
| Explanation.RegisterFollowsStore | internal/checker/checker.go:43-95 | For every log and key, the register run over that key's entries with the FSM's answers is accepted and ends at the key's value. |
| Horizons.LaterHorizonAccepts | internal/checker/checker.go:147-157 | Whatever is accepted with one horizon is accepted with every later one. |
| Horizons.CheckedBeyond | internal/checker/checker.go:140-165 | Acceptance with the computed horizon implies acceptance with the horizon that does not wrap; the checked operations are the same if no timestamp is the last int64 or no mutation is unanswered. |
| Limits.WrappedHorizonRejects | internal/checker/checker.go:140 | An unanswered put and a later get of its key that found nothing and ended at the last int64: explainable and rejected. |
| Limits.TwoUnansweredAreRejected | internal/checker/checker.go:140-157 | Once the horizon wrapped, every history with unanswered mutations of one key from two clients, invoked after the first int64, is rejected. |
| Limits.UndecidedAtTheEnd | internal/checker/checker.go:140-157 | For every unanswered mutation invoked after the first int64 there is an explainable history with it, ending at the last int64, that is rejected. |
| Limits.RangeIsExact | internal/checker/checker.go:131-157 | For every unanswered mutation invoked after the first int64 and every time t from 0: all histories that hold it and end at t are accepted exactly if they are explainable, if and only if t is not the last int64. |
| Limits.UnclassifiedIsSafe | internal/checker/checker.go:166-174 | For a record with an undeclared outcome and timestamps inside the int64 range: adding it anywhere in a history keeps every accepted history accepted if and only if the record is a mutation. |
| Rejection.ExplainedIsNotStale | internal/checker/checker.go:65-95 | In an explained history every observed state, value or absence, comes from a record that may have left it, was not invoked after the observer ended, and has no acknowledged overwrite (put, delete, winning cas) between it and the observer; absence may also be the initial state if nothing overwrote it before. |
| Rejection.StaleReadsAreRejected | internal/checker/checker_test.go:20-47 | If every record that could have left an observed state starts after the observer ended or is followed by an acknowledged overwrite wholly between them, the history is rejected; observers are gets, of a value or of absence, and winning cas. |
| Rejection.Reestablished | internal/checker/checker.go:80-91 | In an explanation, between two winners with one expectation stands a record that may have re-established the value, and it does not lie wholly before or after both. |
| Rejection.DoubleWinnersAreRejected | internal/checker/checker_test.go:49-61 | Two cas winners from one expectation are rejected unless a record able to re-establish the value is not wholly outside their windows. |
| Rejection.UndeclaredOpIsRejected | internal/checker/checker.go:92-93 | Every history with a record of an undeclared op that did not fail is rejected. |
| Check.Verdict | internal/checker/checker.go:190-198 | The verdict is what the search says of the checked operations grouped by key: linearizable exactly on Ok, timed out exactly on a timeout. With a search that is right whenever it decides, "linearizable" is never wrong, and with one that never times out the verdict is exact. Ops is the number of checked operations. |
| Fixtures.KnownBadIsRejected | internal/checker/checker_test.go:20-27 | A read of a value strictly after its acknowledged overwrite is rejected. |
| Fixtures.KnownGoodIsAccepted | internal/checker/checker_test.go:29-34 | The known-good history, with overlapping reads, a lost cas, a delete and an unanswered put, is accepted. |
| Fixtures.ImpossibleCasIsRejected | internal/checker/checker_test.go:36-47 | A cas that won expecting a value nobody wrote is rejected. |
| Fixtures.DoubleWinnerIsRejected | internal/checker/checker_test.go:49-61 | Two overlapping cas winners from one base value are rejected. |
| Fixtures.UnknownWriteMayVanish | internal/checker/checker_test.go:63-74 | An unanswered write that never became visible does not fail the check. |
| Clients.Classify | internal/harness/client.go:113-165 | An exchange counts as failed if and only if it is an error from before sending or one of the three rejections that promise "not applied", and as ok if and only if it is a 200 with a readable body, whose result it carries. |
| Clients.Client.Invoke | internal/harness/client.go:167-213 | Attempt i goes to the pinned node or to Nodes[(start+i) % len(Nodes)]; it is followed by another one if and only if it promises "not applied", the call is not pinned and the deadline has not passed; exactly one record is appended, with the final attempt's node and times, failed, ok or unknown as its exchange says, and all else as given; lastSeen moves only on success; at most floor(D/150ms)+2 attempts, one if pinned. |
| Clients.Client.NoteSeen | internal/harness/client.go:217-242 | lastSeen of the key becomes the value that the operation's answer shows, for each op kind; an undeclared kind changes nothing. |
| Clients.PacedFrom | internal/harness/client.go:205-210 | If each backoff takes at least 150 ms, the deadline check after attempt i comes at least i times 150 ms after the start. |
| Clients.RotationIsFair | internal/harness/client.go:173-181 | Among any len(Nodes) consecutive unpinned attempts of one call, from whichever attempt on, each node is the target, and of exactly one attempt if no node is listed twice. |
| Server.LeaderHTTPURL | internal/server/node.go:137-148 | The URL of the first peer with the believed leader's id; "" if no leader is known, it is the node itself, or it is no peer. |
| Server.Request.ProxyOrReject | internal/server/http.go:146-175 | A request that allows proxying and was not forwarded before is forwarded to the URL of the first peer with the believed leader's id, if there is one, not empty and parsing, and is marked then; otherwise it is answered not_leader, no_leader or internal, as the reason is. |
| Server.Request.Apply | internal/server/http.go:123-144 | The FSM's result if there is no error; forwarding or rejection as above on both refusals by raft; the ambiguous apply_failed on any other error. The forward mark is set exactly when the request is forwarded. |
| Server.DefiniteMeansRefused | internal/server/http.go:20-28 | A node's own answer is classified as a definite failure only if raft never took the proposal, and as a success exactly if the entry was applied. |
| Server.RefusedMeansDefinite | internal/server/http.go:136-155 | Conversely a refusal by raft is forwarded or told as a definite failure, if only the leader's URL parses; so is bad_request. |
| Cluster.FinishIsInvoke | internal/harness/client.go:187-210 | The state machine ends an attempt as Invoke does: an unpinned call that is not late goes on in 150 ms after an answer that promises "not applied"; anything else ends it with one record that says what the answer says. |
| Cluster.FinishIsPossible | internal/harness/client.go:187-210 | For every answer that step exists. |
| Invariant.NextInv | internal/harness/client.go:167-213 | Every one of the 17 kinds of steps of clients, nodes, raft and replicas keeps the system invariant. |
| Invariant.RunInv | internal/server/http.go:121-175 | Every state of every run satisfies it. |
| Invariant.FinishKeeps | internal/harness/client.go:187-210 | Recording or retrying an attempt is right: what is recorded tells the truth about the attempt's entry, and a retry follows only an attempt that never takes effect. |
| Invariant.AttemptStep | internal/server/http.go:123-175 | Proposing, refusing, forwarding, failing and timing out keep the invariant. |
| Invariant.CommitStep | internal/server/http.go:140-143 | A commit keeps it, even long after the node gave up on the proposal. |
| Invariant.ApplyStep | internal/kv/fsm.go:23-54 | Applying the next entry at a node, and answering from its FSM if its handler waits, keeps it. |
| Invariant.CrashStep | internal/kv/fsm.go:68-84 | Losing a node's map and handlers and starting again from its snapshot keeps it. |
| Ledger.PickLeaves | internal/checker/checker.go:143-176 | The records of distinct positions are a sub-multiset of the history, and all others stand at positions not picked. |
| Ledger.SameAfterReset | internal/harness/run.go:179-201 | From any initial map, a key that is deleted by the log, or was absent, has the same value as in a replay from the empty store. |
| Ledger.LogOrderAnswers | internal/checker/checker.go:51-96 | The records of a settled log in log order respect real time and get their recorded answers from the empty store. |
| Ledger.LedgerExplains | internal/checker/checker.go:51-96 | A log and a history that keep balanced books, with no command in flight, yield an explanation of the history. |
| Ledger.ReadsSeeAcknowledged | internal/kv/fsm.go:32-50 | An acknowledged get invoked after an acknowledged put or delete on its key ended returns that entry's effect or a later one's. |
| Ledger.ViewIsPastState | internal/harness/client.go:217-242 | What noteSeen remembers is the key's value right after the operation's own entry, also for a lost cas. |
| Runs.InvBalanced | internal/harness/client.go:167-213 | In every reachable state log and history keep balanced books: each entry whose call is recorded stands for that record, and each acknowledged record has its entry. |
| Runs.SettledRunsAreAccepted | internal/harness/run.go:515-520 | In every run from an empty store, whenever every committed command has its record the history is accepted. |
| Runs.NoFalseAlarms | internal/harness/run.go:458-459 | In every run from an empty store, whenever no call is in flight the recorded history is accepted. |
| Runs.ResetRunsAreAccepted | internal/harness/run.go:179-201 | The same from any store whose used keys are deleted by the log before use. |
| Runs.ResetRemovesResidue | internal/harness/run.go:179-201 | The same when the history itself shows an acknowledged delete strictly before every other use of a key the store held. |
| Runs.AtMostOnce | internal/harness/client.go:139-213 | Over all retries and forwarding, with any leader beliefs, a call has at most one entry in the log and no attempt is forwarded twice. |
| Runs.OutcomeTells | internal/harness/client.go:187-210 | A failed call has no entry; an acknowledged one has its entry, committed inside the final attempt's window; an unknown one's entry, if any, comes from its final attempt and is not older. |
| Runs.RunsOnlyGrow | internal/server/http.go:123-144 | Committed entries and records are never changed or lost in later states. |
| Runs.ReplicasFollowLog | internal/kv/fsm.go:24-96 | Under any schedule of commit, apply, snapshot, crash, restore and replay a node's map is the fold of its applied prefix; equal applied indexes mean equal data. |
| Runs.AcknowledgedWritesLast | internal/server/http.go:121-144 | In every run an ok get invoked after an acknowledged put or delete returns that op's effect or a later entry's. |
| Runs.ClientViewsArePast | internal/harness/client.go:215-242 | In every run what a client remembers after an ok op was the key's value right after that op's entry. |
| Runs.AcknowledgedAnswersTell | internal/kv/fsm.go:32-50 | In every run an ok op's recorded ok, present and value tell the truth about its key right before its own entry; an ok delete's present is whether the key existed. |
| Quiescence.QuiescenceIsNeeded | internal/harness/run.go:458-459 | There is a run whose history is rejected while a call is in flight and accepted once that call is recorded. |
| Quiescence.CrashAndReplay | internal/kv/fsm.go:68-84 | There is a run in which a node crashes, loses its map, and gets the same map back from its snapshot and the log. |
| Lateness.UnknownMayCommitLate | internal/server/http.go:136-143 | There is a run in which a forwarded put is recorded as unknown and is committed after its client has moved on and no call is in flight. |
| Harness.Runner.KeysToReset | internal/harness/run.go:184-190 | The two loops build the fixed, the numbered workload and the iteration keys in order. |
| Harness.ResetCoversUse | internal/harness/run.go:179-190 | A key is reset if and only if a later phase uses it. |
| Harness.ResetKeysAt | internal/harness/run.go:184-190 | The reset's keys by position: the three fixed ones, k0 up to k(NumKeys-1), then durable-i and cas-arena-i in turn. |
| Harness.CountFailedIs | internal/harness/run.go:192-198 | The count of failures is the number of records that were not acknowledged. |
| Harness.Runner.PhaseReset | internal/harness/run.go:183-201 | Appends one delete record of client 999 for each key, in order, failed only after 20 s, and one check that passes if and only if all of them were acknowledged, with the two counts in its detail. |
| Harness.Runner.Check | internal/harness/run.go:98-101 | Appends exactly the given check to the report. |
| Phases.PassedResetIsEnough | internal/harness/run.go:179-201 | In every run: if the reset's records were all acknowledged and held all there was when it ended, and every key that the store held and that is used later is among its keys, the final history is accepted, whatever the timestamps. |
| Phases.HarnessRunsAreAccepted | internal/harness/run.go:177-201 | In every run of the harness from any store, with a passed reset and phases that use their keys only, the final history is accepted once all clients have returned. |
| Phases.PastRecord | internal/harness/run.go:85-94 | What was acknowledged when no call was in flight was committed by then, and stays where it is. |
| Phases.PastIsOver | internal/harness/run.go:85-94 | An operation that had ended without ambiguity when no call was in flight has no entry committed later. |
| Phases.FutureIsLater | internal/harness/run.go:85-94 | An operation recorded after a state without calls in flight has its entry after that state's log. |
| Phases.AcknowledgedPutIsReadBack | internal/harness/run.go:288-329 | In every run: after an acknowledged put of a key that nothing else may set, a following get passes the durability verdict if and only if it is answered, whatever crashed in between. |
| Harness.ContentionVerdict | internal/harness/run.go:263-278 | For whatever results: the round passes if and only if no two contenders won and some contender won or is ambiguous. |
| Harness.RoundOkMeans | internal/harness/run.go:272-275 | The same of the condition on the counts. |
| Harness.SingleWin | internal/harness/run.go:263-271 | If no two contenders both won, the win count is at most one. |
| Harness.AtMostOneWinner | internal/harness/run.go:230-282 | No two contenders of one contest win. |
| Harness.OneWins | internal/harness/run.go:230-282 | If no contender is ambiguous and one was answered, some contender won. |
| Harness.ContentionVerdictIsRight | internal/harness/run.go:272-278 | For any number of contenders the round passes if and only if some contender did not definitely fail. |
| Phases.ContentionInEveryRun | internal/harness/run.go:233-282 | The same in every run, with contenders that start when the put has returned and nothing else pending that may set the key; no assumption on timestamps. |
| Harness.ContentionByTimestamps | internal/harness/run.go:233-282 | The same in every run, with the contest read off the history and its timestamps alone. |
| Harness.Identical | internal/harness/run.go:494-499 | The chain of four comparisons decides whether three node states were fetched and are all equal. |
| Harness.ConvergenceTestIsRight | internal/harness/run.go:479-503 | In every run, with index and map of each of three nodes read one after the other at any times: the test passes if and only if the indexes are equal and the applied prefixes fold to equal maps; if no node applied anything between its two reads, if and only if they have applied equally many entries. |
| Fsm.FSM.Apply | internal/kv/fsm.go:24-54 | Decodes the entry, updates the map in place as the command's meaning says, and answers with what that tells of the key before; an undecodable entry or unknown op panics and changes nothing. |
| Fsm.FSM.Dump | internal/kv/fsm.go:58-66 | An equal map in a fresh object. |
| Fsm.FSM.Snapshot | internal/kv/fsm.go:69-71 | A snapshot whose map is equal and not aliased to the live one. |
| Fsm.FSM.Restore | internal/kv/fsm.go:74-84 | Replaces the map by the stream's if it parses, and otherwise leaves everything as it was. |
| Fsm.SnapshotRead | internal/kv/fsm.go:74-84 | Any flat object is read as a snapshot if and only if its values are texts or null; each key then holds what its last member says, and no other key is there. |
| Fsm.FSMSnapshot.Print | internal/kv/fsm.go:91 | What is printed reads back as the snapshot's map. |
| Fsm.FSMSnapshot.Persist | internal/kv/fsm.go:90-96 | Writes a text that reads back as the snapshot's map; cancels the sink if and only if it does not take all of it, and otherwise reports what closing it comes to. |
| Fsm.ApplyAll | internal/kv/fsm.go:23-54 | Applying encoded commands one by one folds their meaning over the map and gives the answers of the replay. |
| Fsm.Recover | internal/kv/fsm.go:56-96 | Entries applied between Snapshot and Persist do not reach the snapshot; if it was saved, restoring it in a new FSM and replaying them gives the same state and the same answers. |
| Fsm.RecoveryIsReplay | internal/kv/fsm.go:68-84 | Replaying from a snapshot at any position gives at each later position the state and answer that replaying everything gives. |
| Json.ReadShownChars | internal/kv/command.go:32-44 | Reading an escaped string gives the string back, whatever follows. |
| Json.ReadsShortEscapes | internal/kv/command.go:40-44 | Every two-character escape of section 7 of RFC 8259 is read. |
| Json.ReadsCode | internal/kv/command.go:40-44 | A four-digit code in either case is read as its character, if it is no surrogate. |
| Json.ReadsSurrogates | internal/kv/command.go:40-44 | A surrogate pair is read as its one character. |
| Json.RawControlIsRefused | internal/kv/command.go:40-44 | A raw control character in a string is an error. |
| Json.ReadPrintedInt | internal/history/history.go:28-29 | Reading a printed integer of any sign gives it back, if no digit follows. |
| Json.ReadShownObject | internal/kv/command.go:32-44 | Reading a printed flat object gives its members back in order, whatever follows. |
| Json.ShownMembersArePlain | internal/history/history.go:46-53 | What is printed holds no raw line break or other control character, and none of the characters that Go escapes for HTML. |
| Codec.DeclaredIsCanonical | internal/history/history.go:14-19 | The declared op kinds and outcomes are among the values that survive printing. |
| Formats.DeclaredNames | internal/history/history.go:14-24 | The texts of the declared op kinds and outcomes. |
| Codec.DecodeEncoded | internal/kv/command.go:32-44 | Decoding undoes encoding, with an absent expectation and an expected empty string kept apart. |
| Formats.EntryText | internal/kv/command.go:17-23 | The text of every log entry: op, key, a value that is not empty, and expect, null if absent, in this order. |
| Formats.EntryRead | internal/kv/command.go:40-44 | Any flat object decodes if and only if no known field has a value of the wrong type; the last member of a name counts, unknown names are skipped, null leaves texts as they are and clears expect. |
| Formats.TrailingTextIsRefused | internal/kv/command.go:40-44 | Text after the object is an error, of an entry and of a record. |
| Codec.ParsePrinted | internal/history/history.go:22-36 | Reading one record undoes printing it, with empty fields left out and restored. |
| Formats.RecordText | internal/history/history.go:22-36 | The text of every record: the twelve fields by name and order, without empty texts and an absent expectation. |
| Formats.RecordRead | internal/history/history.go:78-81 | Any flat object is a record if and only if no known field has a value of the wrong type or a number outside int64; its fields say what the last member of their name says, and are zero if there is none. |
| Codec.WriteFile | internal/history/history.go:39-56 | Leaves one printed record a line, in order, in the created file, or as much of it as fits; reports success if and only if the file was created and all of it fits. |
| Formats.FileIsLines | internal/history/history.go:46-54 | A file is each record's line and a line feed. |
| Formats.BytesAdd | internal/history/history.go:71 | The bytes of a line are those of its parts. |
| Formats.BytesOfCharacter | internal/history/history.go:71 | A character counts with its one to four bytes of UTF-8 (section 3 of RFC 3629). |
| Codec.Read | internal/history/history.go:68-85 | Skips empty lines, reads the others in order without a trailing carriage return, fails with no records and the line number at the first that does not parse, and stops with the records so far at a line over 16 MiB. |
| Formats.ReadFileLines | internal/history/history.go:73-83 | Whatever follows, lines under 16 MiB that hold a record or nothing, with a carriage return or not, give their records in order and are counted. |
| Formats.GoodFileIsRead | internal/history/history.go:68-85 | A file of such lines is read in full. |
| Formats.LastLineIsRead | internal/history/history.go:73-83 | A last line without a line break is read like the others. |
| Formats.BadLineIsNamed | internal/history/history.go:79-81 | The first line that is not a record gives an error with its number, blank lines counted, and no records. |
| Formats.LongLineEndsReading | internal/history/history.go:70-71 | A line of 16 MiB or more ends the reading with an error and the records before it. |
| Codec.ReadUndoesWrite | internal/history/history.go:38-85 | Reading what was written returns the same list, if every line fits the 16 MiB buffer. |

## Left out

- Raft (elections, leases, replication, storage): used through the interface above. Minority refusal and majority liveness depend on it and on real time.
- Porcupine's search, timeout and visualisation: linearizability is defined directly, the search is a parameter of `Check.Verdict`.
- HTTP transport, URL building, parsing and escaping, handler routing, retries inside Go's HTTP client and proxy: step outcomes of the state machine. Keys are arbitrary strings, since the cas route does not check them.
- Classification of network errors: taken as stated under Assumptions.
- Choice of node in the state machine: any node may be tried next unless the call is pinned, which allows more than rotation does; rotation is proved of `Invoke`. Clients may have several calls in flight there, and raft's answers go to any target.
- Equal timestamps: calls that meet at the same nanosecond are concurrent for the checker, so the theorems that go by timestamps (`Runs.ResetRemovesResidue`, `Harness.ContentionByTimestamps`, `Runs.AcknowledgedWritesLast`) ask for strictly ordered times; those of `Phases` do not.
- Clock values in the state machine and in records are unbounded integers; only the horizon's wrap-around and the range check of the JSON reader are modelled at 64 bits.
- The loops of the smoke, durability, minority and chaos phases around their operations, the random workload, fault injection (Docker, iptables), the self-test phase's file reading, the written report and logging. The order of phases appears as cuts in a run where no call is in flight.
- `ParsePeers`, `ParseNodes`, `NewNode`, the command mains, scripts, deployment files, `DescribeOperation`.
- Convergence: polling until a deadline is not modelled.
- Invalid UTF-8: strings are sequences of Unicode characters.
- JSON beyond what these programs write: insignificant white space, nested values, fractions and exponents, case-insensitive field names and a top-level null are refused by the model's reader.
- Persist prints the keys in any order where Go sorts them; reading does not depend on it.
- I/O errors other than a file that cannot be created or a write that does not fit, and the buffering of file writes; room is counted in characters.
- Locks: Apply, Dump and Recorder.add run one at a time in the model.
