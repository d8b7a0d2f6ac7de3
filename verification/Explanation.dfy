// What acceptance means: the checker accepts a history exactly when one log of
// commands, replayed by the store itself, explains every answer.
module Explanation {
  import opened Wrappers
  import opened Kv
  import opened History
  import opened Checker
  import opened Linearizability
  import opened Locality
  import opened Horizons
  import opened Ambiguity

  // w lists every acknowledged record of h, some of the unanswered ones and no
  // failed one, each as often as it was recorded at most.
  ghost predicate Covers(w: seq<Op>, h: seq<Op>) {
    && multiset(w) <= multiset(h)
    && (forall x | x in multiset(h) - multiset(w) :: !x.outcome.Succeeded?)
    && (forall x | x in w :: !x.outcome.Failed?)
  }

  // No record stands before one that was acknowledged before it was invoked.
  ghost predicate InRealTime(w: seq<Op>) {
    w == [] ||
    (InRealTime(w[..|w|-1]) && (w[|w|-1].outcome.Succeeded? ==> NoneStartsAfter(w[|w|-1].end, w[..|w|-1])))
  }

  ghost predicate NoneStartsAfter(t: int, w: seq<Op>) {
    forall y | y in w :: y.start <= t
  }

  // The store, started from m and given the commands of w one after the other,
  // gives every acknowledged record its recorded answer.
  ghost predicate Answers(m: Store, w: seq<Op>) {
    w == [] ||
    var front, x := w[..|w|-1], w[|w|-1];
    && Answers(m, front)
    && (x.outcome.Succeeded? ==> Agrees(x, Respond(Replay(m, Proposals(front)), CommandOf(x))))
  }

  // One more record at the end of an explanation.
  lemma {:induction false} ExplanationSnoc(m: Store, w: seq<Op>, x: Op)
    ensures InRealTime(w + [x]) <==>
            InRealTime(w) && (x.outcome.Succeeded? ==> NoneStartsAfter(x.end, w))
    ensures Answers(m, w + [x]) <==>
            Answers(m, w) && (x.outcome.Succeeded? ==> Agrees(x, Respond(Replay(m, Proposals(w)), CommandOf(x))))
  {
    assert (w + [x])[..|w|] == w;
  }

  ghost predicate Explains(w: seq<Op>, h: seq<Op>) {
    Covers(w, h) && InRealTime(w) && Answers(map[], w)
  }

  // Step on a checked record is Apply on its command: it accepts exactly the
  // answers that agree with the store's, and leaves the store as Apply does.
  lemma {:induction false} StepIsApply(m: Store, x: Op, horizon: int)
    requires x.op.Declared() && !x.outcome.Undeclared? && !Dropped(x)
    ensures StoreStep(m, ToOperation(x, horizon)) ==
            if x.outcome.Succeeded? && !Agrees(x, Respond(m, CommandOf(x))) then None
            else Some(After(m, CommandOf(x)))
  {
    assert WithRegister(m, x.key, Register(m, x.key)) == m;
  }

  lemma {:induction false} ProposalsSnoc(m: Store, w: seq<Op>, x: Op)
    ensures Replay(m, Proposals(w + [x])) == After(Replay(m, Proposals(w)), CommandOf(x))
  {
    assert Proposals(w + [x]) == Proposals(w) + [Cmd(CommandOf(x))];
    ReplaySnoc(m, Proposals(w), Cmd(CommandOf(x)));
  }

  // ----- From an explanation to acceptance -----

  lemma {:induction false} AnswersRun(m: Store, w: seq<Op>, horizon: int)
    requires Declared(w) && Answers(m, w) && forall x | x in w :: !x.outcome.Failed?
    ensures StoreRun(m, Image(w, horizon)) == Some(Replay(m, Proposals(w)))
  {
    if w == [] {
    } else {
      var front, x := w[..|w|-1], w[|w|-1];
      FrontLast(w);
      assert x in w;
      AnswersRun(m, front, horizon);
      ProposalsSnoc(m, front, x);
      ImageSnoc(front, x, horizon);
      if !Dropped(x) {
        StoreRunSnoc(m, Image(front, horizon), ToOperation(x, horizon));
        StepIsApply(Replay(m, Proposals(front)), x, horizon);
      }
    }
  }

  lemma {:induction false} ImageCalls(w: seq<Op>, horizon: int, t: int)
    requires NoneStartsAfter(t, w)
    ensures forall o | o in Image(w, horizon) :: o.call <= t
  {
    if w == [] {
    } else {
      ImageCalls(w[..|w|-1], horizon, t);
    }
  }

  lemma {:induction false} RealTimeInOrder(w: seq<Op>, horizon: int)
    requires InRealTime(w) && NoneStartsAfter(horizon, w)
    ensures InOrder(Image(w, horizon))
  {
    if w == [] {
    } else {
      var front, x := w[..|w|-1], w[|w|-1];
      FrontLast(w);
      RealTimeInOrder(front, horizon);
      if !Dropped(x) {
        ImageCalls(front, horizon, if x.outcome.Succeeded? then x.end else horizon);
        InOrderSnoc(Image(front, horizon), ToOperation(x, horizon));
      }
    }
  }

  // Unanswered mutations put at the end are always accepted.
  lemma {:induction false} OpenTail(s: seq<Operation>, h: seq<Op>, horizon: int)
    requires Declared(h) && NoneStartsAfter(horizon, h)
    requires forall x | x in h :: !x.outcome.Succeeded?
    requires forall o | o in s :: o.call <= horizon
    requires Ambiguity.Explained(s)
    ensures Ambiguity.Explained(s + Image(h, horizon))
  {
    if h == [] {
      assert s + Image(h, horizon) == s;
    } else {
      var front, x := h[..|h|-1], h[|h|-1];
      FrontLast(h);
      assert x in h;
      OpenTail(s, front, horizon);
      ImageCalls(front, horizon, horizon);
      if Dropped(x) {
        assert Image(h, horizon) == Image(front, horizon);
      } else {
        var t, o := s + Image(front, horizon), ToOperation(x, horizon);
        assert s + Image(h, horizon) == t + [o];
        InOrderSnoc(t, o);
        StoreRunSnoc(map[], t, o);
        OpenStep(StoreRun(map[], t).value, o);
      }
    }
  }

  lemma {:induction false} ImageConcat(a: seq<Op>, b: seq<Op>, horizon: int)
    ensures Image(a + b, horizon) == Image(a, horizon) + Image(b, horizon)
  {
    if b == [] {
      assert a + b == a;
    } else {
      assert (a + b)[..|a + b| - 1] == a + b[..|b| - 1];
      ImageConcat(a, b[..|b| - 1], horizon);
    }
  }

  // What is checked of a record that stands in the middle of a history.
  lemma {:induction false} ImageMiddle(a: seq<Op>, x: Op, b: seq<Op>, horizon: int)
    ensures multiset(Image(a + [x] + b, horizon)) ==
            multiset(Image(a + b, horizon)) +
            if Dropped(x) then multiset{} else multiset{ToOperation(x, horizon)}
  {
    ImageConcat(a + [x], b, horizon);
    ImageSnoc(a, x, horizon);
    ImageConcat(a, b, horizon);
  }

  // What is checked does not depend on the order of the records.
  lemma {:induction false} ImagePermuted(a: seq<Op>, b: seq<Op>, horizon: int)
    requires multiset(a) == multiset(b)
    ensures multiset(Image(a, horizon)) == multiset(Image(b, horizon))
  {
    if a == [] {
      assert |multiset(b)| == 0;
    } else {
      var front, x := a[..|a|-1], a[|a|-1];
      FrontLast(a);
      var c, d := SplitAt(b, multiset(front), x);
      ImagePermuted(front, c + d, horizon);
      ImageMiddle(c, x, d, horizon);
    }
  }

  lemma {:induction false} Enumerate<T>(m: multiset<T>) returns (s: seq<T>)
    ensures multiset(s) == m
    decreases |m|
  {
    if m == multiset{} {
      s := [];
    } else {
      var x :| x in m;
      var s' := Enumerate(m - multiset{x});
      s := s' + [x];
    }
  }

  // The records that an explanation leaves out, in some order.
  lemma {:induction false} LeftOver(w: seq<Op>, h: seq<Op>) returns (rest: seq<Op>)
    requires Covers(w, h)
    ensures multiset(w + rest) == multiset(h)
    ensures forall x | x in w :: x in h
    ensures forall x | x in rest :: x in h && !x.outcome.Succeeded?
  {
    rest := Enumerate(multiset(h) - multiset(w));
    Subhistory(w, h);
    Subhistory(rest, h);
    forall x | x in rest ensures !x.outcome.Succeeded? {
      assert x in multiset(rest);
    }
  }

  lemma {:induction false} ExplainedIsAccepted(w: seq<Op>, h: seq<Op>, horizon: int)
    requires Declared(h) && NoneStartsAfter(horizon, h)
    requires Explains(w, h)
    ensures StoreLinearizable(multiset(Image(h, horizon)))
  {
    var rest := LeftOver(w, h);
    AnswersRun(map[], w, horizon);
    RealTimeInOrder(w, horizon);
    ImageCalls(w, horizon, horizon);
    OpenTail(Image(w, horizon), rest, horizon);
    ImageConcat(w, rest, horizon);
    ImagePermuted(w + rest, h, horizon);
    assert Orders(Image(w, horizon) + Image(rest, horizon), multiset(Image(h, horizon)));
  }

  lemma {:induction false} Subhistory(w: seq<Op>, h: seq<Op>)
    requires multiset(w) <= multiset(h)
    ensures forall x | x in w :: x in h
  {
    forall x | x in w ensures x in h {
      assert x in multiset(w);
      assert x in multiset(h);
    }
  }

  // ----- From acceptance to an explanation -----

  // A record whose image is o.
  lemma {:induction false} Preimage(h: seq<Op>, horizon: int, o: Operation) returns (x: Op)
    requires o in Image(h, horizon)
    ensures x in h && !Dropped(x) && ToOperation(x, horizon) == o
  {
    var front, last := h[..|h|-1], h[|h|-1];
    FrontLast(h);
    if !Dropped(last) && ToOperation(last, horizon) == o {
      x := last;
    } else {
      x := Preimage(front, horizon, o);
    }
  }

  // An order of the checked operations is the image of an order of the records.
  lemma {:induction false} Lift(h: seq<Op>, horizon: int, s: seq<Operation>) returns (w: seq<Op>, rest: multiset<Op>)
    requires multiset(s) == multiset(Image(h, horizon))
    ensures Image(w, horizon) == s
    ensures multiset(h) == multiset(w) + rest
    ensures forall x | x in w :: !Dropped(x)
    ensures forall x | x in rest :: Dropped(x)
    decreases |s|
  {
    if s == [] {
      w, rest := [], multiset(h);
      forall x | x in rest ensures Dropped(x) {
        NothingChecked(h, horizon, x);
      }
    } else {
      var front, o := s[..|s|-1], s[|s|-1];
      FrontLast(s);
      var h', x := Without(h, horizon, multiset(front), o);
      var w';
      w', rest := Lift(h', horizon, front);
      w := w' + [x];
      ImageSnoc(w', x, horizon);
    }
  }

  // A history without one record whose image is o.
  lemma {:induction false} Without(h: seq<Op>, horizon: int, others: multiset<Operation>, o: Operation)
    returns (h': seq<Op>, x: Op)
    requires multiset(Image(h, horizon)) == others + multiset{o}
    ensures !Dropped(x) && ToOperation(x, horizon) == o
    ensures multiset(h) == multiset(h') + multiset{x}
    ensures multiset(Image(h', horizon)) == others
  {
    assert o in multiset(Image(h, horizon));
    x := Preimage(h, horizon, o);
    var a, b := SplitAt(h, multiset(h) - multiset{x}, x);
    h' := a + b;
    ImageMiddle(a, x, b, horizon);
    assert multiset(Image(h', horizon)) == multiset(Image(h, horizon)) - multiset{o};
  }

  lemma {:induction false} NothingChecked(h: seq<Op>, horizon: int, x: Op)
    requires multiset(Image(h, horizon)) == multiset{} && x in h
    ensures Dropped(x)
  {
    FrontLast(h);
    if x == h[|h|-1] {
    } else {
      NothingChecked(h[..|h|-1], horizon, x);
    }
  }

  lemma {:induction false} RunAnswers(m: Store, w: seq<Op>, horizon: int)
    requires Declared(w) && forall x | x in w :: !Dropped(x)
    requires StoreRun(m, Image(w, horizon)).Some?
    ensures Answers(m, w) && StoreRun(m, Image(w, horizon)).value == Replay(m, Proposals(w))
  {
    if w == [] {
    } else {
      var front, x := w[..|w|-1], w[|w|-1];
      FrontLast(w);
      assert x in w;
      StoreRunSnoc(m, Image(front, horizon), ToOperation(x, horizon));
      RunAnswers(m, front, horizon);
      ProposalsSnoc(m, front, x);
      StepIsApply(Replay(m, Proposals(front)), x, horizon);
    }
  }

  lemma {:induction false} ImageHas(w: seq<Op>, horizon: int, x: Op)
    requires x in w && !Dropped(x)
    ensures ToOperation(x, horizon) in Image(w, horizon)
  {
    FrontLast(w);
    if x == w[|w|-1] {
    } else {
      ImageHas(w[..|w|-1], horizon, x);
    }
  }

  lemma {:induction false} InOrderRealTime(w: seq<Op>, horizon: int)
    requires InOrder(Image(w, horizon)) && forall x | x in w :: !Dropped(x)
    ensures InRealTime(w)
  {
    if w == [] {
    } else {
      var front, x := w[..|w|-1], w[|w|-1];
      FrontLast(w);
      InOrderSnoc(Image(front, horizon), ToOperation(x, horizon));
      InOrderRealTime(front, horizon);
      forall y | y in front && x.outcome.Succeeded? ensures y.start <= x.end {
        ImageHas(front, horizon, y);
      }
    }
  }

  lemma {:induction false} AcceptedIsExplained(h: seq<Op>, horizon: int) returns (w: seq<Op>)
    requires Declared(h)
    requires StoreLinearizable(multiset(Image(h, horizon)))
    ensures Explains(w, h)
  {
    var s :| Orders(s, multiset(Image(h, horizon))) && StoreRun(map[], s).Some?;
    var rest;
    w, rest := Lift(h, horizon, s);
    CoversRest(w, h, rest);
    InOrderRealTime(w, horizon);
    RunAnswers(map[], w, horizon);
  }

  // Leaving out what is not checked anyway.
  lemma {:induction false} CoversRest(w: seq<Op>, h: seq<Op>, rest: multiset<Op>)
    requires multiset(h) == multiset(w) + rest
    requires forall x | x in w :: !Dropped(x)
    requires forall x | x in rest :: Dropped(x)
    ensures Covers(w, h) && forall x | x in w :: x in h
  {
    Subhistory(w, h);
    assert multiset(h) - multiset(w) == rest;
  }

  ghost predicate Explainable(h: seq<Op>) {
    exists w :: Explains(w, h)
  }

  // Acceptance means explanation: the checker accepts a history if and only if
  // there is one log of its commands, respecting real time, that the store
  // replays from empty with every recorded answer. That acceptance implies an
  // explanation holds of every history; the converse needs a horizon that did not
  // wrap, or none to be used.
  lemma {:induction false} AcceptanceIsExplanation(h: seq<Op>)
    requires Declared(h) && Timely(h)
    ensures Accepts(Checkable(h)) ==> Explainable(h)
    ensures InRange(h) || NothingOpen(h) ==> (Accepts(Checkable(h)) <==> Explainable(h))
  {
    var horizon := Beyond(h);
    CheckedBeyond(h);
    BeyondTimes(h);
    LocalityHolds(Image(h, horizon));
    if Accepts(Image(h, horizon)) {
      var w := AcceptedIsExplained(h, horizon);
    } else if w :| Explains(w, h) {
      ExplainedIsAccepted(w, h, horizon);
    }
  }

  // ----- Whole logs, key by key -----

  // A log's commands as checked operations, answered by the store itself.
  function Transcript(m: Store, log: seq<Entry>): seq<Operation> {
    if log == [] then []
    else
      var front, e := log[..|log|-1], log[|log|-1];
      match e
      case NoOp => Transcript(m, front)
      case Cmd(c) =>
        match Respond(Replay(m, front), c)
        case Panic => Transcript(m, front)
        case Reply(r) =>
          Transcript(m, front) +
          [Operation(0, KvInput(c.op, c.key, c.value, c.expected), KvOutput(false, r.ok, r.present, r.value), |front|, |front|)]
  }

  // The checker's register accepts the store's own answer and moves with the store.
  lemma {:induction false} StepAcceptsAnswer(m: Store, o: Operation, c: Command)
    requires Respond(m, c).Reply? && o.input == KvInput(c.op, c.key, c.value, c.expected)
    requires var r := Respond(m, c).res; o.output == KvOutput(false, r.ok, r.present, r.value)
    ensures StoreStep(m, o) == Some(After(m, c))
  {
    assert WithRegister(m, c.key, Register(m, c.key)) == m;
  }

  lemma {:induction false} TranscriptRuns(m: Store, log: seq<Entry>)
    ensures StoreRun(m, Transcript(m, log)) == Some(Replay(m, log))
  {
    if log == [] {
    } else {
      var front, e := log[..|log|-1], log[|log|-1];
      TranscriptRuns(m, front);
      var st := Replay(m, front);
      if e.Cmd? && Respond(st, e.cmd).Reply? {
        var c, r := e.cmd, Respond(st, e.cmd).res;
        var o := Operation(0, KvInput(c.op, c.key, c.value, c.expected),
                           KvOutput(false, r.ok, r.present, r.value), |front|, |front|);
        StoreRunSnoc(m, Transcript(m, front), o);
        StepAcceptsAnswer(st, o, c);
      }
    }
  }

  // Per-key refinement: whatever the log, the register of each key accepts the
  // store's own answers to that key's entries and ends at the store's value.
  lemma {:induction false} RegisterFollowsStore(m: Store, log: seq<Entry>, k: string)
    ensures Run(Register(m, k), Restrict(Transcript(m, log), {k})) == Some(Register(Replay(m, log), k))
  {
    TranscriptRuns(m, log);
    RunOfKey(m, Transcript(m, log), k);
  }
}
