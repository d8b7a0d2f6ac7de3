// internal/checker: the per-key register model and the translation of recorded
// histories into the operations that are checked against it.
module Checker {
  import opened Wrappers
  import opened Kv
  import opened History

  datatype KvInput = KvInput(op: OpKind, key: string, val: string, expected: Option<string>)
  datatype KvOutput = KvOutput(unknown: bool, ok: bool, present: bool, val: string)
  datatype KvState = KvState(present: bool, val: string)

  datatype Operation = Operation(client: int, input: KvInput, output: KvOutput, call: int, ret: int)

  const INIT := KvState(false, "")

  predicate StateMatches(st: KvState, expected: Option<string>) {
    match expected
    case None => !st.present
    case Some(v) => st.present && st.val == v
  }

  // The verdict on one operation and the state after it.
  function Step(st: KvState, input: KvInput, output: KvOutput): (bool, KvState) {
    match input.op
    case Put => (true, KvState(true, input.val))
    case Delete => (true, INIT)
    case Get => (output.present == st.present && (!st.present || output.val == st.val), st)
    case Cas =>
      var matches := StateMatches(st, input.expected);
      if output.unknown then
        (true, if matches then KvState(true, input.val) else st)
      else if output.ok then
        (matches, KvState(true, input.val))
      else
        (!matches, st)
    case Other(_) => (false, st)
  }

  // The operations on keys in `keys`, in order.
  function Restrict(ops: seq<Operation>, keys: set<string>): seq<Operation> {
    if ops == [] then []
    else
      var front, last := Restrict(ops[..|ops|-1], keys), ops[|ops|-1];
      if last.input.key in keys then front + [last] else front
  }

  lemma {:induction false} RestrictSnoc(s: seq<Operation>, o: Operation, keys: set<string>)
    ensures Restrict(s + [o], keys) ==
            if o.input.key in keys then Restrict(s, keys) + [o] else Restrict(s, keys)
  {
    assert (s + [o])[..|s|] == s;
  }

  lemma {:induction false} RestrictMembers(ops: seq<Operation>, keys: set<string>, o: Operation)
    ensures o in Restrict(ops, keys) <==> o in ops && o.input.key in keys
  {
    if ops == [] {
    } else {
      assert ops == ops[..|ops|-1] + [ops[|ops|-1]];
      RestrictMembers(ops[..|ops|-1], keys, o);
    }
  }

  // A key that does not occur has an empty group.
  lemma {:induction false} RestrictAbsent(ops: seq<Operation>, k: string)
    requires forall o | o in ops :: o.input.key != k
    ensures Restrict(ops, {k}) == []
  {
    if ops == [] {
    } else {
      RestrictAbsent(ops[..|ops|-1], k);
    }
  }

  // `parts` holds one group per key of `ops`, in some order of the keys; a group
  // keeps the order of its operations.
  ghost predicate IsPartition(ops: seq<Operation>, parts: seq<seq<Operation>>, keys: seq<string>) {
    && |parts| == |keys|
    && (forall i, j | 0 <= i < j < |keys| :: keys[i] != keys[j])
    && (forall k :: k in keys <==> exists o :: o in ops && o.input.key == k)
    && (forall i | 0 <= i < |parts| :: parts[i] == Restrict(ops, {keys[i]}))
  }

  method Partition(ops: seq<Operation>) returns (parts: seq<seq<Operation>>)
    ensures exists keys :: IsPartition(ops, parts, keys)
  {
    var byKey: map<string, seq<Operation>> := map[];
    for i := 0 to |ops|
      invariant forall k :: k in byKey <==> exists o :: o in ops[..i] && o.input.key == k
      invariant forall k | k in byKey :: byKey[k] == Restrict(ops[..i], {k})
    {
      var op := ops[i];
      var k := op.input.key;
      assert ops[..i + 1] == ops[..i] + [op];
      if k !in byKey {
        RestrictAbsent(ops[..i], k);
      }
      forall j: string {
        RestrictSnoc(ops[..i], op, {j});
      }
      byKey := byKey[k := (if k in byKey then byKey[k] else []) + [op]];
    }
    assert ops[..|ops|] == ops;
    parts := [];
    ghost var keys: seq<string> := [];
    var left := byKey.Keys;
    // Go ranges over a map in no particular order.
    while left != {}
      invariant |parts| == |keys|
      invariant left <= byKey.Keys
      invariant forall i, j | 0 <= i < j < |keys| :: keys[i] != keys[j]
      invariant forall k :: k in keys <==> k in byKey && k !in left
      invariant forall i | 0 <= i < |parts| :: parts[i] == Restrict(ops, {keys[i]})
      decreases left
    {
      var k :| k in left;
      parts := parts + [byKey[k]];
      keys := keys + [k];
      left := left - {k};
    }
    assert IsPartition(ops, parts, keys);
  }

  const MAX_INT64: int := 0x7fff_ffff_ffff_ffff
  const MIN_INT64: int := -0x8000_0000_0000_0000

  // One more on Go's int64, which wraps.
  function Inc64(x: int): int {
    if x == MAX_INT64 then MIN_INT64 else x + 1
  }

  function Max(a: int, b: int): int {
    if a < b then b else a
  }

  function MaxEnd(h: seq<Op>): int {
    if h == [] then 0
    else
      var x := h[|h|-1];
      Max(Max(MaxEnd(h[..|h|-1]), x.end), x.start)
  }

  lemma {:induction false} MaxEndSnoc(h: seq<Op>, x: Op)
    ensures MaxEnd(h + [x]) == Max(Max(MaxEnd(h), x.end), x.start)
  {
    assert (h + [x])[..|h|] == h;
  }

  // MaxEnd is the latest timestamp of the history, or 0 if none is positive.
  lemma {:induction false} MaxEndIsLatest(h: seq<Op>)
    ensures 0 <= MaxEnd(h)
    ensures forall x | x in h :: x.start <= MaxEnd(h) && x.end <= MaxEnd(h)
    ensures MaxEnd(h) == 0 || exists x :: x in h && (x.start == MaxEnd(h) || x.end == MaxEnd(h))
  {
    if h == [] {
    } else {
      assert h == h[..|h|-1] + [h[|h|-1]];
      MaxEndIsLatest(h[..|h|-1]);
    }
  }

  // The time given to responses that never came.
  function Horizon(h: seq<Op>): int {
    Inc64(MaxEnd(h))
  }

  // The same without the wrap: later than every timestamp.
  function Beyond(h: seq<Op>): int {
    MaxEnd(h) + 1
  }

  // No timestamp is the last int64, so that the horizon does not wrap.
  ghost predicate InRange(h: seq<Op>) {
    forall x | x in h :: x.start < MAX_INT64 && x.end < MAX_INT64
  }

  // Records that constrain nothing: definite failures and unanswered reads.
  predicate Dropped(x: Op) {
    x.outcome.Failed? || (x.outcome.Unknown? && x.op.Get?)
  }

  // No mutation is unanswered.
  ghost predicate NothingOpen(h: seq<Op>) {
    forall x | x in h :: Dropped(x) || x.outcome.Succeeded?
  }

  // One record as an operation; an unanswered one may take effect until the horizon.
  function ToOperation(x: Op, horizon: int): Operation {
    var input := KvInput(x.op, x.key, x.value, x.expected);
    if x.outcome.Succeeded? then
      Operation(x.client, input, KvOutput(false, x.ok, x.present, x.retVal), x.start, x.end)
    else
      Operation(x.client, input, KvOutput(true, false, false, ""), x.start, horizon)
  }

  // The records that are checked, in order.
  function Image(h: seq<Op>, horizon: int): seq<Operation> {
    if h == [] then []
    else
      var front, x := Image(h[..|h|-1], horizon), h[|h|-1];
      if Dropped(x) then front else front + [ToOperation(x, horizon)]
  }

  lemma {:induction false} ImageSnoc(h: seq<Op>, x: Op, horizon: int)
    ensures Image(h + [x], horizon) ==
            if Dropped(x) then Image(h, horizon) else Image(h, horizon) + [ToOperation(x, horizon)]
  {
    assert (h + [x])[..|h|] == h;
  }

  function Checkable(h: seq<Op>): seq<Operation> {
    Image(h, Horizon(h))
  }

  // A record that is checked, and the operation it is checked as.
  predicate Constrains(x: Op) {
    match x.outcome
    case Succeeded => true
    case Failed => false
    case Unknown => x.op != Get
    case Undeclared(_) => true
  }

  predicate CheckedAs(x: Op, o: Operation, horizon: int) {
    && o.client == x.client && o.call == x.start
    && o.input.op == x.op && o.input.key == x.key && o.input.val == x.value && o.input.expected == x.expected
    && (if x.outcome == Succeeded then
          o.ret == x.end && !o.output.unknown
          && o.output.ok == x.ok && o.output.present == x.present && o.output.val == x.retVal
        else
          o.ret == horizon && o.output == KvOutput(true, false, false, ""))
  }

  // out holds one operation for each record that constrains anything, in the order of
  // the records, which stand at the positions p.
  ghost predicate Selects(h: seq<Op>, out: seq<Operation>, p: seq<nat>, horizon: int) {
    && |p| == |out|
    && (forall i, j | 0 <= i < j < |p| :: p[i] < p[j])
    && (forall i | 0 <= i < |p| :: p[i] < |h|)
    && (forall i: nat | i < |h| :: i in p <==> Constrains(h[i]))
    && (forall i | 0 <= i < |p| :: CheckedAs(h[p[i]], out[i], horizon))
  }

  lemma {:induction false} ImageSelects(h: seq<Op>, horizon: int) returns (p: seq<nat>)
    ensures Selects(h, Image(h, horizon), p, horizon)
  {
    if h == [] {
      p := [];
    } else {
      var n := |h| - 1;
      var q := ImageSelects(h[..n], horizon);
      p := if Dropped(h[n]) then q else q + [n];
      SelectsNext(h, Image(h[..n], horizon), q, horizon);
    }
  }

  lemma {:induction false} SelectsNext(h: seq<Op>, out: seq<Operation>, q: seq<nat>, horizon: int)
    requires h != [] && Selects(h[..|h|-1], out, q, horizon)
    ensures var n := |h| - 1;
            if Dropped(h[n]) then Selects(h, out, q, horizon)
            else Selects(h, out + [ToOperation(h[n], horizon)], q + [n], horizon)
  {
    var n := |h| - 1;
    forall i: nat | i < n ensures i in q <==> Constrains(h[i]) {
      assert h[..n][i] == h[i];
    }
    forall i | 0 <= i < |q| ensures q[i] < n && CheckedAs(h[q[i]], out[i], horizon) {
      assert h[..n][q[i]] == h[q[i]];
    }
    if Dropped(h[n]) {
      assert n !in q;
    }
  }

  method ToOperations(ops: seq<Op>) returns (out: seq<Operation>)
    ensures out == Checkable(ops)
    ensures exists p :: Selects(ops, out, p, Horizon(ops))
  {
    var maxEnd := 0;
    for i := 0 to |ops|
      invariant maxEnd == MaxEnd(ops[..i])
    {
      assert ops[..i + 1] == ops[..i] + [ops[i]];
      MaxEndSnoc(ops[..i], ops[i]);
      if ops[i].end > maxEnd {
        maxEnd := ops[i].end;
      }
      if ops[i].start > maxEnd {
        maxEnd := ops[i].start;
      }
    }
    assert ops[..|ops|] == ops;
    var horizon := Inc64(maxEnd);
    out := [];
    for i := 0 to |ops|
      invariant out == Image(ops[..i], horizon)
    {
      var op := ops[i];
      assert ops[..i + 1] == ops[..i] + [op];
      ImageSnoc(ops[..i], op, horizon);
      var input := KvInput(op.op, op.key, op.value, op.expected);
      match op.outcome {
        case Failed =>
        case Unknown =>
          if !op.op.Get? {
            out := out + [Operation(op.client, input, KvOutput(true, false, false, ""), op.start, horizon)];
          }
        case Succeeded =>
          out := out + [Operation(op.client, input, KvOutput(false, op.ok, op.present, op.retVal), op.start, op.end)];
        case Undeclared(_) =>
          out := out + [Operation(op.client, input, KvOutput(true, false, false, ""), op.start, horizon)];
      }
    }
    ghost var p := ImageSelects(ops, horizon);
    assert ops[..|ops|] == ops;
  }

  // The horizon is later than every timestamp exactly when it did not wrap.
  lemma {:induction false} HorizonIsPastEverything(h: seq<Op>)
    requires forall x | x in h :: x.start <= MAX_INT64 && x.end <= MAX_INT64
    ensures (forall x | x in h :: x.start < Horizon(h) && x.end < Horizon(h)) <==> InRange(h)
  {
    var m := MaxEnd(h);
    MaxEndIsLatest(h);
    if m == MAX_INT64 {
      var x :| x in h && (x.start == m || x.end == m);
      assert Horizon(h) == MIN_INT64;
    }
  }
}
