// The records and entries as JSON: command.go's Encode and DecodeCommand, and
// history.go's WriteFile and Read.
module Codec {
  import opened Wrappers
  import opened Json
  import opened Kv
  import opened History
  import opened Checker

  // ----- Names -----

  function KindName(k: OpKind): string {
    match k
    case Put => "put"
    case Get => "get"
    case Delete => "delete"
    case Cas => "cas"
    case Other(name) => name
  }

  function KindOf(name: string): OpKind {
    if name == "put" then Put
    else if name == "get" then Get
    else if name == "delete" then Delete
    else if name == "cas" then Cas
    else Other(name)
  }

  function OutcomeName(o: Outcome): string {
    match o
    case Succeeded => "ok"
    case Failed => "failed"
    case Unknown => "unknown"
    case Undeclared(text) => text
  }

  function OutcomeOf(name: string): Outcome {
    if name == "ok" then Succeeded
    else if name == "failed" then Failed
    else if name == "unknown" then Unknown
    else Undeclared(name)
  }

  // Other and Undeclared hold only texts that no declared constant has.
  predicate Canonical(k: OpKind) {
    KindOf(KindName(k)) == k
  }

  predicate CanonicalOutcome(o: Outcome) {
    OutcomeOf(OutcomeName(o)) == o
  }

  lemma {:induction false} DeclaredIsCanonical(k: OpKind, o: Outcome)
    ensures k.Declared() ==> Canonical(k)
    ensures !o.Undeclared? ==> CanonicalOutcome(o)
  {
    assert "put"[0] == 'p' && "get"[0] == 'g' && "delete"[0] == 'd' && "cas"[0] == 'c';
    assert "ok"[0] == 'o' && "failed"[0] == 'f' && "unknown"[0] == 'u';
  }

  // A member that Go's omitempty leaves out when the text is empty.
  function NonEmpty(name: string, s: string): seq<Member> {
    if s == "" then [] else [Member(name, Str(s))]
  }

  // ----- Commands -----

  function CommandMembers(c: Command): seq<Member> {
    [Member("op", Str(KindName(c.op))), Member("key", Str(c.key))]
    + (NonEmpty("value", c.value)
       + [Member("expect", if c.expected.Some? then Str(c.expected.value) else Null)])
  }

  function Encode(c: Command): string {
    ShowObject(CommandMembers(c), "")
  }

  // One member stored into a command: null leaves a string as it is and clears the
  // expectation; a value of another type is an error; unknown names are skipped.
  function StoreCommand(c: Command, m: Member): Option<Command> {
    if m.name == "op" then
      match m.value
      case Str(s) => Some(c.(op := KindOf(s)))
      case Null => Some(c)
      case _ => None
    else if m.name == "key" then
      match m.value
      case Str(s) => Some(c.(key := s))
      case Null => Some(c)
      case _ => None
    else if m.name == "value" then
      match m.value
      case Str(s) => Some(c.(value := s))
      case Null => Some(c)
      case _ => None
    else if m.name == "expect" then
      match m.value
      case Str(s) => Some(c.(expected := Some(s)))
      case Null => Some(c.(expected := None))
      case _ => None
    else Some(c)
  }

  function StoreAll<T>(store: (T, Member) -> Option<T>, x: T, ms: seq<Member>): Option<T> {
    if ms == [] then Some(x)
    else
      match store(x, ms[0])
      case None => None
      case Some(x') => StoreAll(store, x', ms[1..])
  }

  lemma {:induction false} StoreParts<T>(store: (T, Member) -> Option<T>, x: T, a: seq<Member>, b: seq<Member>)
    ensures StoreAll(store, x, a + b) ==
            match StoreAll(store, x, a) { case None => None case Some(y) => StoreAll(store, y, b) }
  {
    if a == [] {
      assert a + b == b;
    } else {
      assert (a + b)[1..] == a[1..] + b;
      if store(x, a[0]).Some? {
        StoreParts(store, store(x, a[0]).value, a[1..], b);
      }
    }
  }

  lemma {:induction false} StoreOne<T>(store: (T, Member) -> Option<T>, x: T, m: Member)
    ensures StoreAll(store, x, [m]) == store(x, m)
  {
    assert [m][1..] == [];
  }

  const ZERO_COMMAND := Command(Other(""), "", "", None)

  function DecodeCommand(t: string): Option<Command> {
    match ReadObject(t)
    case NoParse => None
    case Parsed(ms, rest) => if rest == "" then StoreAll(StoreCommand, ZERO_COMMAND, ms) else None
  }

  lemma {:induction false} StoreOpAndKey(c: Command, more: seq<Member>)
    requires Canonical(c.op)
    ensures StoreAll(StoreCommand, ZERO_COMMAND, [Member("op", Str(KindName(c.op))), Member("key", Str(c.key))] + more) ==
            StoreAll(StoreCommand, Command(c.op, c.key, "", None), more)
  {
    var op, key := Member("op", Str(KindName(c.op))), Member("key", Str(c.key));
    assert [op, key] + more == [op] + ([key] + more);
    StoreParts(StoreCommand, ZERO_COMMAND, [op], [key] + more);
    StoreOne(StoreCommand, ZERO_COMMAND, op);
    StoreParts(StoreCommand, ZERO_COMMAND.(op := c.op), [key], more);
    StoreOne(StoreCommand, ZERO_COMMAND.(op := c.op), key);
  }

  lemma {:induction false} StoreValueAndExpect(c: Command, wanted: Member)
    requires wanted == Member("expect", if c.expected.Some? then Str(c.expected.value) else Null)
    ensures StoreAll(StoreCommand, Command(c.op, c.key, "", None), NonEmpty("value", c.value) + [wanted]) == Some(c)
  {
    var c0 := Command(c.op, c.key, "", None);
    StoreParts(StoreCommand, c0, NonEmpty("value", c.value), [wanted]);
    StoreOne(StoreCommand, c0, Member("value", Str(c.value)));
    StoreOne(StoreCommand, c0.(value := c.value), wanted);
  }

  // Decoding undoes encoding; an absent expectation and an expected empty string
  // stay apart.
  lemma {:induction false} DecodeEncoded(c: Command)
    requires Canonical(c.op)
    ensures DecodeCommand(Encode(c)) == Some(c)
  {
    var wanted := Member("expect", if c.expected.Some? then Str(c.expected.value) else Null);
    ReadShownObject(CommandMembers(c), "");
    StoreOpAndKey(c, NonEmpty("value", c.value) + [wanted]);
    StoreValueAndExpect(c, wanted);
  }

  // ----- History records -----

  predicate FitsInt64(n: int) {
    MIN_INT64 <= n <= MAX_INT64
  }

  predicate Writable(x: Op) {
    && Canonical(x.op) && CanonicalOutcome(x.outcome)
    && FitsInt64(x.client) && FitsInt64(x.start) && FitsInt64(x.end)
  }

  function HeadMembers(x: Op): seq<Member> {
    [Member("client", Num(x.client)), Member("op", Str(KindName(x.op))), Member("key", Str(x.key))]
  }

  function TimeMembers(x: Op): seq<Member> {
    [Member("start_ns", Num(x.start)), Member("end_ns", Num(x.end)), Member("outcome", Str(OutcomeName(x.outcome)))]
  }

  function FlagMembers(x: Op): seq<Member> {
    [Member("ok", Flag(x.ok)), Member("present", Flag(x.present))]
  }

  function ExpectMembers(x: Op): seq<Member> {
    if x.expected.Some? then [Member("expect", Str(x.expected.value))] else []
  }

  function LastMembers(x: Op): seq<Member> {
    NonEmpty("ret_val", x.retVal) + NonEmpty("node", x.node)
  }

  function ResponseMembers(x: Op): seq<Member> {
    TimeMembers(x) + (FlagMembers(x) + LastMembers(x))
  }

  function OpMembers(x: Op): seq<Member> {
    HeadMembers(x) + (NonEmpty("value", x.value) + (ExpectMembers(x) + ResponseMembers(x)))
  }

  function PrintOp(x: Op): string {
    ShowObject(OpMembers(x), "")
  }

  function TextOr(former: string, v: Scalar): Option<string> {
    match v
    case Str(s) => Some(s)
    case Null => Some(former)
    case _ => None
  }

  function IntOr(former: int, v: Scalar): Option<int> {
    match v
    case Num(n) => if FitsInt64(n) then Some(n) else None
    case Null => Some(former)
    case _ => None
  }

  function FlagOr(former: bool, v: Scalar): Option<bool> {
    match v
    case Flag(b) => Some(b)
    case Null => Some(former)
    case _ => None
  }

  function StoreTime(x: Op, m: Member): Option<Op> {
    if m.name == "start_ns" then
      var n := IntOr(x.start, m.value);
      if n.Some? then Some(x.(start := n.value)) else None
    else if m.name == "end_ns" then
      var n := IntOr(x.end, m.value);
      if n.Some? then Some(x.(end := n.value)) else None
    else if m.name == "client" then
      var n := IntOr(x.client, m.value);
      if n.Some? then Some(x.(client := n.value)) else None
    else StoreFlag(x, m)
  }

  function StoreFlag(x: Op, m: Member): Option<Op> {
    if m.name == "ok" then
      var b := FlagOr(x.ok, m.value);
      if b.Some? then Some(x.(ok := b.value)) else None
    else if m.name == "present" then
      var b := FlagOr(x.present, m.value);
      if b.Some? then Some(x.(present := b.value)) else None
    else StoreText(x, m)
  }

  function StoreText(x: Op, m: Member): Option<Op> {
    if m.name == "op" then
      var s := TextOr(KindName(x.op), m.value);
      if s.Some? then Some(x.(op := KindOf(s.value))) else None
    else if m.name == "key" then
      var s := TextOr(x.key, m.value);
      if s.Some? then Some(x.(key := s.value)) else None
    else if m.name == "value" then
      var s := TextOr(x.value, m.value);
      if s.Some? then Some(x.(value := s.value)) else None
    else if m.name == "expect" then
      match m.value
      case Str(s) => Some(x.(expected := Some(s)))
      case Null => Some(x.(expected := None))
      case _ => None
    else if m.name == "outcome" then
      var s := TextOr(OutcomeName(x.outcome), m.value);
      if s.Some? then Some(x.(outcome := OutcomeOf(s.value))) else None
    else if m.name == "ret_val" then
      var s := TextOr(x.retVal, m.value);
      if s.Some? then Some(x.(retVal := s.value)) else None
    else if m.name == "node" then
      var s := TextOr(x.node, m.value);
      if s.Some? then Some(x.(node := s.value)) else None
    else Some(x)
  }

  const ZERO_OP := Op(0, Other(""), "", "", None, 0, 0, Undeclared(""), false, false, "", "")

  function ParseOp(t: string): Option<Op> {
    match ReadObject(t)
    case NoParse => None
    case Parsed(ms, rest) => if rest == "" then StoreAll(StoreTime, ZERO_OP, ms) else None
  }

  lemma {:induction false} StoreTwo(x: Op, a: Member, b: Member)
    ensures StoreAll(StoreTime, x, [a, b]) ==
            if StoreTime(x, a).Some? then StoreTime(StoreTime(x, a).value, b) else None
  {
    StoreParts(StoreTime, x, [a], [b]);
    assert [a] + [b] == [a, b];
    StoreOne(StoreTime, x, a);
    if StoreTime(x, a).Some? {
      StoreOne(StoreTime, StoreTime(x, a).value, b);
    }
  }

  lemma {:induction false} StoreThree(x: Op, a: Member, b: Member, c: Member)
    ensures StoreAll(StoreTime, x, [a, b, c]) ==
            if StoreTime(x, a).None? then None
            else StoreAll(StoreTime, StoreTime(x, a).value, [b, c])
  {
    StoreParts(StoreTime, x, [a], [b, c]);
    assert [a] + [b, c] == [a, b, c];
    StoreOne(StoreTime, x, a);
  }

  lemma {:induction false} StoreHead(x: Op)
    requires Writable(x)
    ensures StoreAll(StoreTime, ZERO_OP, HeadMembers(x)) ==
            Some(ZERO_OP.(client := x.client, op := x.op, key := x.key))
  {
    var ms := HeadMembers(x);
    StoreThree(ZERO_OP, ms[0], ms[1], ms[2]);
    StoreTwo(ZERO_OP.(client := x.client), ms[1], ms[2]);
  }

  lemma {:induction false} StoreTimes(x: Op, y: Op)
    requires Writable(x)
    ensures StoreAll(StoreTime, y, TimeMembers(x)) ==
            Some(y.(start := x.start, end := x.end, outcome := x.outcome))
  {
    var ms := TimeMembers(x);
    StoreThree(y, ms[0], ms[1], ms[2]);
    StoreTwo(y.(start := x.start), ms[1], ms[2]);
  }

  lemma {:induction false} StoreOptional(x: Op, y: Op)
    ensures y.value == "" ==> StoreAll(StoreTime, y, NonEmpty("value", x.value)) == Some(y.(value := x.value))
    ensures y.retVal == "" ==> StoreAll(StoreTime, y, NonEmpty("ret_val", x.retVal)) == Some(y.(retVal := x.retVal))
    ensures y.node == "" ==> StoreAll(StoreTime, y, NonEmpty("node", x.node)) == Some(y.(node := x.node))
    ensures y.expected == None ==> StoreAll(StoreTime, y, ExpectMembers(x)) == Some(y.(expected := x.expected))
    ensures StoreAll(StoreTime, y, FlagMembers(x)) == Some(y.(ok := x.ok, present := x.present))
  {
    StoreOne(StoreTime, y, Member("value", Str(x.value)));
    StoreOne(StoreTime, y, Member("ret_val", Str(x.retVal)));
    StoreOne(StoreTime, y, Member("node", Str(x.node)));
    if x.expected.Some? {
      StoreOne(StoreTime, y, Member("expect", Str(x.expected.value)));
    }
    StoreTwo(y, FlagMembers(x)[0], FlagMembers(x)[1]);
  }

  // Reading a record undoes printing it.
  lemma {:induction false} ParsePrinted(x: Op)
    requires Writable(x)
    ensures ParseOp(PrintOp(x)) == Some(x)
  {
    ReadShownObject(OpMembers(x), "");
    var p6 := LastMembers(x);
    var p5 := FlagMembers(x) + p6;
    var p4 := TimeMembers(x) + p5;
    var p3 := ExpectMembers(x) + p4;
    var p2 := NonEmpty("value", x.value) + p3;
    var x1 := ZERO_OP.(client := x.client, op := x.op, key := x.key);
    var x2 := x1.(value := x.value);
    var x3 := x2.(expected := x.expected);
    var x4 := x3.(start := x.start, end := x.end, outcome := x.outcome);
    var x5 := x4.(ok := x.ok, present := x.present);
    var x6 := x5.(retVal := x.retVal);
    StoreHead(x);
    StoreParts(StoreTime, ZERO_OP, HeadMembers(x), p2);
    StoreOptional(x, x1);
    StoreParts(StoreTime, x1, NonEmpty("value", x.value), p3);
    StoreOptional(x, x2);
    StoreParts(StoreTime, x2, ExpectMembers(x), p4);
    StoreTimes(x, x3);
    StoreParts(StoreTime, x3, TimeMembers(x), p5);
    StoreOptional(x, x4);
    StoreParts(StoreTime, x4, FlagMembers(x), p6);
    StoreOptional(x, x5);
    StoreParts(StoreTime, x5, NonEmpty("ret_val", x.retVal), NonEmpty("node", x.node));
    StoreOptional(x, x6);
  }

  // ----- Files -----

  // The length in UTF-8.
  function Bytes(s: string): nat {
    if s == "" then 0
    else
      Bytes(s[..|s|-1]) +
      (var c := s[|s|-1] as int;
       if c < 0x80 then 1 else if c < 0x800 then 2 else if c < 0x10000 then 3 else 4)
  }

  // The scanner's buffer; a line must leave room for its line break.
  const MAX_TOKEN := 16 * 1024 * 1024

  // The text of a file that shows one record a line.
  function FileOf(show: Op -> string, ops: seq<Op>): string {
    if ops == [] then "" else show(ops[0]) + ['\n'] + FileOf(show, ops[1..])
  }

  lemma {:induction false} FileGrows(show: Op -> string, ops: seq<Op>, x: Op)
    ensures FileOf(show, ops + [x]) == FileOf(show, ops) + show(x) + ['\n']
  {
    if ops == [] {
      assert ops + [x] == [x];
      assert FileOf(show, [x]) == show(x) + ['\n'] + FileOf(show, [x][1..]);
    } else {
      assert (ops + [x])[1..] == ops[1..] + [x];
      FileGrows(show, ops[1..], x);
    }
  }

  lemma {:induction false} FileConcat(show: Op -> string, a: seq<Op>, b: seq<Op>)
    ensures FileOf(show, a + b) == FileOf(show, a) + FileOf(show, b)
  {
    if a == [] {
      assert a + b == b;
    } else {
      assert (a + b)[1..] == a[1..] + b;
      FileConcat(show, a[1..], b);
    }
  }

  // What fits of a text.
  function Clip(t: string, room: nat): string {
    if |t| <= room then t else t[..room]
  }

  // Something that is written to, with limited room: a write that does not fit
  // writes what fits, and fails.
  class Stream {
    const room: nat
    var text: string

    constructor (room: nat)
      ensures this.room == room && text == ""
    {
      this.room := room;
      text := "";
    }

    method Write(t: string) returns (ok: bool)
      modifies this
      ensures ok <==> |old(text)| + |t| <= room
      ensures text == Clip(old(text) + t, room)
    {
      ok := |text| + |t| <= room;
      text := Clip(text + t, room);
    }
  }

  // `created` tells whether the file could be created, which empties it.
  method WriteFile(f: Stream, created: bool, ops: seq<Op>) returns (ok: bool)
    modifies f
    ensures !created ==> !ok && f.text == old(f.text)
    ensures created ==> f.text == Clip(FileOf(PrintOp, ops), f.room)
    ensures created ==> (ok <==> |FileOf(PrintOp, ops)| <= f.room)
  {
    if !created {
      return false;
    }
    f.text := "";
    for i := 0 to |ops|
      invariant f.text == FileOf(PrintOp, ops[..i]) && |f.text| <= f.room
    {
      NextLine(PrintOp, ops, i);
      var fits := f.Write(PrintOp(ops[i]) + ['\n']);
      if !fits {
        ClippedFile(PrintOp, ops, i + 1, f.room);
        return false;
      }
    }
    assert ops[..|ops|] == ops;
    return true;
  }

  lemma {:induction false} NextLine(show: Op -> string, ops: seq<Op>, i: nat)
    requires i < |ops|
    ensures FileOf(show, ops[..i + 1]) == FileOf(show, ops[..i]) + (show(ops[i]) + ['\n'])
  {
    assert ops[..i + 1] == ops[..i] + [ops[i]];
    FileGrows(show, ops[..i], ops[i]);
  }

  // A beginning that does not fit shows what becomes of the whole.
  lemma {:induction false} ClippedFile(show: Op -> string, ops: seq<Op>, i: nat, room: nat)
    requires i <= |ops| && room < |FileOf(show, ops[..i])|
    ensures room < |FileOf(show, ops)|
    ensures Clip(FileOf(show, ops), room) == Clip(FileOf(show, ops[..i]), room)
  {
    assert ops == ops[..i] + ops[i..];
    FileConcat(show, ops[..i], ops[i..]);
  }

  function LineEnd(t: string): (n: nat)
    ensures n <= |t|
  {
    if t == "" || t[0] == '\n' then 0 else 1 + LineEnd(t[1..])
  }

  function DropReturn(line: string): string {
    if line != "" && line[|line|-1] == '\r' then line[..|line|-1] else line
  }

  function AfterLine(t: string): (rest: string)
    ensures t != "" ==> |rest| < |t|
  {
    var n := LineEnd(t);
    if n < |t| then t[n + 1..] else ""
  }

  datatype ReadError = BadLine(line: nat) | TooLong
  datatype ReadResult = ReadResult(ops: seq<Op>, error: Option<ReadError>)

  // Records read before the rest of a file: a record that does not parse discards
  // everything, a line that is too long ends the reading.
  function Onto(ops: seq<Op>, r: ReadResult): ReadResult {
    if r.error.Some? && r.error.value.BadLine? then r else r.(ops := ops + r.ops)
  }

  function ReadFrom(parse: string -> Option<Op>, line: nat, t: string): ReadResult
    decreases |t|
  {
    if t == "" then ReadResult([], None)
    else
      var raw := t[..LineEnd(t)];
      if Bytes(raw) >= MAX_TOKEN then ReadResult([], Some(TooLong))
      else if DropReturn(raw) == "" then ReadFrom(parse, line + 1, AfterLine(t))
      else
        match parse(DropReturn(raw))
        case None => ReadResult([], Some(BadLine(line + 1)))
        case Some(x) => Onto([x], ReadFrom(parse, line + 1, AfterLine(t)))
  }

  lemma {:induction false} OntoOnto(a: seq<Op>, x: Op, r: ReadResult)
    ensures Onto(a, Onto([x], r)) == Onto(a + [x], r)
  {
    assert a + ([x] + r.ops) == (a + [x]) + r.ops;
  }

  method Read(text: string) returns (r: ReadResult)
    ensures r == ReadFrom(ParseOp, 0, text)
  {
    var ops: seq<Op>, line, t := [], 0, text;
    assert forall q: ReadResult :: [] + q.ops == q.ops;
    while t != ""
      invariant ReadFrom(ParseOp, 0, text) == Onto(ops, ReadFrom(ParseOp, line, t))
      decreases |t|
    {
      var raw := t[..LineEnd(t)];
      ghost var next := ReadFrom(ParseOp, line + 1, AfterLine(t));
      if Bytes(raw) >= MAX_TOKEN {
        assert ops + [] == ops;
        return ReadResult(ops, Some(TooLong));
      }
      t := AfterLine(t);
      line := line + 1;
      if DropReturn(raw) == "" {
        continue;
      }
      var op := ParseOp(DropReturn(raw));
      if op.None? {
        return ReadResult([], Some(BadLine(line)));
      }
      OntoOnto(ops, op.value, next);
      ops := ops + [op.value];
    }
    assert ops + [] == ops;
    r := ReadResult(ops, None);
  }

  lemma {:induction false} LineEndsAt(a: string, t: string)
    requires Plain(a)
    ensures LineEnd(a + ['\n'] + t) == |a|
  {
    if a == "" {
      assert a + ['\n'] + t == ['\n'] + t;
    } else {
      assert (a + ['\n'] + t)[1..] == a[1..] + ['\n'] + t;
      LineEndsAt(a[1..], t);
    }
  }

  // A line that reads back as record x wherever it stands in a file.
  ghost predicate ReadsAs(parse: string -> Option<Op>, line: string, x: Op) {
    && Plain(line) && line != ""
    && Bytes(line) < MAX_TOKEN
    && parse(line) == Some(x)
  }

  lemma {:induction false} ReadLine(parse: string -> Option<Op>, n: nat, line: string, x: Op, t: string)
    requires ReadsAs(parse, line, x)
    ensures ReadFrom(parse, n, line + ['\n'] + t) == Onto([x], ReadFrom(parse, n + 1, t))
  {
    var text := line + ['\n'] + t;
    LineEndsAt(line, t);
    assert text[..|line|] == line && text[|line| + 1..] == t;
    assert DropReturn(line) == line;
  }

  lemma {:induction false} ReadShown(parse: string -> Option<Op>, show: Op -> string, n: nat, ops: seq<Op>)
    requires forall x | x in ops :: ReadsAs(parse, show(x), x)
    ensures ReadFrom(parse, n, FileOf(show, ops)) == ReadResult(ops, None)
    decreases |ops|
  {
    if ops == [] {
    } else {
      ReadLine(parse, n, show(ops[0]), ops[0], FileOf(show, ops[1..]));
      ReadShown(parse, show, n + 1, ops[1..]);
      assert [ops[0]] + ops[1..] == ops;
    }
  }

  // Reading what was written gives the same records back, if each line fits the
  // scanner's buffer.
  lemma {:induction false} ReadUndoesWrite(ops: seq<Op>)
    requires forall x | x in ops :: Writable(x) && Bytes(PrintOp(x)) < MAX_TOKEN
    ensures ReadFrom(ParseOp, 0, FileOf(PrintOp, ops)) == ReadResult(ops, None)
  {
    forall x | x in ops ensures ReadsAs(ParseOp, PrintOp(x), x) {
      ParsePrinted(x);
      ShownMembersArePlain(OpMembers(x), "");
    }
    ReadShown(ParseOp, PrintOp, 0, ops);
  }
}
