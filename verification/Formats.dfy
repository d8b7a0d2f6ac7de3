// The formats themselves, apart from the printers and parsers: the text of a line and
// of an entry, what any flat object is read as, and what becomes of any file.
module Formats {
  import opened Wrappers
  import opened Json
  import opened Kv
  import opened History
  import opened Checker
  import opened Codec

  // ----- What is written -----

  // A field as it follows another one, and one that is left out when empty.
  function Next(name: string, value: string): string {
    "," + Field(name, value)
  }

  function Optional(name: string, s: string): string {
    if s == "" then "" else Next(name, Quoted(s))
  }

  // The declared constants.
  lemma {:induction false} DeclaredNames()
    ensures KindName(Put) == "put" && KindName(Get) == "get" && KindName(Delete) == "delete" && KindName(Cas) == "cas"
    ensures OutcomeName(Succeeded) == "ok" && OutcomeName(Failed) == "failed" && OutcomeName(Unknown) == "unknown"
  {
  }

  lemma {:induction false} FollowingCons(m: Member, ms: seq<Member>)
    ensures Following([m] + ms) == Next(m.name, ScalarText(m.value)) + Following(ms)
  {
    assert ([m] + ms)[1..] == ms;
  }

  lemma {:induction false} FollowingOptional(name: string, s: string, ms: seq<Member>)
    ensures Following(NonEmpty(name, s) + ms) == Optional(name, s) + Following(ms)
  {
    if s == "" {
      assert [] + ms == ms;
    } else {
      FollowingCons(Member(name, Str(s)), ms);
    }
  }

  // The text of a log entry: all fields but an empty value, null for an absent
  // expectation.
  lemma {:induction false} EntryText(c: Command)
    ensures Encode(c) ==
            "{" + (Field("op", Quoted(KindName(c.op))) +
                   ((Next("key", Quoted(c.key)) +
                     (Optional("value", c.value) +
                      (Next("expect", if c.expected.Some? then Quoted(c.expected.value) else "null") + ""))) + "}"))
  {
    var op, key := Member("op", Str(KindName(c.op))), Member("key", Str(c.key));
    var wanted := Member("expect", if c.expected.Some? then Str(c.expected.value) else Null);
    var rest := NonEmpty("value", c.value) + ([wanted] + []);
    assert [wanted] + [] == [wanted];
    assert CommandMembers(c) == [op] + ([key] + rest);
    MembersText(op, [key] + rest);
    FollowingCons(key, rest);
    FollowingOptional("value", c.value, [wanted] + []);
    FollowingCons(wanted, []);
  }

  // The line of a record: all fields but empty texts and an absent expectation.
  function RecordLine(x: Op): string {
    "{" + (Field("client", PrintInt(x.client)) +
           ((Next("op", Quoted(KindName(x.op))) +
             (Next("key", Quoted(x.key)) + RequestText(x))) + "}"))
  }

  function RequestText(x: Op): string {
    Optional("value", x.value) +
    ((if x.expected.Some? then Next("expect", Quoted(x.expected.value)) else "") + ResponseText(x))
  }

  lemma {:induction false} RecordText(x: Op)
    ensures PrintOp(x) == RecordLine(x)
  {
    var rest := NonEmpty("value", x.value) + (ExpectMembers(x) + ResponseMembers(x));
    RequestIsText(x);
    HeadIsText(x, rest);
  }

  lemma {:induction false} HeadIsText(x: Op, ms: seq<Member>)
    ensures ShowObject(HeadMembers(x) + ms, "") ==
            "{" + (Field("client", PrintInt(x.client)) +
                   ((Next("op", Quoted(KindName(x.op))) +
                     (Next("key", Quoted(x.key)) + Following(ms))) + "}"))
  {
    var client, op, key := HeadMembers(x)[0], HeadMembers(x)[1], HeadMembers(x)[2];
    assert HeadMembers(x) + ms == [client] + ([op] + ([key] + ms));
    MembersText(client, [op] + ([key] + ms));
    FollowingCons(op, [key] + ms);
    FollowingCons(key, ms);
  }

  lemma {:induction false} RequestIsText(x: Op)
    ensures Following(NonEmpty("value", x.value) + (ExpectMembers(x) + ResponseMembers(x))) == RequestText(x)
  {
    FollowingOptional("value", x.value, ExpectMembers(x) + ResponseMembers(x));
    ExpectText(x, ResponseMembers(x));
    ResponseIsText(x);
  }

  lemma {:induction false} ExpectText(x: Op, more: seq<Member>)
    ensures Following(ExpectMembers(x) + more) ==
            (if x.expected.Some? then Next("expect", Quoted(x.expected.value)) else "") + Following(more)
  {
    if x.expected.Some? {
      FollowingCons(Member("expect", Str(x.expected.value)), more);
    } else {
      assert [] + more == more;
    }
  }

  function ResponseText(x: Op): string {
    Next("start_ns", PrintInt(x.start)) +
    (Next("end_ns", PrintInt(x.end)) +
     (Next("outcome", Quoted(OutcomeName(x.outcome))) +
      (Next("ok", if x.ok then "true" else "false") +
       (Next("present", if x.present then "true" else "false") +
        (Optional("ret_val", x.retVal) + (Optional("node", x.node) + ""))))))
  }

  lemma {:induction false} ResponseIsText(x: Op)
    ensures Following(ResponseMembers(x)) == ResponseText(x)
  {
    TimesText(x, FlagMembers(x) + LastMembers(x));
    FlagsText(x, LastMembers(x));
    LastIsText(x);
  }

  lemma {:induction false} LastIsText(x: Op)
    ensures Following(LastMembers(x)) == Optional("ret_val", x.retVal) + (Optional("node", x.node) + "")
  {
    var node := NonEmpty("node", x.node);
    FollowingOptional("ret_val", x.retVal, node);
    assert node + [] == node;
    FollowingOptional("node", x.node, []);
  }

  lemma {:induction false} TimesText(x: Op, more: seq<Member>)
    ensures Following(TimeMembers(x) + more) ==
            Next("start_ns", PrintInt(x.start)) +
            (Next("end_ns", PrintInt(x.end)) +
             (Next("outcome", Quoted(OutcomeName(x.outcome))) + Following(more)))
  {
    var a, b, c := TimeMembers(x)[0], TimeMembers(x)[1], TimeMembers(x)[2];
    assert TimeMembers(x) + more == [a] + ([b] + ([c] + more));
    FollowingCons(a, [b] + ([c] + more));
    FollowingCons(b, [c] + more);
    FollowingCons(c, more);
  }

  lemma {:induction false} FlagsText(x: Op, more: seq<Member>)
    ensures Following(FlagMembers(x) + more) ==
            Next("ok", if x.ok then "true" else "false") +
            (Next("present", if x.present then "true" else "false") + Following(more))
  {
    var a, b := FlagMembers(x)[0], FlagMembers(x)[1];
    assert FlagMembers(x) + more == [a] + ([b] + more);
    FollowingCons(a, [b] + more);
    FollowingCons(b, more);
  }

  // The text of a file: each record's line and a line feed.
  lemma {:induction false} FileIsLines(x: Op, ops: seq<Op>)
    ensures FileOf(PrintOp, []) == ""
    ensures FileOf(PrintOp, [x] + ops) == RecordLine(x) + ['\n'] + FileOf(PrintOp, ops)
  {
    RecordText(x);
    LineThenFile(PrintOp, x, ops);
  }

  lemma {:induction false} LineThenFile(show: Op -> string, x: Op, ops: seq<Op>)
    ensures FileOf(show, [x] + ops) == show(x) + ['\n'] + FileOf(show, ops)
  {
    assert ([x] + ops)[1..] == ops;
  }

  // The length of a text is counted in the bytes of section 3 of RFC 3629.
  lemma {:induction false} BytesAdd(a: string, b: string)
    ensures Bytes(a + b) == Bytes(a) + Bytes(b)
  {
    if b == "" {
      assert a + b == a;
    } else {
      assert (a + b)[..|a + b| - 1] == a + b[..|b| - 1];
      BytesAdd(a, b[..|b| - 1]);
    }
  }

  lemma {:induction false} BytesOfCharacter(c: char)
    ensures c <= '\U{007F}' ==> Bytes([c]) == 1
    ensures '\U{0080}' <= c <= '\U{07FF}' ==> Bytes([c]) == 2
    ensures '\U{0800}' <= c <= '\U{FFFF}' ==> Bytes([c]) == 3
    ensures '\U{10000}' <= c ==> Bytes([c]) == 4
  {
    assert [c][..0] == "";
  }

  // ----- What any flat object is read as -----

  // The text, number, flag or expectation that the members named `name` leave in a
  // field: the last one counts, and null leaves texts, numbers and flags as they were.
  function TextIn(ms: seq<Member>, name: string, former: string): string {
    if ms == [] then former
    else TextIn(ms[1..], name, if ms[0].name == name && ms[0].value.Str? then ms[0].value.text else former)
  }

  function NumberIn(ms: seq<Member>, name: string, former: int): int {
    if ms == [] then former
    else NumberIn(ms[1..], name, if ms[0].name == name && ms[0].value.Num? then ms[0].value.n else former)
  }

  function FlagIn(ms: seq<Member>, name: string, former: bool): bool {
    if ms == [] then former
    else FlagIn(ms[1..], name, if ms[0].name == name && ms[0].value.Flag? then ms[0].value.b else former)
  }

  function ExpectationIn(ms: seq<Member>, former: Option<string>): Option<string> {
    if ms == [] then former
    else
      ExpectationIn(ms[1..],
        if ms[0].name != "expect" then former
        else if ms[0].value.Str? then Some(ms[0].value.text) else None)
  }

  predicate IsText(v: Scalar) {
    v.Str? || v.Null?
  }

  predicate IsNumber(v: Scalar) {
    v.Null? || (v.Num? && MIN_INT64 <= v.n <= MAX_INT64)
  }

  predicate IsFlag(v: Scalar) {
    v.Flag? || v.Null?
  }

  // A member that a log entry, or a record, can be read from; unknown names can hold
  // anything.
  predicate FitsEntry(m: Member) {
    m.name == "op" || m.name == "key" || m.name == "value" || m.name == "expect" ==> IsText(m.value)
  }

  predicate FitsRecord(m: Member) {
    && (m.name == "client" || m.name == "start_ns" || m.name == "end_ns" ==> IsNumber(m.value))
    && (m.name == "ok" || m.name == "present" ==> IsFlag(m.value))
    && (m.name in ["op", "key", "value", "expect", "outcome", "ret_val", "node"] ==> IsText(m.value))
  }

  // What the members ms leave in c.
  function EntryIn(ms: seq<Member>, c: Command): Command {
    Command(KindOf(TextIn(ms, "op", KindName(c.op))), TextIn(ms, "key", c.key), TextIn(ms, "value", c.value),
            ExpectationIn(ms, c.expected))
  }

  lemma {:induction false} EntryMember(c: Command, m: Member, ms: seq<Member>)
    requires Canonical(c.op)
    ensures StoreCommand(c, m).Some? <==> FitsEntry(m)
    ensures FitsEntry(m) ==>
              var c' := StoreCommand(c, m).value;
              Canonical(c'.op) && EntryIn([m] + ms, c) == EntryIn(ms, c')
  {
    assert ([m] + ms)[1..] == ms;
  }

  lemma {:induction false} EntryMembers(c: Command, ms: seq<Member>)
    requires Canonical(c.op)
    ensures StoreAll(StoreCommand, c, ms) ==
            if forall m | m in ms :: FitsEntry(m) then Some(EntryIn(ms, c)) else None
    decreases |ms|
  {
    if ms == [] {
    } else {
      assert [ms[0]] + ms[1..] == ms;
      EntryMember(c, ms[0], ms[1..]);
      if FitsEntry(ms[0]) {
        EntryMembers(StoreCommand(c, ms[0]).value, ms[1..]);
      }
    }
  }

  // Any flat object as a log entry: it decodes exactly if no known field has a value
  // of the wrong type, and to what its fields say.
  lemma {:induction false} EntryRead(ms: seq<Member>)
    ensures DecodeCommand(ShowObject(ms, "")) ==
            if forall m | m in ms :: FitsEntry(m) then Some(EntryIn(ms, Command(Other(""), "", "", None))) else None
  {
    ReadShownObject(ms, "");
    EntryMembers(ZERO_COMMAND, ms);
  }

  // What the members ms leave in x.
  function RecordIn(ms: seq<Member>, x: Op): Op {
    Op(NumberIn(ms, "client", x.client), KindOf(TextIn(ms, "op", KindName(x.op))),
       TextIn(ms, "key", x.key), TextIn(ms, "value", x.value), ExpectationIn(ms, x.expected),
       NumberIn(ms, "start_ns", x.start), NumberIn(ms, "end_ns", x.end),
       OutcomeOf(TextIn(ms, "outcome", OutcomeName(x.outcome))),
       FlagIn(ms, "ok", x.ok), FlagIn(ms, "present", x.present),
       TextIn(ms, "ret_val", x.retVal), TextIn(ms, "node", x.node))
  }

  // One member leaves x' in x.
  ghost predicate Leaves(x: Op, m: Member, ms: seq<Member>, x': Op) {
    Canonical(x'.op) && CanonicalOutcome(x'.outcome) && RecordIn([m] + ms, x) == RecordIn(ms, x')
  }

  lemma {:induction false} TimeMember(x: Op, m: Member, ms: seq<Member>)
    requires Canonical(x.op) && CanonicalOutcome(x.outcome)
    requires m.name == "client" || m.name == "start_ns" || m.name == "end_ns"
    ensures StoreTime(x, m).Some? <==> FitsRecord(m)
    ensures FitsRecord(m) ==> Leaves(x, m, ms, StoreTime(x, m).value)
  {
    assert ([m] + ms)[1..] == ms;
  }

  lemma {:induction false} FlagMember(x: Op, m: Member, ms: seq<Member>)
    requires Canonical(x.op) && CanonicalOutcome(x.outcome)
    requires m.name == "ok" || m.name == "present"
    ensures StoreFlag(x, m).Some? <==> FitsRecord(m)
    ensures FitsRecord(m) ==> Leaves(x, m, ms, StoreFlag(x, m).value)
  {
    assert ([m] + ms)[1..] == ms;
  }

  lemma {:induction false} OpMember(x: Op, m: Member, ms: seq<Member>)
    requires Canonical(x.op) && CanonicalOutcome(x.outcome)
    requires m.name == "op"
    ensures StoreText(x, m).Some? <==> FitsRecord(m)
    ensures FitsRecord(m) ==> Leaves(x, m, ms, StoreText(x, m).value)
  {
    assert ([m] + ms)[1..] == ms;
  }

  lemma {:induction false} KeyMember(x: Op, m: Member, ms: seq<Member>)
    requires Canonical(x.op) && CanonicalOutcome(x.outcome)
    requires m.name == "key" || m.name == "value"
    ensures StoreText(x, m).Some? <==> FitsRecord(m)
    ensures FitsRecord(m) ==> Leaves(x, m, ms, StoreText(x, m).value)
  {
    assert ([m] + ms)[1..] == ms;
  }

  lemma {:induction false} OutcomeMember(x: Op, m: Member, ms: seq<Member>)
    requires Canonical(x.op) && CanonicalOutcome(x.outcome)
    requires m.name == "outcome"
    ensures StoreText(x, m).Some? <==> FitsRecord(m)
    ensures FitsRecord(m) ==> Leaves(x, m, ms, StoreText(x, m).value)
  {
    assert ([m] + ms)[1..] == ms;
  }

  lemma {:induction false} OptionalMember(x: Op, m: Member, ms: seq<Member>)
    requires Canonical(x.op) && CanonicalOutcome(x.outcome)
    requires m.name == "expect" || m.name == "ret_val" || m.name == "node"
    ensures StoreText(x, m).Some? <==> FitsRecord(m)
    ensures FitsRecord(m) ==> Leaves(x, m, ms, StoreText(x, m).value)
  {
    assert ([m] + ms)[1..] == ms;
  }

  predicate KnownName(name: string) {
    name in ["client", "start_ns", "end_ns", "ok", "present", "op", "key", "outcome", "value", "expect", "ret_val", "node"]
  }

  lemma {:induction false} UnknownMember(x: Op, m: Member, ms: seq<Member>)
    requires Canonical(x.op) && CanonicalOutcome(x.outcome) && !KnownName(m.name)
    ensures FitsRecord(m) && StoreTime(x, m) == Some(x) && Leaves(x, m, ms, x)
  {
    assert ([m] + ms)[1..] == ms;
  }

  lemma {:induction false} RecordMember(x: Op, m: Member, ms: seq<Member>)
    requires Canonical(x.op) && CanonicalOutcome(x.outcome)
    ensures StoreTime(x, m).Some? <==> FitsRecord(m)
    ensures FitsRecord(m) ==> Leaves(x, m, ms, StoreTime(x, m).value)
  {
    if m.name == "client" || m.name == "start_ns" || m.name == "end_ns" {
      TimeMember(x, m, ms);
    } else if m.name == "ok" || m.name == "present" {
      FlagMember(x, m, ms);
    } else if m.name == "op" {
      OpMember(x, m, ms);
    } else if m.name == "key" || m.name == "value" {
      KeyMember(x, m, ms);
    } else if m.name == "outcome" {
      OutcomeMember(x, m, ms);
    } else if KnownName(m.name) {
      OptionalMember(x, m, ms);
    } else {
      UnknownMember(x, m, ms);
    }
  }

  lemma {:induction false} RecordMembers(x: Op, ms: seq<Member>)
    requires Canonical(x.op) && CanonicalOutcome(x.outcome)
    ensures StoreAll(StoreTime, x, ms) ==
            if forall m | m in ms :: FitsRecord(m) then Some(RecordIn(ms, x)) else None
    decreases |ms|
  {
    if ms == [] {
    } else {
      assert [ms[0]] + ms[1..] == ms;
      RecordMember(x, ms[0], ms[1..]);
      if FitsRecord(ms[0]) {
        RecordMembers(StoreTime(x, ms[0]).value, ms[1..]);
      }
    }
  }

  // Any flat object as a record.
  lemma {:induction false} RecordRead(ms: seq<Member>)
    ensures ParseOp(ShowObject(ms, "")) ==
            if forall m | m in ms :: FitsRecord(m)
            then Some(RecordIn(ms, Op(0, Other(""), "", "", None, 0, 0, Undeclared(""), false, false, "", "")))
            else None
  {
    ReadShownObject(ms, "");
    assert ParseOp(ShowObject(ms, "")) == StoreAll(StoreTime, ZERO_OP, ms);
    RecordMembers(ZERO_OP, ms);
  }

  // Text after the object is refused.
  lemma {:induction false} TrailingTextIsRefused(ms: seq<Member>, rest: string)
    requires rest != ""
    ensures DecodeCommand(ShowObject(ms, rest)).None? && ParseOp(ShowObject(ms, rest)).None?
  {
    ReadShownObject(ms, rest);
  }

  // ----- What becomes of any file -----

  // A line of a file: nothing, or the text of a record; with a carriage return or not.
  datatype FileLine = Blank(cr: bool) | Shows(text: string, x: Op, cr: bool)

  function LineText(l: FileLine): string {
    (if l.Shows? then l.text else "") + if l.cr then "\r" else ""
  }

  // The lines, and then t.
  function FileThen(ls: seq<FileLine>, t: string): string {
    if ls == [] then t else LineText(ls[0]) + (['\n'] + FileThen(ls[1..], t))
  }

  function RecordsOf(ls: seq<FileLine>): seq<Op> {
    if ls == [] then []
    else (if ls[0].Shows? then [ls[0].x] else []) + RecordsOf(ls[1..])
  }

  ghost predicate NoBreak(t: string) {
    forall i | 0 <= i < |t| :: t[i] != '\n' && t[i] != '\r'
  }

  // What can stand on a line: less than 16 MiB, with the carriage return.
  ghost predicate GoodFileLine(parse: string -> Option<Op>, l: FileLine) {
    && Bytes(LineText(l)) < 16_777_216
    && (l.Shows? ==> l.text != "" && NoBreak(l.text) && parse(l.text) == Some(l.x))
  }

  lemma {:induction false} LineBreakAt(a: string, t: string)
    requires forall i | 0 <= i < |a| :: a[i] != '\n'
    ensures LineEnd(a + t) == |a| + LineEnd(t)
  {
    if a == "" {
      assert a + t == t;
    } else {
      assert (a + t)[1..] == a[1..] + t;
      LineBreakAt(a[1..], t);
    }
  }

  // The first line of a text.
  lemma {:induction false} FirstLine(a: string, t: string)
    requires forall i | 0 <= i < |a| :: a[i] != '\n'
    ensures var text := a + (['\n'] + t); text != "" && text[..LineEnd(text)] == a && AfterLine(text) == t
  {
    LineBreakAt(a, ['\n'] + t);
    var text := a + (['\n'] + t);
    assert text[..|a|] == a && text[|a| + 1..] == t;
  }

  lemma {:induction false} OnlyLine(a: string)
    requires forall i | 0 <= i < |a| :: a[i] != '\n'
    ensures a[..LineEnd(a)] == a && AfterLine(a) == ""
  {
    LineBreakAt(a, "");
    assert a + "" == a;
  }

  lemma {:induction false} TextOfLine(l: FileLine)
    requires l.Shows? ==> l.text != "" && NoBreak(l.text)
    ensures forall i | 0 <= i < |LineText(l)| :: LineText(l)[i] != '\n'
    ensures DropReturn(LineText(l)) == if l.Shows? then l.text else ""
  {
    var text := if l.Shows? then l.text else "";
    if l.cr {
      assert LineText(l)[..|text|] == text;
    } else {
      assert LineText(l) == text;
    }
  }

  // One line and then the rest.
  lemma {:induction false} ReadFileLine(parse: string -> Option<Op>, l: FileLine, n: nat, t: string)
    requires GoodFileLine(parse, l)
    ensures var r := ReadFrom(parse, n + 1, t);
            ReadFrom(parse, n, LineText(l) + (['\n'] + t)) == if l.Shows? then Onto([l.x], r) else r
  {
    TextOfLine(l);
    FirstLine(LineText(l), t);
  }

  // A last line without a line break is read like the others.
  lemma {:induction false} LastLineIsRead(parse: string -> Option<Op>, l: FileLine, n: nat)
    requires GoodFileLine(parse, l)
    ensures Reader(parse)(n, LineText(l)) == ReadResult(if l.Shows? then [l.x] else [], None)
  {
    TextOfLine(l);
    OnlyLine(LineText(l));
    assert ReadFrom(parse, n + 1, "") == ReadResult([], None);
  }

  lemma {:induction false} OntoMore(l: FileLine, ls: seq<FileLine>, r: ReadResult)
    ensures RecordsOf([l] + ls) == (if l.Shows? then [l.x] else []) + RecordsOf(ls)
    ensures Onto(RecordsOf([l] + ls), r) ==
            if l.Shows? then Onto([l.x], Onto(RecordsOf(ls), r)) else Onto(RecordsOf(ls), r)
  {
    assert ([l] + ls)[1..] == ls;
    if l.Shows? {
      assert [l.x] + (RecordsOf(ls) + r.ops) == ([l.x] + RecordsOf(ls)) + r.ops;
    } else {
      assert [] + RecordsOf(ls) == RecordsOf(ls);
    }
  }

  // `read` takes the record of line l, if it has one, and goes on with the rest.
  ghost predicate StepsOver(read: (nat, string) -> ReadResult, l: FileLine, n: nat, t: string) {
    var r := read(n + 1, t);
    read(n, LineText(l) + (['\n'] + t)) == if l.Shows? then Onto([l.x], r) else r
  }

  lemma {:induction false} StepOverLines(read: (nat, string) -> ReadResult, ls: seq<FileLine>, n: nat, t: string)
    requires forall l, k: nat, u | l in ls :: StepsOver(read, l, k, u)
    ensures read(n, FileThen(ls, t)) == Onto(RecordsOf(ls), read(n + |ls|, t))
    decreases |ls|
  {
    if ls == [] {
      OntoNothing(read(n, t));
    } else {
      assert StepsOver(read, ls[0], n, FileThen(ls[1..], t));
      StepOverLines(read, ls[1..], n + 1, t);
      assert [ls[0]] + ls[1..] == ls;
      OntoMore(ls[0], ls[1..], read(n + |ls|, t));
    }
  }

  function Reader(parse: string -> Option<Op>): (nat, string) -> ReadResult {
    (n: nat, t: string) => ReadFrom(parse, n, t)
  }

  lemma {:induction false} ReaderStepsOver(parse: string -> Option<Op>, l: FileLine, n: nat, t: string)
    requires GoodFileLine(parse, l)
    ensures StepsOver(Reader(parse), l, n, t)
  {
    ReadFileLine(parse, l, n, t);
  }

  // Whatever follows, the records of good lines are read in order; blank lines are
  // skipped but counted.
  lemma {:induction false} ReadFileLines(parse: string -> Option<Op>, ls: seq<FileLine>, n: nat, t: string)
    requires forall l | l in ls :: GoodFileLine(parse, l)
    ensures Reader(parse)(n, FileThen(ls, t)) == Onto(RecordsOf(ls), Reader(parse)(n + |ls|, t))
  {
    forall l, k: nat, u | l in ls ensures StepsOver(Reader(parse), l, k, u) {
      ReaderStepsOver(parse, l, k, u);
    }
    StepOverLines(Reader(parse), ls, n, t);
  }

  lemma {:induction false} OntoNothing(r: ReadResult)
    ensures Onto([], r) == r
  {
    assert [] + r.ops == r.ops;
  }

  lemma {:induction false} OntoEnd(ops: seq<Op>, error: Option<ReadError>)
    ensures Onto(ops, ReadResult([], error)) ==
            if error.Some? && error.value.BadLine? then ReadResult([], error) else ReadResult(ops, error)
  {
    assert ops + [] == ops;
  }

  // A good file is read in full.
  lemma {:induction false} GoodFileIsRead(parse: string -> Option<Op>, ls: seq<FileLine>)
    requires forall l | l in ls :: GoodFileLine(parse, l)
    ensures Reader(parse)(0, FileThen(ls, "")) == ReadResult(RecordsOf(ls), None)
  {
    ReadFileLines(parse, ls, 0, "");
    OntoEnd(RecordsOf(ls), None);
  }

  // The first line that is not a record discards everything and is named.
  lemma {:induction false} BadLineIsNamed(parse: string -> Option<Op>, ls: seq<FileLine>, tail: string)
    requires forall l | l in ls :: GoodFileLine(parse, l)
    requires tail != "" && Bytes(tail[..LineEnd(tail)]) < 16_777_216
    requires DropReturn(tail[..LineEnd(tail)]) != "" && parse(DropReturn(tail[..LineEnd(tail)])).None?
    ensures Reader(parse)(0, FileThen(ls, tail)) == ReadResult([], Some(BadLine(|ls| + 1)))
  {
    ReadFileLines(parse, ls, 0, tail);
    assert ReadFrom(parse, |ls|, tail) == ReadResult([], Some(BadLine(|ls| + 1)));
  }

  // A line of 16 MiB or more ends the reading with the records before it.
  lemma {:induction false} LongLineEndsReading(parse: string -> Option<Op>, ls: seq<FileLine>, tail: string)
    requires forall l | l in ls :: GoodFileLine(parse, l)
    requires tail != "" && 16_777_216 <= Bytes(tail[..LineEnd(tail)])
    ensures Reader(parse)(0, FileThen(ls, tail)) == ReadResult(RecordsOf(ls), Some(TooLong))
  {
    ReadFileLines(parse, ls, 0, tail);
    OntoEnd(RecordsOf(ls), Some(TooLong));
  }
}
