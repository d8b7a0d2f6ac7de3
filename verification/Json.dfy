// The JSON texts this repository writes and reads: flat objects of strings,
// integers, booleans and null, with the string escapes of Go's encoding/json
// (section 7 of RFC 8259). Every printing function takes the text that follows.
module Json {
  import opened Wrappers

  datatype Scalar = Str(text: string) | Num(n: int) | Flag(b: bool) | Null
  datatype Member = Member(name: string, value: Scalar)

  // A parsed value and the text after it.
  datatype Parse<+T> = NoParse | Parsed(value: T, rest: string)

  // ----- Strings -----

  function HexDigit(n: nat): char
    requires n < 16
  {
    if n < 10 then '0' + n as char else 'a' + (n - 10) as char
  }

  function HexValue(c: char): Option<nat> {
    if '0' <= c <= '9' then Some(c as int - '0' as int)
    else if 'a' <= c <= 'f' then Some(c as int - 'a' as int + 10)
    else if 'A' <= c <= 'F' then Some(c as int - 'A' as int + 10)
    else None
  }

  const LINE_SEPARATOR := '\U{2028}'
  const PARAGRAPH_SEPARATOR := '\U{2029}'

  function EscapeChar(c: char): string {
    if c == '\"' then "\\\""
    else if c == '\\' then "\\\\"
    else if c == '\n' then "\\n"
    else if c == '\r' then "\\r"
    else if c == '\t' then "\\t"
    else if c == '\U{0008}' then "\\b"
    else if c == '\U{000C}' then "\\f"
    else if c < ' ' || c == '<' || c == '>' || c == '&' then
      ['\\', 'u', '0', '0', HexDigit(c as int / 16), HexDigit(c as int % 16)]
    else if c == LINE_SEPARATOR then "\\u2028"
    else if c == PARAGRAPH_SEPARATOR then "\\u2029"
    else [c]
  }

  // The escaped characters of s, the closing quote, and the rest.
  function ShowChars(s: string, rest: string): string {
    if s == "" then ['\"'] + rest else EscapeChar(s[0]) + ShowChars(s[1..], rest)
  }

  function ShowString(s: string, rest: string): string {
    ['\"'] + ShowChars(s, rest)
  }

  function HexCode(t: string): Option<nat> {
    if |t| < 4 then None
    else
      match (HexValue(t[0]), HexValue(t[1]), HexValue(t[2]), HexValue(t[3]))
      case (Some(a), Some(b), Some(c), Some(d)) => Some(a * 4096 + b * 256 + c * 16 + d)
      case _ => None
  }

  // The character of an escape, read after its backslash. Unpaired surrogates
  // read as the replacement character.
  function ReadEscape(t: string): (p: Parse<char>)
    ensures p.Parsed? ==> |p.rest| < |t|
  {
    if t == "" then NoParse
    else
      match t[0]
      case '\"' => Parsed('\"', t[1..])
      case '\\' => Parsed('\\', t[1..])
      case '/' => Parsed('/', t[1..])
      case 'b' => Parsed('\U{0008}', t[1..])
      case 'f' => Parsed('\U{000C}', t[1..])
      case 'n' => Parsed('\n', t[1..])
      case 'r' => Parsed('\r', t[1..])
      case 't' => Parsed('\t', t[1..])
      case 'u' =>
        (match HexCode(t[1..])
         case None => NoParse
         case Some(code) =>
           if code < 0xD800 || 0xE000 <= code < 0x10000 then Parsed(code as char, t[5..])
           else ReadPair(code, t[5..]))
      case _ => NoParse
  }

  // The rest of a surrogate pair.
  function ReadPair(high: nat, t: string): (p: Parse<char>)
    ensures p.Parsed? && |p.rest| <= |t|
  {
    if high < 0xDC00 && 0xD800 <= high && |t| >= 6 && t[0] == '\\' && t[1] == 'u' then
      match HexCode(t[2..])
      case Some(low) =>
        if 0xDC00 <= low < 0xE000 then
          Parsed((0x10000 + (high - 0xD800) * 0x400 + (low - 0xDC00)) as char, t[6..])
        else Parsed('\U{FFFD}', t)
      case None => Parsed('\U{FFFD}', t)
    else Parsed('\U{FFFD}', t)
  }

  // The characters up to the closing quote; raw control characters are refused.
  function ReadChars(t: string): (p: Parse<string>)
    ensures p.Parsed? ==> |p.rest| < |t|
    decreases |t|
  {
    if t == "" then NoParse
    else if t[0] == '\"' then Parsed("", t[1..])
    else if t[0] == '\\' then
      match ReadEscape(t[1..])
      case NoParse => NoParse
      case Parsed(c, rest) => Prepend(c, ReadChars(rest))
    else if t[0] < ' ' then NoParse
    else Prepend(t[0], ReadChars(t[1..]))
  }

  function Prepend(c: char, p: Parse<string>): (q: Parse<string>)
    ensures q.Parsed? ==> p.Parsed? && q.rest == p.rest
  {
    match p
    case NoParse => NoParse
    case Parsed(s, rest) => Parsed([c] + s, rest)
  }

  lemma {:induction false} EscapedChar(c: char, t: string)
    ensures ReadChars(EscapeChar(c) + t) == Prepend(c, ReadChars(t))
  {
    var e := EscapeChar(c);
    if |e| == 2 {
      assert (e + t)[1..] == [e[1]] + t;
      assert ([e[1]] + t)[1..] == t;
    } else if |e| == 6 {
      EscapedCode(c, e, t);
    } else {
      assert (e + t)[1..] == t;
    }
  }

  lemma {:induction false} EscapedCode(c: char, e: string, t: string)
    requires e == EscapeChar(c) && |e| == 6
    ensures ReadChars(e + t) == Prepend(c, ReadChars(t))
  {
    var code := c as int;
    var u := e[1..] + t;
    assert (e + t)[1..] == u && u[5..] == t;
    assert u[1..] == e[2..] + t;
    if c != LINE_SEPARATOR && c != PARAGRAPH_SEPARATOR {
      HexPair(code);
    }
    assert HexCode(u[1..]) == Some(code);
  }

  lemma {:induction false} HexPair(code: nat)
    requires code < 256
    ensures HexValue(HexDigit(code / 16)) == Some(code / 16)
    ensures HexValue(HexDigit(code % 16)) == Some(code % 16)
  {
  }

  // Escaping is undone by reading.
  lemma {:induction false} ReadShownChars(s: string, rest: string)
    ensures ReadChars(ShowChars(s, rest)) == Parsed(s, rest)
  {
    if s == "" {
      assert (['\"'] + rest)[1..] == rest;
    } else {
      ReadShownChars(s[1..], rest);
      EscapedChar(s[0], ShowChars(s[1..], rest));
      assert [s[0]] + s[1..] == s;
    }
  }

  // ----- Numbers -----

  predicate IsDigit(c: char) {
    '0' <= c <= '9'
  }

  function Digit(n: nat): char
    requires n < 10
  {
    '0' + n as char
  }

  function PrintNat(n: nat): string {
    if n < 10 then [Digit(n)] else PrintNat(n / 10) + [Digit(n % 10)]
  }

  function PrintInt(n: int): string {
    if n < 0 then ['-'] + PrintNat(-n) else PrintNat(n)
  }

  function DigitCount(t: string): (n: nat)
    ensures n <= |t|
    ensures forall i | 0 <= i < n :: IsDigit(t[i])
  {
    if t != "" && IsDigit(t[0]) then 1 + DigitCount(t[1..]) else 0
  }

  function NatOf(ds: string): nat
    requires forall i | 0 <= i < |ds| :: IsDigit(ds[i])
  {
    if ds == "" then 0
    else
      assert IsDigit(ds[|ds|-1]);
      NatOf(ds[..|ds|-1]) * 10 + (ds[|ds|-1] as int - '0' as int)
  }

  // Digits without a superfluous leading zero.
  function ReadNat(t: string): (p: Parse<nat>)
    ensures p.Parsed? ==> |p.rest| < |t|
  {
    var n := DigitCount(t);
    if n == 0 || (n > 1 && t[0] == '0') then NoParse else Parsed(NatOf(t[..n]), t[n..])
  }

  function ReadInt(t: string): (p: Parse<int>)
    ensures p.Parsed? ==> |p.rest| < |t|
  {
    if t != "" && t[0] == '-' then
      var p := ReadNat(t[1..]);
      if p.NoParse? then NoParse else Parsed(-(p.value as int), p.rest)
    else
      var p := ReadNat(t);
      if p.NoParse? then NoParse else Parsed(p.value as int, p.rest)
  }

  lemma {:induction false} PrintedNat(n: nat)
    ensures var ds := PrintNat(n);
            && |ds| > 0
            && (forall i | 0 <= i < |ds| :: IsDigit(ds[i]))
            && (|ds| > 1 ==> ds[0] != '0')
            && (n > 0 ==> ds[0] != '0')
            && NatOf(ds) == n
  {
    if n >= 10 {
      PrintedNat(n / 10);
      assert PrintNat(n)[..|PrintNat(n)|-1] == PrintNat(n / 10);
    } else {
      assert PrintNat(n) == [Digit(n)];
      assert NatOf([Digit(n)]) == NatOf([Digit(n)][..0]) * 10 + n;
    }
  }

  lemma {:induction false} DigitsEnd(ds: string, rest: string)
    requires forall i | 0 <= i < |ds| :: IsDigit(ds[i])
    requires rest == "" || !IsDigit(rest[0])
    ensures DigitCount(ds + rest) == |ds|
  {
    if ds == "" {
      assert ds + rest == rest;
    } else {
      assert (ds + rest)[1..] == ds[1..] + rest;
      DigitsEnd(ds[1..], rest);
    }
  }

  lemma {:induction false} ReadPrintedNat(n: nat, rest: string)
    requires rest == "" || !IsDigit(rest[0])
    ensures PrintNat(n) != "" && IsDigit(PrintNat(n)[0])
    ensures ReadNat(PrintNat(n) + rest) == Parsed(n, rest)
  {
    var ds := PrintNat(n);
    PrintedNat(n);
    DigitsEnd(ds, rest);
    assert (ds + rest)[..|ds|] == ds && (ds + rest)[|ds|..] == rest;
  }

  lemma {:induction false} ReadUnsigned(ds: string, rest: string)
    requires ds != "" && IsDigit(ds[0])
    ensures var p := ReadNat(ds + rest);
            ReadInt(ds + rest) == if p.NoParse? then NoParse else Parsed(p.value as int, p.rest)
  {
    assert (ds + rest)[0] == ds[0];
  }

  lemma {:induction false} ReadNegative(ds: string, rest: string)
    ensures var p := ReadNat(ds + rest);
            ReadInt((['-'] + ds) + rest) == if p.NoParse? then NoParse else Parsed(-(p.value as int), p.rest)
  {
    var t := (['-'] + ds) + rest;
    assert t[0] == '-' && t[1..] == ds + rest;
  }

  lemma {:induction false} PrintedIntStart(n: int)
    ensures PrintInt(n) != "" && (PrintInt(n)[0] == '-' || IsDigit(PrintInt(n)[0]))
  {
    if n >= 0 {
      PrintedNat(n);
    }
  }

  lemma {:induction false} ReadPrintedInt(n: int, rest: string)
    requires rest == "" || !IsDigit(rest[0])
    ensures ReadInt(PrintInt(n) + rest) == Parsed(n, rest)
  {
    var ds := PrintNat(if n < 0 then -n else n);
    ReadPrintedNat(if n < 0 then -n else n, rest);
    if n < 0 {
      ReadNegative(ds, rest);
    } else {
      ReadUnsigned(ds, rest);
    }
  }

  // ----- Objects -----

  function ShowScalar(v: Scalar, rest: string): string {
    match v
    case Str(s) => ShowString(s, rest)
    case Num(n) => PrintInt(n) + rest
    case Flag(b) => (if b then "true" else "false") + rest
    case Null => "null" + rest
  }

  function ReadScalar(t: string): (p: Parse<Scalar>)
    ensures p.Parsed? ==> |p.rest| < |t|
  {
    if t == "" then NoParse
    else if t[0] == '\"' then
      match ReadChars(t[1..])
      case NoParse => NoParse
      case Parsed(s, rest) => Parsed(Str(s), rest)
    else if "true" <= t then Parsed(Flag(true), t[4..])
    else if "false" <= t then Parsed(Flag(false), t[5..])
    else if "null" <= t then Parsed(Null, t[4..])
    else
      match ReadInt(t)
      case NoParse => NoParse
      case Parsed(n, rest) => Parsed(Num(n), rest)
  }

  function ShowMember(m: Member, rest: string): string {
    ShowString(m.name, [':'] + ShowScalar(m.value, rest))
  }

  // The members, the closing brace, and the rest.
  function ShowMembers(ms: seq<Member>, rest: string): string {
    if ms == [] then ['}'] + rest
    else if |ms| == 1 then ShowMember(ms[0], ['}'] + rest)
    else ShowMember(ms[0], [','] + ShowMembers(ms[1..], rest))
  }

  function ShowObject(ms: seq<Member>, rest: string): string {
    ['{'] + ShowMembers(ms, rest)
  }

  function ReadMember(t: string): (p: Parse<Member>)
    ensures p.Parsed? ==> |p.rest| < |t|
  {
    if t == "" || t[0] != '\"' then NoParse
    else
      match ReadChars(t[1..])
      case NoParse => NoParse
      case Parsed(name, rest) =>
        if rest == "" || rest[0] != ':' then NoParse
        else
          match ReadScalar(rest[1..])
          case NoParse => NoParse
          case Parsed(v, rest') => Parsed(Member(name, v), rest')
  }

  // One or more members and the closing brace.
  function ReadMembers(t: string): Parse<seq<Member>>
    decreases |t|
  {
    match ReadMember(t)
    case NoParse => NoParse
    case Parsed(m, rest) =>
      if rest == "" then NoParse
      else if rest[0] == '}' then Parsed([m], rest[1..])
      else if rest[0] == ',' then
        match ReadMembers(rest[1..])
        case NoParse => NoParse
        case Parsed(ms, rest') => Parsed([m] + ms, rest')
      else NoParse
  }

  function ReadObject(t: string): Parse<seq<Member>> {
    if t == "" || t[0] != '{' then NoParse
    else if |t| > 1 && t[1] == '}' then Parsed([], t[2..])
    else ReadMembers(t[1..])
  }

  lemma {:induction false} ReadShownString(s: string, rest: string)
    ensures ReadScalar(ShowString(s, rest)) == Parsed(Str(s), rest)
  {
    assert ShowString(s, rest)[1..] == ShowChars(s, rest);
    ReadShownChars(s, rest);
  }

  lemma {:induction false} NumberScalar(t: string)
    requires t != "" && (t[0] == '-' || IsDigit(t[0]))
    ensures ReadScalar(t) ==
            if ReadInt(t).NoParse? then NoParse else Parsed(Num(ReadInt(t).value), ReadInt(t).rest)
  {
    assert "true"[0] == 't' && "false"[0] == 'f' && "null"[0] == 'n';
  }

  lemma {:induction false} ReadShownNumber(n: int, rest: string)
    requires rest == "" || !IsDigit(rest[0])
    ensures ReadScalar(PrintInt(n) + rest) == Parsed(Num(n), rest)
  {
    ReadPrintedInt(n, rest);
    PrintedIntStart(n);
    assert (PrintInt(n) + rest)[0] == PrintInt(n)[0];
    NumberScalar(PrintInt(n) + rest);
  }

  lemma {:induction false} ReadShownWord(v: Scalar, rest: string)
    requires v.Flag? || v.Null?
    ensures ReadScalar(ShowScalar(v, rest)) == Parsed(v, rest)
  {
    var word := if v == Flag(true) then "true" else if v == Flag(false) then "false" else "null";
    assert (word + rest)[|word|..] == rest;
  }

  lemma {:induction false} ReadShownScalar(v: Scalar, rest: string)
    requires rest == "" || !IsDigit(rest[0])
    ensures ReadScalar(ShowScalar(v, rest)) == Parsed(v, rest)
  {
    match v
    case Str(s) => ReadShownString(s, rest);
    case Num(n) => ReadShownNumber(n, rest);
    case _ => ReadShownWord(v, rest);
  }

  lemma {:induction false} ReadShownMember(m: Member, rest: string)
    requires rest == "" || !IsDigit(rest[0])
    ensures ReadMember(ShowMember(m, rest)) == Parsed(m, rest)
  {
    var tail := [':'] + ShowScalar(m.value, rest);
    assert ShowMember(m, rest)[1..] == ShowChars(m.name, tail);
    ReadShownChars(m.name, tail);
    assert tail[1..] == ShowScalar(m.value, rest);
    ReadShownScalar(m.value, rest);
  }

  lemma {:induction false} ReadLastMember(m: Member, rest: string)
    ensures ReadMembers(ShowMember(m, ['}'] + rest)) == Parsed([m], rest)
  {
    ReadShownMember(m, ['}'] + rest);
    assert (['}'] + rest)[1..] == rest;
  }

  lemma {:induction false} ReadOneMore(m: Member, next: string)
    ensures ReadMembers(ShowMember(m, [','] + next)) ==
            if ReadMembers(next).NoParse? then NoParse
            else Parsed([m] + ReadMembers(next).value, ReadMembers(next).rest)
  {
    ReadShownMember(m, [','] + next);
    assert ([','] + next)[1..] == next;
  }

  lemma {:induction false} ReadShownMembers(ms: seq<Member>, rest: string)
    requires ms != []
    ensures ReadMembers(ShowMembers(ms, rest)) == Parsed(ms, rest)
  {
    if |ms| == 1 {
      ReadLastMember(ms[0], rest);
      assert [ms[0]] == ms;
    } else {
      ReadShownMembers(ms[1..], rest);
      ReadOneMore(ms[0], ShowMembers(ms[1..], rest));
      assert [ms[0]] + ms[1..] == ms;
    }
  }

  // Reading an object undoes printing it, whatever follows.
  lemma {:induction false} ReadShownObject(ms: seq<Member>, rest: string)
    ensures ReadObject(ShowObject(ms, rest)) == Parsed(ms, rest)
  {
    var t := ShowObject(ms, rest);
    assert t[1..] == ShowMembers(ms, rest);
    if ms == [] {
      assert t[2..] == rest;
    } else {
      assert t[1] == '\"';
      ReadShownMembers(ms, rest);
    }
  }

  // A raw control character is refused wherever it stands in a string.
  lemma {:induction false} RawControlIsRefused(s: string, c: char, t: string)
    requires c < ' ' && Plain(s) && forall i | 0 <= i < |s| :: s[i] != '\"' && s[i] != '\\'
    ensures ReadChars(s + ([c] + t)).NoParse?
  {
    if s == "" {
      assert "" + ([c] + t) == [c] + t;
    } else {
      assert (s + ([c] + t))[1..] == s[1..] + ([c] + t);
      RawControlIsRefused(s[1..], c, t);
    }
  }

  // Every escape of section 7 of RFC 8259 is read, also those that are never printed.
  lemma {:induction false} ReadsShortEscapes(t: string)
    ensures ReadEscape(['\"'] + t) == Parsed('\"', t) && ReadEscape(['\\'] + t) == Parsed('\\', t)
    ensures ReadEscape(['/'] + t) == Parsed('/', t)
    ensures ReadEscape(['b'] + t) == Parsed('\U{0008}', t) && ReadEscape(['f'] + t) == Parsed('\U{000C}', t)
    ensures ReadEscape(['n'] + t) == Parsed('\n', t) && ReadEscape(['r'] + t) == Parsed('\r', t)
    ensures ReadEscape(['t'] + t) == Parsed('\t', t)
  {
  }

  // The four digits of a code, in either case.
  function Hex4(code: nat): string
    requires code < 0x10000
  {
    [HexDigit(code / 4096), HexDigit(code / 256 % 16), HexDigit(code / 16 % 16), HexDigit(code % 16)]
  }

  function UpperHex(c: char): char {
    if 'a' <= c <= 'f' then c - 'a' + 'A' else c
  }

  ghost predicate ShowsCode(d: string, code: nat) {
    && code < 0x10000 && |d| == 4
    && forall i | 0 <= i < 4 :: d[i] == Hex4(code)[i] || d[i] == UpperHex(Hex4(code)[i])
  }

  lemma {:induction false} HexReads(n: nat)
    requires n < 16
    ensures HexValue(HexDigit(n)) == HexValue(UpperHex(HexDigit(n))) == Some(n)
  {
  }

  lemma {:induction false} ReadsHexCode(d: string, code: nat, t: string)
    requires ShowsCode(d, code)
    ensures HexCode(d + t) == Some(code)
  {
    var digits := [code / 4096, code / 256 % 16, code / 16 % 16, code % 16];
    forall i | 0 <= i < 4 ensures HexValue((d + t)[i]) == Some(digits[i]) {
      assert Hex4(code)[i] == HexDigit(digits[i]);
      HexReads(digits[i]);
    }
    DigitsSum(code);
  }

  lemma {:induction false} DigitsSum(code: nat)
    requires code < 0x10000
    ensures code / 4096 * 4096 + code / 256 % 16 * 256 + code / 16 % 16 * 16 + code % 16 == code
  {
    assert code / 4096 == code / 256 / 16 && code / 256 == code / 16 / 16;
  }

  lemma {:induction false} ReadsCode(d: string, code: nat, t: string)
    requires ShowsCode(d, code) && !(0xD800 <= code < 0xE000)
    ensures ReadEscape(['u'] + (d + t)) == Parsed(code as char, t)
  {
    ReadsHexCode(d, code, t);
    assert (['u'] + (d + t))[1..] == d + t;
    assert (['u'] + (d + t))[5..] == t;
  }

  // A character beyond the 16-bit codes, as its two surrogates.
  lemma {:induction false} ReadsSurrogates(c: char, d: string, e: string, t: string)
    requires 0x10000 <= c as int
    requires ShowsCode(d, 0xD800 + (c as int - 0x10000) / 0x400) && ShowsCode(e, 0xDC00 + (c as int - 0x10000) % 0x400)
    ensures ReadEscape(['u'] + (d + ("\\u" + (e + t)))) == Parsed(c, t)
  {
    var high := 0xD800 + (c as int - 0x10000) / 0x400;
    var next := "\\u" + (e + t);
    ReadsHighSurrogate(d, high, next);
    ReadsLowSurrogate(c, e, t);
  }

  lemma {:induction false} ReadsHighSurrogate(d: string, code: nat, t: string)
    requires ShowsCode(d, code) && 0xD800 <= code < 0xE000
    ensures ReadEscape(['u'] + (d + t)) == ReadPair(code, t)
  {
    ReadsHexCode(d, code, t);
    assert (['u'] + (d + t))[1..] == d + t;
    assert (['u'] + (d + t))[5..] == t;
  }

  lemma {:induction false} ReadsLowSurrogate(c: char, e: string, t: string)
    requires 0x10000 <= c as int && ShowsCode(e, 0xDC00 + (c as int - 0x10000) % 0x400)
    ensures ReadPair(0xD800 + (c as int - 0x10000) / 0x400, "\\u" + (e + t)) == Parsed(c, t)
  {
    var next := "\\u" + (e + t);
    ReadsHexCode(e, 0xDC00 + (c as int - 0x10000) % 0x400, t);
    assert next[2..] == e + t && next[6..] == t;
  }

  // ----- No raw control characters -----

  // Neither a control character nor one that Go's encoder escapes for HTML.
  predicate Plain(s: string) {
    forall i | 0 <= i < |s| :: ' ' <= s[i] && !EscapedForHtml(s[i])
  }

  predicate EscapedForHtml(c: char) {
    c == '<' || c == '>' || c == '&' || c == '\U{2028}' || c == '\U{2029}'
  }

  lemma {:induction false} PlainConcat(a: string, b: string)
    requires Plain(a) && Plain(b)
    ensures Plain(a + b)
  {
  }

  lemma {:induction false} ShownCharsArePlain(s: string, rest: string)
    requires Plain(rest)
    ensures Plain(ShowChars(s, rest)) && Plain(ShowString(s, rest))
  {
    if s == "" {
    } else {
      ShownCharsArePlain(s[1..], rest);
      PlainConcat(EscapeChar(s[0]), ShowChars(s[1..], rest));
    }
  }

  lemma {:induction false} ShownMemberIsPlain(m: Member, rest: string)
    requires Plain(rest)
    ensures Plain(ShowMember(m, rest))
  {
    var tail := ShowScalar(m.value, rest);
    match m.value {
      case Str(s) => ShownCharsArePlain(s, rest);
      case Num(n) => PrintedNat(if n < 0 then -n else n);
      case _ =>
    }
    assert Plain(tail);
    ShownCharsArePlain(m.name, [':'] + tail);
  }

  // What is printed contains no raw line break, so that every record stays on its
  // line, and nothing that HTML gives a meaning to.
  lemma {:induction false} ShownMembersArePlain(ms: seq<Member>, rest: string)
    requires Plain(rest)
    ensures Plain(ShowMembers(ms, rest)) && Plain(ShowObject(ms, rest))
  {
    if ms == [] {
    } else {
      var tail := if |ms| == 1 then ['}'] + rest else [','] + ShowMembers(ms[1..], rest);
      ShownMembersArePlain(ms[1..], rest);
      ShownMemberIsPlain(ms[0], tail);
    }
  }

  // ----- The text of an object -----

  function Quoted(s: string): string {
    ShowString(s, "")
  }

  function ScalarText(v: Scalar): string {
    match v
    case Str(s) => Quoted(s)
    case Num(n) => PrintInt(n)
    case Flag(b) => if b then "true" else "false"
    case Null => "null"
  }

  // A field: the quoted name, a colon, the value.
  function Field(name: string, value: string): string {
    Quoted(name) + ":" + value
  }

  // Fields as they follow another one.
  function Following(ms: seq<Member>): string {
    if ms == [] then "" else "," + Field(ms[0].name, ScalarText(ms[0].value)) + Following(ms[1..])
  }

  lemma {:induction false} FollowingConcat(a: seq<Member>, b: seq<Member>)
    ensures Following(a + b) == Following(a) + Following(b)
  {
    if a == [] {
      assert a + b == b;
    } else {
      assert (a + b)[1..] == a[1..] + b;
      FollowingConcat(a[1..], b);
    }
  }

  lemma {:induction false} CharsThenRest(s: string, rest: string)
    ensures ShowChars(s, rest) == ShowChars(s, "") + rest
  {
    if s == "" {
    } else {
      CharsThenRest(s[1..], rest);
    }
  }

  lemma {:induction false} MemberText(m: Member, rest: string)
    ensures ShowMember(m, rest) == Field(m.name, ScalarText(m.value)) + rest
  {
    var value := ShowScalar(m.value, rest);
    assert value == ScalarText(m.value) + rest by {
      if m.value.Str? {
        CharsThenRest(m.value.text, rest);
      }
    }
    CharsThenRest(m.name, [':'] + value);
    Join(ShowChars(m.name, ""), ":", ScalarText(m.value), rest);
  }

  lemma {:induction false} Join(a: string, b: string, c: string, d: string)
    ensures ['\"'] + (a + (b + (c + d))) == ['\"'] + a + b + c + d
  {
  }

  lemma {:induction false} MembersText(m: Member, ms: seq<Member>)
    ensures ShowMembers([m] + ms, "") == Field(m.name, ScalarText(m.value)) + (Following(ms) + "}")
    decreases |ms|
  {
    assert ([m] + ms)[1..] == ms;
    if ms == [] {
      MemberText(m, ['}'] + "");
    } else {
      MembersText(ms[0], ms[1..]);
      assert [ms[0]] + ms[1..] == ms;
      MemberText(m, [','] + ShowMembers(ms, ""));
      Associate(Field(ms[0].name, ScalarText(ms[0].value)), Following(ms[1..]));
    }
  }

  lemma {:induction false} Associate(a: string, b: string)
    ensures [','] + (a + (b + "}")) == "," + a + b + "}"
  {
  }
}
