// internal/kv: the commands that travel through the replicated log, and what
// applying one of them does to the store.
module Kv {
  import opened Wrappers

  // The Go field is a string; the four declared names are the ones the server
  // ever proposes, every other text is kept in Other.
  datatype OpKind = Put | Get | Delete | Cas | Other(name: string) {
    predicate Declared() { !Other? }
    predicate Mutates() { Put? || Delete? || Cas? }
  }

  datatype Command = Command(op: OpKind, key: string, value: string, expected: Option<string>)

  datatype Result = Result(ok: bool, present: bool, value: string)

  // FSM.Apply panics on an op outside the declared four.
  datatype Response = Reply(res: Result) | Panic

  type Store = map<string, string>

  // An entry of the committed log: Raft's own no-ops never reach the FSM.
  datatype Entry = NoOp | Cmd(cmd: Command)

  // cas: a nil expectation asks for an absent key.
  predicate Matches(m: Store, key: string, expected: Option<string>) {
    match expected
    case None => key !in m
    case Some(v) => key in m && m[key] == v
  }

  // The store after a command.
  function After(m: Store, c: Command): Store {
    match c.op
    case Put => m[c.key := c.value]
    case Get => m
    case Delete => m - {c.key}
    case Cas => if Matches(m, c.key, c.expected) then m[c.key := c.value] else m
    case Other(_) => m
  }

  function Lookup(m: Store, key: string): Option<string> {
    if key in m then Some(m[key]) else None
  }

  // What the caller of the command is told.
  function Respond(m: Store, c: Command): Response {
    var held := if c.key in m then m[c.key] else "";
    match c.op
    case Put => Reply(Result(true, false, ""))
    case Get => Reply(Result(true, c.key in m, held))
    case Delete => Reply(Result(true, c.key in m, ""))
    case Cas =>
      if Matches(m, c.key, c.expected) then Reply(Result(true, false, ""))
      else Reply(Result(false, c.key in m, held))
    case Other(_) => Panic
  }

  // The log that a list stands for, each element by its entry.
  function LogOf<T>(entry: T -> Entry, s: seq<T>): (log: seq<Entry>)
    ensures |log| == |s|
    ensures forall i :: 0 <= i < |s| ==> log[i] == entry(s[i])
  {
    seq(|s|, i requires 0 <= i < |s| => entry(s[i]))
  }

  function AfterEntry(m: Store, e: Entry): Store {
    match e
    case NoOp => m
    case Cmd(c) => After(m, c)
  }

  // The meaning of a log: the fold of Apply over its entries.
  function Replay(m: Store, log: seq<Entry>): Store {
    if log == [] then m
    else AfterEntry(Replay(m, log[..|log|-1]), log[|log|-1])
  }

  // Replaying a log is replaying a prefix and then the rest: what restarting
  // from a snapshot relies on.
  lemma {:induction false} ReplayConcat(m: Store, a: seq<Entry>, b: seq<Entry>)
    ensures Replay(m, a + b) == Replay(Replay(m, a), b)
  {
    if b == [] {
      assert a + b == a;
    } else {
      assert (a + b)[..|a + b| - 1] == a + b[..|b| - 1];
      ReplayConcat(m, a, b[..|b| - 1]);
    }
  }

  // One more entry.
  lemma {:induction false} ReplaySnoc(m: Store, log: seq<Entry>, e: Entry)
    ensures Replay(m, log + [e]) == AfterEntry(Replay(m, log), e)
  {
    assert (log + [e])[..|log|] == log;
  }

  // A command changes no key but its own.
  lemma {:induction false} AfterIsLocal(m: Store, c: Command, k: string)
    requires k != c.key
    ensures Lookup(After(m, c), k) == Lookup(m, k)
  {
  }

  // Position i of a log holds a cas that wins there.
  predicate Wins(m: Store, log: seq<Entry>, i: nat)
    requires i < |log|
  {
    && log[i].Cmd?
    && log[i].cmd.op.Cas?
    && Matches(Replay(m, log[..i]), log[i].cmd.key, log[i].cmd.expected)
  }

  // An entry after which `key` may again hold what `expected` asks for.
  predicate CanEstablish(e: Entry, key: string, expected: Option<string>) {
    && e.Cmd?
    && e.cmd.key == key
    && match expected
       case None => e.cmd.op.Delete?
       case Some(v) => (e.cmd.op.Put? || e.cmd.op.Cas?) && e.cmd.value == v
  }

  // If an expectation fails at position i and holds at a later position j, an
  // entry in between established it, and did so by taking effect.
  lemma {:induction false} Established(m: Store, log: seq<Entry>, i: nat, j: nat, key: string, expected: Option<string>)
    returns (l: nat)
    requires i <= j <= |log|
    requires !Matches(Replay(m, log[..i]), key, expected)
    requires Matches(Replay(m, log[..j]), key, expected)
    ensures i <= l < j
    ensures CanEstablish(log[l], key, expected)
    ensures log[l].cmd.op.Cas? ==> Wins(m, log, l)
  {
    var n := j - 1;
    assert log[..j] == log[..n] + [log[n]];
    ReplaySnoc(m, log[..n], log[n]);
    if Matches(Replay(m, log[..n]), key, expected) {
      l := Established(m, log, i, n, key, expected);
    } else {
      l := n;
    }
  }

  // CAS winners are separated: between two winning cas on one key with one
  // expectation, the first of which wrote something else, some entry
  // re-established the expected value.
  lemma {:induction false} WinnersAreSeparated(m: Store, log: seq<Entry>, i: nat, j: nat) returns (l: nat)
    requires i < j < |log|
    requires Wins(m, log, i) && Wins(m, log, j)
    requires log[i].cmd.key == log[j].cmd.key && log[i].cmd.expected == log[j].cmd.expected
    requires log[i].cmd.expected != Some(log[i].cmd.value)
    ensures i < l < j
    ensures CanEstablish(log[l], log[i].cmd.key, log[i].cmd.expected)
    ensures log[l].cmd.op.Cas? ==> Wins(m, log, l)
  {
    assert log[..i + 1] == log[..i] + [log[i]];
    ReplaySnoc(m, log[..i], log[i]);
    l := Established(m, log, i + 1, j, log[i].cmd.key, log[i].cmd.expected);
  }

  // Position i of a log sets key k: a put, a delete or a winning cas.
  predicate Writes(m: Store, log: seq<Entry>, i: nat, k: string)
    requires i < |log|
  {
    && log[i].Cmd?
    && log[i].cmd.key == k
    && (log[i].cmd.op.Put? || log[i].cmd.op.Delete? || Wins(m, log, i))
  }

  // What a command that sets its key leaves there.
  function Written(c: Command): Option<string> {
    if c.op.Delete? then None else Some(c.value)
  }

  // The value of a key is what the last entry that set it wrote, if any did.
  lemma {:induction false} LastWrite(m: Store, log: seq<Entry>, j: nat, k: string) returns (l: int)
    requires j <= |log|
    ensures -1 <= l < j
    ensures forall q: nat | l < q < j :: !Writes(m, log, q, k)
    ensures l < 0 ==> Lookup(Replay(m, log[..j]), k) == Lookup(m, k)
    ensures 0 <= l ==> Writes(m, log, l, k) && Lookup(Replay(m, log[..j]), k) == Written(log[l].cmd)
  {
    if j == 0 {
      return -1;
    }
    var n := j - 1;
    assert log[..j] == log[..n] + [log[n]];
    ReplaySnoc(m, log[..n], log[n]);
    if Writes(m, log, n, k) {
      l := n;
    } else {
      l := LastWrite(m, log, n, k);
    }
  }

  // A command's effect on its key and its answer depend on that key alone.
  lemma {:induction false} OnlyItsKey(m: Store, m': Store, c: Command)
    requires Lookup(m, c.key) == Lookup(m', c.key)
    ensures Lookup(After(m, c), c.key) == Lookup(After(m', c), c.key)
    ensures Respond(m, c) == Respond(m', c)
  {
  }

  // What every answer tells of the key before the command: only a cas is ever
  // refused, and that exactly if the key does not hold what it expects; gets, deletes
  // and lost cas report whether the key existed, and all but deletes its value.
  lemma {:induction false} AnswersTell(m: Store, c: Command)
    requires c.op.Declared()
    ensures Respond(m, c).Reply?
    ensures Tells(Respond(m, c).res, c, Lookup(m, c.key))
  {
  }

  predicate Tells(r: Result, c: Command, held: Option<string>) {
    && (r.ok <==> !(c.op.Cas? && c.expected != held))
    && (r.present <==> held.Some? && (c.op.Get? || c.op.Delete? || !r.ok))
    && r.value == (if r.present && !c.op.Delete? then held.value else "")
  }

  // An undeclared op panics.
  lemma {:induction false} OnlyDeclaredAnswer(m: Store, c: Command)
    ensures Respond(m, c).Reply? <==> c.op.Declared()
    ensures !c.op.Declared() ==> After(m, c) == m
  {
  }

  // A delete reports what a get in its place would.
  lemma {:induction false} DeleteReportsAsGet(m: Store, key: string)
    ensures Respond(m, Command(Delete, key, "", None)).res.present ==
            Respond(m, Command(Get, key, "", None)).res.present
  {
  }

  // In every log a delete reports that the key existed exactly if the last entry
  // before it that set the key was a put or a winning cas, or there was none and the
  // key was there from the start.
  lemma {:induction false} DeleteReports(m: Store, log: seq<Entry>, j: nat) returns (l: int)
    requires j < |log| && log[j].Cmd? && log[j].cmd.op.Delete?
    ensures -1 <= l < j
    ensures forall q: nat | l < q < j :: !Writes(m, log, q, log[j].cmd.key)
    ensures 0 <= l ==> Writes(m, log, l, log[j].cmd.key)
    ensures Respond(Replay(m, log[..j]), log[j].cmd).Reply?
    ensures Respond(Replay(m, log[..j]), log[j].cmd).res.present <==>
            if 0 <= l then log[l].cmd.op.Put? || log[l].cmd.op.Cas? else log[j].cmd.key in m
  {
    l := LastWrite(m, log, j, log[j].cmd.key);
  }
}
