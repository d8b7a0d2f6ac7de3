// internal/kv/fsm.go: the state machine as an object over a map that it updates
// in place, with snapshots that are copies.
module Fsm {
  import opened Wrappers
  import opened Json
  import opened Kv
  import opened Codec

  // A Go map: what is passed around is a reference to it.
  class GoMap {
    var m: Store

    constructor ()
      ensures m == map[]
    {
      m := map[];
    }
  }

  // One member of a snapshot stored into the map; Go reads null as the zero value.
  function StoreEntry(m: Store, e: Member): Option<Store> {
    match e.value
    case Str(s) => Some(m[e.name := s])
    case Null => Some(m[e.name := ""])
    case _ => None
  }

  // The map of a snapshot stream; what follows the object is not read.
  function DecodeStore(t: string): Option<Store> {
    match ReadObject(t)
    case NoParse => None
    case Parsed(ms, _) => StoreAll(StoreEntry, map[], ms)
  }

  // The value that the last member with this name gives a key; null gives "".
  function GivenIn(ms: seq<Member>, key: string, former: Option<string>): Option<string> {
    if ms == [] then former
    else
      GivenIn(ms[1..], key,
        if ms[0].name != key then former else if ms[0].value.Str? then Some(ms[0].value.text) else Some(""))
  }

  lemma {:induction false} StoredIs(m: Store, ms: seq<Member>)
    ensures StoreAll(StoreEntry, m, ms).Some? <==> forall e | e in ms :: e.value.Str? || e.value.Null?
    ensures StoreAll(StoreEntry, m, ms).Some? ==>
              forall k :: Lookup(StoreAll(StoreEntry, m, ms).value, k) == GivenIn(ms, k, Lookup(m, k))
    decreases |ms|
  {
    if ms == [] {
    } else {
      assert ms == [ms[0]] + ms[1..];
      if ms[0].value.Str? || ms[0].value.Null? {
        StoredIs(StoreEntry(m, ms[0]).value, ms[1..]);
      }
    }
  }

  // Any flat object as a snapshot: it is read exactly if all its values are texts or
  // null, and nothing of an earlier state is in what is read.
  lemma {:induction false} SnapshotRead(ms: seq<Member>, rest: string)
    ensures DecodeStore(ShowObject(ms, rest)).Some? <==> forall e | e in ms :: e.value.Str? || e.value.Null?
    ensures DecodeStore(ShowObject(ms, rest)).Some? ==>
              forall k :: Lookup(DecodeStore(ShowObject(ms, rest)).value, k) == GivenIn(ms, k, None)
  {
    ReadShownObject(ms, rest);
    StoredIs(map[], ms);
  }

  ghost predicate Shows(text: string, m: Store) {
    DecodeStore(text) == Some(m)
  }

  // How a snapshot ends: kept, written but not closed, or given up.
  datatype Persisted = Saved | Unclosed | Cancelled

  class FSMSnapshot {
    const state: GoMap

    constructor (state: GoMap)
      ensures this.state == state
    {
      this.state := state;
    }

    // The map as one object and a line break, key by key.
    method Print() returns (text: string)
      ensures DecodeStore(text) == Some(state.m)
    {
      var ms: seq<Member> := [];
      var left := state.m.Keys;
      while left != {}
        invariant left <= state.m.Keys
        invariant StoreAll(StoreEntry, map[], ms) == Some(map k | k in state.m && k !in left :: state.m[k])
        decreases left
      {
        var k :| k in left;
        ghost var done: Store := map j | j in state.m && j !in left :: state.m[j];
        var e := Member(k, Str(state.m[k]));
        StoreParts(StoreEntry, map[], ms, [e]);
        StoreOne(StoreEntry, done, e);
        ms := ms + [e];
        left := left - {k};
        assert done[k := state.m[k]] == map j | j in state.m && j !in left :: state.m[j];
      }
      assert (map k | k in state.m && k !in left :: state.m[k]) == state.m;
      text := ShowObject(ms, ['\n']);
      ReadShownObject(ms, ['\n']);
    }

    // Writes the map in one piece; a sink that does not take it is cancelled.
    // `closes` is what closing the sink comes to.
    method Persist(sink: Stream, closes: bool) returns (r: Persisted)
      modifies sink
      ensures exists text :: Shows(text, state.m)
                && sink.text == Clip(old(sink.text) + text, sink.room)
                && r == (if |old(sink.text)| + |text| > sink.room then Cancelled else if closes then Saved else Unclosed)
      ensures r.Saved? && old(sink.text) == "" ==> Shows(sink.text, state.m)
    {
      var text := Print();
      assert Shows(text, state.m);
      assert "" + text == text;
      var ok := sink.Write(text);
      if !ok {
        return Cancelled;
      }
      return if closes then Saved else Unclosed;
    }
  }

  class FSM {
    var data: GoMap

    constructor ()
      ensures fresh(data) && data.m == map[]
    {
      data := new GoMap();
    }

    // Executes the log entry with this text. An entry that does not decode, or one
    // with an undeclared op, panics and changes nothing.
    method Apply(entry: string) returns (r: Response)
      modifies data
      ensures DecodeCommand(entry).None? ==> data.m == old(data.m) && r == Panic
      ensures DecodeCommand(entry).Some? ==>
                && data.m == After(old(data.m), DecodeCommand(entry).value)
                && r == Respond(old(data.m), DecodeCommand(entry).value)
      ensures r.Reply? ==> Tells(r.res, DecodeCommand(entry).value, Lookup(old(data.m), DecodeCommand(entry).value.key))
    {
      var decoded := DecodeCommand(entry);
      if decoded.None? {
        return Panic;
      }
      var cmd := decoded.value;
      match cmd.op {
        case Put =>
          data.m := data.m[cmd.key := cmd.value];
          r := Reply(Result(true, false, ""));
        case Get =>
          var present := cmd.key in data.m;
          r := Reply(Result(true, present, if present then data.m[cmd.key] else ""));
        case Delete =>
          var existed := cmd.key in data.m;
          data.m := data.m - {cmd.key};
          r := Reply(Result(true, existed, ""));
        case Cas =>
          var present := cmd.key in data.m;
          var cur := if present then data.m[cmd.key] else "";
          var matches := (cmd.expected.None? && !present) ||
            (cmd.expected.Some? && present && cur == cmd.expected.value);
          if matches {
            data.m := data.m[cmd.key := cmd.value];
            r := Reply(Result(true, false, ""));
          } else {
            r := Reply(Result(false, present, cur));
          }
        case Other(_) =>
          r := Panic;
      }
    }

    // A copy of the map, in an object of its own.
    method Dump() returns (out: GoMap)
      ensures fresh(out) && out.m == data.m
    {
      out := new GoMap();
      var left := data.m.Keys;
      while left != {}
        invariant fresh(out)
        invariant left <= data.m.Keys
        invariant out.m == map k | k in data.m && k !in left :: data.m[k]
        decreases left
      {
        var k :| k in left;
        out.m := out.m[k := data.m[k]];
        left := left - {k};
      }
    }

    method Snapshot() returns (s: FSMSnapshot)
      ensures fresh(s) && fresh(s.state) && s.state.m == data.m
    {
      var copy := Dump();
      s := new FSMSnapshot(copy);
    }

    // Replaces the map by the one in the stream; a stream that does not parse
    // leaves everything as it was.
    method Restore(text: string) returns (ok: bool)
      modifies this
      ensures ok <==> DecodeStore(text).Some?
      ensures ok ==> fresh(data) && data.m == DecodeStore(text).value
      ensures !ok ==> data == old(data)
    {
      var decoded := DecodeStore(text);
      ok := decoded.Some?;
      if ok {
        data := new GoMap();
        data.m := decoded.value;
      }
    }
  }

  function Proposed(c: Command): Entry {
    Cmd(c)
  }

  function Entries(cs: seq<Command>): seq<Entry> {
    LogOf(Proposed, cs)
  }

  // The answers of a store to commands given one after the other.
  function Responses(m: Store, cs: seq<Command>): seq<Response> {
    if cs == [] then []
    else Responses(m, cs[..|cs|-1]) + [Respond(Replay(m, Entries(cs[..|cs|-1])), cs[|cs|-1])]
  }

  lemma {:induction false} ResponsesSnoc(m: Store, cs: seq<Command>, c: Command)
    ensures Responses(m, cs + [c]) == Responses(m, cs) + [Respond(Replay(m, Entries(cs)), c)]
    ensures Replay(m, Entries(cs + [c])) == After(Replay(m, Entries(cs)), c)
  {
    assert (cs + [c])[..|cs|] == cs;
    assert Entries(cs + [c]) == Entries(cs) + [Cmd(c)];
    ReplaySnoc(m, Entries(cs), Cmd(c));
  }

  // From m, the commands cs lead to this state and give these answers.
  ghost predicate Follows(m: Store, cs: seq<Command>, state: Store, rs: seq<Response>) {
    state == Replay(m, Entries(cs)) && rs == Responses(m, cs)
  }

  // One entry more of the log, as encoded in it, applied to an FSM.
  method ApplyNext(f: FSM, ghost m: Store, ghost done: seq<Command>, rs: seq<Response>, c: Command)
    returns (rs': seq<Response>)
    requires Canonical(c.op) && Follows(m, done, f.data.m, rs)
    modifies f.data
    ensures Follows(m, done + [c], f.data.m, rs')
  {
    DecodeEncoded(c);
    ResponsesSnoc(m, done, c);
    var r := f.Apply(Encode(c));
    rs' := rs + [r];
  }

  // Raft's use of the FSM: the entries one by one.
  method ApplyAll(f: FSM, cs: seq<Command>) returns (rs: seq<Response>)
    requires forall c | c in cs :: Canonical(c.op)
    modifies f.data
    ensures Follows(old(f.data.m), cs, f.data.m, rs)
  {
    rs := [];
    ghost var m, done: seq<Command> := f.data.m, [];
    for i := 0 to |cs|
      invariant f.data == old(f.data)
      invariant done == cs[..i] && Follows(m, done, f.data.m, rs)
    {
      rs := ApplyNext(f, m, done, rs, cs[i]);
      done := done + [cs[i]];
    }
    assert done == cs;
  }

  // A new FSM from a snapshot of m and the entries after it.
  method Restart(text: string, ghost m: Store, suffix: seq<Command>) returns (g: FSM, rs: seq<Response>)
    requires forall c | c in suffix :: Canonical(c.op)
    requires Shows(text, m)
    ensures fresh(g) && fresh(g.data) && Follows(m, suffix, g.data.m, rs)
  {
    g := new FSM();
    var ok := g.Restore(text);
    rs := ApplyAll(g, suffix);
  }

  // Snapshot isolation and recovery: entries applied between Snapshot and Persist
  // do not reach the snapshot, and if it was saved, a new FSM that restores it and
  // replays those entries ends in the same state and gives the same answers.
  method Recover(f: FSM, suffix: seq<Command>, sink: Stream, closes: bool)
    returns (r: Persisted, g: FSM, live: seq<Response>, replayed: seq<Response>)
    requires forall c | c in suffix :: Canonical(c.op)
    requires sink.text == ""
    modifies f.data, sink
    ensures Follows(old(f.data.m), suffix, f.data.m, live)
    ensures fresh(g) && fresh(g.data)
    ensures r.Saved? ==> Follows(old(f.data.m), suffix, g.data.m, replayed)
    ensures r.Saved? ==> g.data.m == f.data.m && replayed == live
  {
    var s := f.Snapshot();
    live := ApplyAll(f, suffix);
    r := s.Persist(sink, closes);
    if r.Saved? {
      g, replayed := Restart(sink.text, old(f.data.m), suffix);
    } else {
      g := new FSM();
      replayed := [];
    }
  }

  // Replaying the suffix from a snapshot of the prefix gives, at every later
  // position, the state and the answer that replaying the whole log gives.
  lemma {:induction false} RecoveryIsReplay(m: Store, log: seq<Entry>, i: nat, j: nat, c: Command)
    requires i <= j <= |log|
    ensures Replay(Replay(m, log[..i]), log[i..j]) == Replay(m, log[..j])
    ensures Respond(Replay(Replay(m, log[..i]), log[i..j]), c) == Respond(Replay(m, log[..j]), c)
  {
    assert log[..j] == log[..i] + log[i..j];
    ReplayConcat(m, log[..i], log[i..j]);
  }
}
