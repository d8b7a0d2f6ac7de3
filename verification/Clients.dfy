// internal/harness/client.go: how one attempt is classified, the retry loop of
// one logical operation, and what the client records and remembers.
module Clients {
  import opened Wrappers
  import opened Kv
  import opened History

  // The error codes servers answer with.
  datatype ErrorCode = NoLeader | NotLeader | BadRequest | Internal | ApplyFailed | ProxyFailed | OtherCode(text: string)

  // Errors of the transport, as far as the client tells them apart.
  datatype NetError = ConnRefused | HostUnreachable | NetUnreachable | DialError | OtherError

  predicate IsDefinitelyNotSent(e: NetError) {
    !e.OtherError?
  }

  // What one HTTP exchange came to: no response, an unreadable body, a 200 (None if
  // its body does not parse), or another status with the code found in its body.
  datatype Exchange =
    | NoResponse(error: NetError)
    | Unreadable
    | Okay(body: Option<Result>)
    | Refused(code: ErrorCode)

  datatype AttemptResult = AttemptOk(res: Result) | AttemptFail | AttemptUnknown

  // Server-issued rejections that promise the operation was not applied.
  predicate Definite(code: ErrorCode) {
    code.NoLeader? || code.NotLeader? || code.BadRequest?
  }

  // What promises that the operation was not applied: errors from before anything was
  // sent, and the three rejections that servers promise this for.
  predicate NotApplied(e: Exchange) {
    match e
    case NoResponse(error) => error.ConnRefused? || error.HostUnreachable? || error.NetUnreachable? || error.DialError?
    case Refused(code) => code == NoLeader || code == NotLeader || code == BadRequest
    case _ => false
  }

  function Classify(e: Exchange): (r: AttemptResult)
    ensures r.AttemptFail? <==> NotApplied(e)
    ensures r.AttemptOk? <==> e.Okay? && e.body.Some?
    ensures r.AttemptOk? ==> e.body == Some(r.res)
  {
    match e
    case NoResponse(error) => if IsDefinitelyNotSent(error) then AttemptFail else AttemptUnknown
    case Unreadable => AttemptUnknown
    case Okay(body) => if body.Some? then AttemptOk(body.value) else AttemptUnknown
    case Refused(code) => if Definite(code) then AttemptFail else AttemptUnknown
  }

  // The record an attempt ends the operation with; None if it is to be retried.
  function Conclude(op: Op, res: AttemptResult, last: bool): Option<Op> {
    match res
    case AttemptOk(r) => Some(op.(outcome := Succeeded, ok := r.ok, present := r.present, retVal := r.value))
    case AttemptUnknown => Some(op.(outcome := Unknown))
    case AttemptFail => if last then Some(op.(outcome := Failed)) else None
  }

  // What noteSeen remembers of an acknowledged operation's key.
  function Seen(x: Op): Option<string> {
    match x.op
    case Put => Some(x.value)
    case Cas => if x.ok then Some(x.value) else if x.present then Some(x.retVal) else None
    case _ => if x.op.Get? && x.present then Some(x.retVal) else None
  }

  datatype Node = Node(id: string, url: string)

  class Recorder {
    var ops: seq<Op>

    constructor ()
      ensures ops == []
    {
      ops := [];
    }

    method Add(op: Op)
      modifies this
      ensures ops == old(ops) + [op]
    {
      ops := ops + [op];
    }
  }

  // 150 ms between attempts, in nanoseconds.
  const BACKOFF := 150_000_000

  // The outside of one Invoke call: when it began and, for attempt i, when it was
  // started and ended, what it came to, and when the deadline was looked at after it.
  datatype Schedule = Schedule(
    begin: int, started: nat -> int, ended: nat -> int, exchange: nat -> Exchange, checked: nat -> int)

  // Each backoff advances the clock by at least its length.
  ghost predicate Paced(t: Schedule) {
    && t.begin <= t.checked(0)
    && forall i: nat :: t.checked(i) + BACKOFF <= t.checked(i + 1)
  }

  lemma {:induction false} PacedFrom(t: Schedule, i: nat)
    requires Paced(t)
    ensures t.begin + i * BACKOFF <= t.checked(i)
  {
    if i == 0 {
    } else {
      PacedFrom(t, i - 1);
      assert t.checked(i - 1) + BACKOFF <= t.checked(i - 1 + 1);
    }
  }

  class Client {
    const nodes: seq<Node>
    const rec: Recorder
    var lastSeen: map<string, Option<string>>

    constructor (nodes: seq<Node>, rec: Recorder)
      ensures this.nodes == nodes && this.rec == rec && lastSeen == map[]
    {
      this.nodes := nodes;
      this.rec := rec;
      lastSeen := map[];
    }

    method NoteSeen(op: Op)
      modifies this
      ensures lastSeen == if op.op.Declared() then old(lastSeen)[op.key := Seen(op)] else old(lastSeen)
    {
      match op.op {
        case Put =>
          lastSeen := lastSeen[op.key := Some(op.value)];
        case Cas =>
          if op.ok {
            lastSeen := lastSeen[op.key := Some(op.value)];
          } else if op.present {
            lastSeen := lastSeen[op.key := Some(op.retVal)];
          } else {
            lastSeen := lastSeen[op.key := None];
          }
        case Delete =>
          lastSeen := lastSeen[op.key := None];
        case Get =>
          if op.present {
            lastSeen := lastSeen[op.key := Some(op.retVal)];
          } else {
            lastSeen := lastSeen[op.key := None];
          }
        case Other(_) =>
      }
    }

    // The node of attempt i: the pinned one, or the next in rotation.
    function Target(pin: Option<Node>, start: nat, i: nat): Node
      requires |nodes| > 0
    {
      match pin
      case Some(n) => n
      case None => nodes[Turn(start, i, |nodes|)]
    }

    // The operation as the attempt numbered i leaves it.
    function Stamped(op: Op, pin: Option<Node>, start: nat, t: Schedule, i: nat): Op
      requires |nodes| > 0
    {
      op.(node := Target(pin, start, i).id, start := t.started(i), end := t.ended(i))
    }

    // One logical operation: nodes are tried in rotation while attempts definitely
    // fail, until success, ambiguity, or the deadline. Only the final attempt is
    // recorded. `start` is the random first node.
    method Invoke(op0: Op, deadline: int, pin: Option<Node>, start: nat, t: Schedule)
      returns (op: Op, attempts: nat, ghost tried: seq<Node>)
      requires |nodes| > 0 && Paced(t)
      modifies this, rec
      ensures 1 <= attempts == |tried| && forall i | 0 <= i < attempts :: tried[i] == Target(pin, start, i)
      ensures forall i | 0 <= i < attempts ::
                tried[i] == if pin.Some? then pin.value else nodes[(start + i) % |nodes|]
      ensures forall i | 0 <= i < attempts - 1 :: Classify(t.exchange(i)).AttemptFail? && t.checked(i) <= t.begin + deadline
      // An attempt that promises "not applied" is followed by another one, unless the
      // call is pinned or its deadline has passed; any other attempt is the last.
      ensures forall i | 0 <= i < attempts ::
                (i + 1 < attempts <==> NotApplied(t.exchange(i)) && pin.None? && t.checked(i) <= t.begin + deadline)
      ensures var e := t.exchange(attempts - 1);
              && (op.outcome.Failed? <==> NotApplied(e))
              && (op.outcome.Succeeded? <==> e.Okay? && e.body.Some?)
              && (op.outcome.Succeeded? || op.outcome.Failed? || op.outcome.Unknown?)
              && (op.outcome.Succeeded? ==> Result(op.ok, op.present, op.retVal) == e.body.value)
              && op == op0.(outcome := op.outcome, ok := op.ok, present := op.present, retVal := op.retVal,
                            node := tried[attempts - 1].id,
                            start := t.started(attempts - 1), end := t.ended(attempts - 1))
      ensures Some(op) ==
              Conclude(Stamped(op0, pin, start, t, attempts - 1), Classify(t.exchange(attempts - 1)),
                       t.begin + deadline < t.checked(attempts - 1) || pin.Some?)
      ensures rec.ops == old(rec.ops) + [op]
      ensures lastSeen ==
              if op.outcome.Succeeded? && op.op.Declared() then old(lastSeen)[op.key := Seen(op)] else old(lastSeen)
      ensures pin.Some? ==> attempts == 1
      ensures attempts > 1 ==> (attempts - 2) * 150_000_000 <= deadline
    {
      op := op0;
      attempts := 0;
      tried := [];
      while true
        invariant |tried| == attempts && forall i | 0 <= i < attempts :: tried[i] == Target(pin, start, i)
        invariant op == op0.(node := op.node, start := op.start, end := op.end)
        invariant forall i | 0 <= i < attempts :: Classify(t.exchange(i)).AttemptFail? && t.checked(i) <= t.begin + deadline
        invariant attempts > 0 ==> (attempts - 1) * BACKOFF <= deadline && pin.None?
        invariant rec.ops == old(rec.ops) && lastSeen == old(lastSeen)
        decreases deadline - attempts * BACKOFF + BACKOFF
      {
        ghost var i := attempts;
        PacedFrom(t, i);
        var node: Node;
        match pin {
          case Some(n) => node := n;
          case None => node := nodes[(start + attempts) % |nodes|];
        }
        tried := tried + [node];
        var res := Classify(t.exchange(attempts));
        op := op.(node := node.id, start := t.started(attempts), end := t.ended(attempts));
        attempts := attempts + 1;
        match res {
          case AttemptOk(r) =>
            op := op.(outcome := Succeeded, ok := r.ok, present := r.present, retVal := r.value);
            NoteSeen(op);
            rec.Add(op);
            return;
          case AttemptUnknown =>
            op := op.(outcome := Unknown);
            rec.Add(op);
            return;
          case AttemptFail =>
            if t.checked(attempts - 1) > t.begin + deadline || pin.Some? {
              op := op.(outcome := Failed);
              rec.Add(op);
              return;
            }
        }
      }
    }
  }

  // The index of attempt i among n nodes.
  function Turn(first: nat, i: nat, n: nat): nat
    requires 0 < n
  {
    (first + i) % n
  }

  // Rotation is fair: among any |nodes| consecutive unpinned attempts of one call,
  // exactly one goes to each node.
  lemma {:induction false} RotationIsFair(c: Client, start: nat, k: nat, d: nat) returns (i: nat)
    requires d < |c.nodes|
    ensures k <= i < k + |c.nodes| && c.Target(None, start, i) == c.nodes[d]
    ensures Distinguished(c.nodes) ==>
              forall j: nat | k <= j < k + |c.nodes| && c.Target(None, start, j) == c.nodes[d] :: j == i
  {
    var n := |c.nodes|;
    var j := TurnComes(n, start + k, d);
    i := k + j;
    assert start + i == start + k + j;
    forall q: nat | k <= q < k + n && c.Target(None, start, q) == c.nodes[d] && Distinguished(c.nodes) ensures q == i {
      assert Turn(start, q, n) == d;
      assert start + q == start + k + (q - k);
      assert Turn(start + k, q - k, n) == d;
    }
  }

  // No node is listed twice.
  ghost predicate Distinguished(nodes: seq<Node>) {
    forall p, q | 0 <= p < q < |nodes| :: nodes[p] != nodes[q]
  }

  // Every index comes exactly once in any n consecutive turns.
  lemma {:induction false} TurnComes(n: nat, first: nat, d: nat) returns (j: nat)
    requires d < n
    ensures j < n && Turn(first, j, n) == d
    ensures forall i: nat | i < n && Turn(first, i, n) == d :: i == j
  {
    var r := first % n;
    j := if r <= d then d - r else d - r + n;
    TurnFrom(first, j, n);
    forall i: nat | i < n && Turn(first, i, n) == d ensures i == j {
      TurnFrom(first, i, n);
    }
  }

  // Turns go up by one and start again at n.
  lemma {:induction false} TurnFrom(first: nat, i: nat, n: nat)
    requires i < n
    ensures Turn(first, i, n) == if first % n + i < n then first % n + i else first % n + i - n
  {
    var x, r := first + i, first % n + i;
    DivMod(first, n);
    DivMod(x, n);
    if r < n {
      UniqueRemainder(n, x / n, x % n, first / n, r);
    } else {
      Distribute(first / n, n);
      UniqueRemainder(n, x / n, x % n, first / n + 1, r - n);
    }
  }

  lemma {:induction false} DivMod(x: nat, n: nat)
    requires 0 < n
    ensures x == (x / n) * n + x % n
  {
  }

  lemma {:induction false} Distribute(q: int, n: int)
    ensures (q + 1) * n == q * n + n
  {
  }

  lemma {:induction false} UniqueRemainder(n: nat, q: int, r: nat, q': int, r': nat)
    requires r < n && r' < n && q * n + r == q' * n + r'
    ensures r == r'
  {
    if q < q' {
      Multiple(q' - q, n);
    } else if q' < q {
      Multiple(q - q', n);
    }
  }

  lemma {:induction false} Multiple(k: int, n: nat)
    requires 1 <= k
    ensures n <= k * n
  {
    Distribute(k - 1, n);
  }
}
