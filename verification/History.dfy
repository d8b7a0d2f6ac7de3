// internal/history: one recorded client operation.
module History {
  import opened Wrappers
  import opened Kv

  datatype Outcome = Succeeded | Failed | Unknown | Undeclared(text: string)

  // Timestamps are nanoseconds on the harness's one monotonic clock.
  datatype Op = Op(
    client: int, op: OpKind, key: string, value: string, expected: Option<string>,
    start: int, end: int, outcome: Outcome,
    ok: bool, present: bool, retVal: string, node: string)

  // The command a server builds from the request for this operation.
  function CommandOf(x: Op): Command {
    match x.op
    case Put => Command(Put, x.key, x.value, None)
    case Cas => Command(Cas, x.key, x.value, x.expected)
    case _ => Command(x.op, x.key, "", None)
  }

  function ProposalOf(x: Op): Entry {
    Cmd(CommandOf(x))
  }

  // The log entries that a sequence of records stands for.
  function Proposals(w: seq<Op>): seq<Entry> {
    LogOf(ProposalOf, w)
  }

  // Every op kind and outcome is one of the declared constants.
  ghost predicate Declared(h: seq<Op>) {
    forall x | x in h :: x.op.Declared() && !x.outcome.Undeclared?
  }

  // An acknowledged operation was answered after it was invoked.
  ghost predicate Timely(h: seq<Op>) {
    forall x | x in h && x.outcome.Succeeded? :: x.start <= x.end
  }

  // The answer to an acknowledged operation says what the store's answer says:
  // presence and value of a get, whether a cas swapped.
  predicate Agrees(x: Op, r: Response) {
    && r.Reply?
    && match x.op
       case Get => x.present == r.res.present && (r.res.present ==> x.retVal == r.res.value)
       case Cas => x.ok == r.res.ok
       case _ => true
  }
}
