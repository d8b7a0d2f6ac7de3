// checker.Check: the verdict on a recorded history. The search itself is
// Porcupine's; it appears as a function that either decides whether all groups
// are linearizable or runs out of time.
module Check {
  import opened History
  import opened Checker
  import opened Linearizability
  import opened Locality

  datatype SearchResult = SearchOk | Illegal | TimedOut

  ghost predicate AllLinearizable(parts: seq<seq<Operation>>) {
    forall i | 0 <= i < |parts| :: GroupLinearizable(multiset(parts[i]))
  }

  // A search that is right whenever it decides.
  ghost predicate Sound(search: seq<seq<Operation>> -> SearchResult) {
    forall parts :: (search(parts) == SearchOk ==> AllLinearizable(parts)) &&
                    (search(parts) == Illegal ==> !AllLinearizable(parts))
  }

  // What the search says of the checked operations, grouped by key in some order.
  ghost predicate Says(search: seq<seq<Operation>> -> SearchResult, h: seq<Op>, res: SearchResult) {
    exists parts, keys :: IsPartition(Checkable(h), parts, keys) && search(parts) == res
  }

  // A verdict of "linearizable" is never wrong, whatever the time limit; the
  // opposite verdict is wrong at most when the search ran out of time, and a search
  // that never does so gives the exact verdict.
  method Verdict(h: seq<Op>, search: seq<seq<Operation>> -> SearchResult)
    returns (linearizable: bool, ops: nat, timedOut: bool)
    requires Sound(search)
    ensures Says(search, h, if linearizable then SearchOk else if timedOut then TimedOut else Illegal)
    ensures linearizable ==> Accepts(Checkable(h)) && !timedOut
    ensures !linearizable && !timedOut ==> !Accepts(Checkable(h))
    ensures (forall parts :: !search(parts).TimedOut?) ==> !timedOut && (linearizable <==> Accepts(Checkable(h)))
    ensures ops == |Checkable(h)|
  {
    var pops := ToOperations(h);
    var parts := Partition(pops);
    ghost var keys :| IsPartition(pops, parts, keys);
    PartitionDecides(pops, parts, keys);
    var res := search(parts);
    assert Says(search, h, res);
    linearizable := res == SearchOk;
    ops := |pops|;
    timedOut := res == TimedOut;
  }
}
