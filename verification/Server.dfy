// internal/server: what a node does with a proposal, and where it forwards
// requests it cannot serve.
module Server {
  import opened Wrappers
  import opened Kv
  import opened Clients

  datatype Peer = Peer(id: string, raftAddr: string, httpURL: string)

  // The outcome of raft.Apply, with the FSM's response when there is no error.
  datatype ApplyOutcome = Done(response: Response) | ErrNotLeader | ErrLeadershipTransfer | ErrOther

  datatype Decision = Answer(exchange: Exchange) | Forward(url: string)

  // The URL of the first peer with the given id, "" if there is none.
  function UrlOf(peers: seq<Peer>, id: string): string {
    if peers == [] then ""
    else if peers[0].id == id then peers[0].httpURL
    else UrlOf(peers[1..], id)
  }

  // Where `self` believes the leader can be reached, "" if it does not know or is
  // itself the one.
  function BelievedLeader(self: string, peers: seq<Peer>, leader: string): string {
    if leader == "" || leader == self then "" else UrlOf(peers, leader)
  }

  // Peer i is the first one with the leader's id, and the leader is another node.
  predicate LeaderIsPeer(self: string, peers: seq<Peer>, leader: string, i: nat)
    requires i < |peers|
  {
    leader != "" && leader != self && peers[i].id == leader && forall j | 0 <= j < i :: peers[j].id != leader
  }

  // No leader is known, it is this node, or it is not among the peers.
  predicate NoLeaderToAsk(self: string, peers: seq<Peer>, leader: string) {
    leader == "" || leader == self || forall p | p in peers :: p.id != leader
  }

  method LeaderHTTPURL(self: string, peers: seq<Peer>, leader: string) returns (url: string)
    ensures url == BelievedLeader(self, peers, leader)
    ensures forall i | 0 <= i < |peers| && LeaderIsPeer(self, peers, leader, i) :: url == peers[i].httpURL
    ensures NoLeaderToAsk(self, peers, leader) ==> url == ""
  {
    if leader == "" || leader == self {
      return "";
    }
    for i := 0 to |peers|
      invariant UrlOf(peers, leader) == UrlOf(peers[i..], leader)
      invariant forall j | 0 <= j < i :: peers[j].id != leader
    {
      if peers[i].id == leader {
        return peers[i].httpURL;
      }
    }
    return "";
  }

  // proxyOrReject: a request is forwarded only by a node that knows another leader,
  // if the client allows it and no other node forwarded it before.
  function Route(noProxy: bool, forwarded: bool, leaderURL: string, parses: bool): Decision {
    if noProxy then Answer(Refused(NotLeader))
    else if leaderURL == "" || forwarded then Answer(Refused(NoLeader))
    else if !parses then Answer(Refused(Internal))
    else Forward(leaderURL)
  }

  // apply: the answer or the way on that follows from raft's outcome.
  function Decide(outcome: ApplyOutcome, noProxy: bool, forwarded: bool, leaderURL: string, parses: bool): Decision {
    match outcome
    case Done(response) =>
      if response.Reply? then Answer(Okay(Some(response.res))) else Answer(Refused(Internal))
    case ErrNotLeader => Route(noProxy, forwarded, leaderURL, parses)
    case ErrLeadershipTransfer => Route(noProxy, forwarded, leaderURL, parses)
    case ErrOther => Answer(Refused(ApplyFailed))
  }

  // What a request that this node cannot serve leads to. It is forwarded to the leader
  // whenever the client allows it, no node forwarded it before, and the leader's URL
  // is known and usable; otherwise it is rejected with the reason.
  ghost predicate Redirects(
    d: Decision, noProxy: bool, forwarded: bool, self: string, peers: seq<Peer>, leader: string, parses: bool)
  {
    && (noProxy ==> d == Answer(Refused(NotLeader)))
    && (!noProxy && (forwarded || NoLeaderToAsk(self, peers, leader)) ==> d == Answer(Refused(NoLeader)))
    && (forall i | 0 <= i < |peers| && LeaderIsPeer(self, peers, leader, i) && !noProxy && !forwarded ::
          d == if peers[i].httpURL == "" then Answer(Refused(NoLeader))
               else if parses then Forward(peers[i].httpURL)
               else Answer(Refused(Internal)))
  }

  // A request's headers; forwarding sets the loop guard.
  class Request {
    const noProxy: bool
    var forwarded: bool

    constructor (noProxy: bool)
      ensures this.noProxy == noProxy && !forwarded
    {
      this.noProxy := noProxy;
      forwarded := false;
    }

    method ProxyOrReject(self: string, peers: seq<Peer>, leader: string, parses: bool) returns (d: Decision)
      modifies this
      ensures d == Route(noProxy, old(forwarded), BelievedLeader(self, peers, leader), parses)
      ensures forwarded == (old(forwarded) || d.Forward?)
      ensures d.Forward? ==> !old(forwarded) && !noProxy
      ensures Redirects(d, noProxy, old(forwarded), self, peers, leader, parses)
    {
      var leaderURL := LeaderHTTPURL(self, peers, leader);
      if noProxy {
        return Answer(Refused(NotLeader));
      }
      if leaderURL == "" || forwarded {
        return Answer(Refused(NoLeader));
      }
      if !parses {
        return Answer(Refused(Internal));
      }
      forwarded := true;
      return Forward(leaderURL);
    }

    method Apply(outcome: ApplyOutcome, self: string, peers: seq<Peer>, leader: string, parses: bool)
      returns (d: Decision)
      modifies this
      ensures d == Decide(outcome, noProxy, old(forwarded), BelievedLeader(self, peers, leader), parses)
      ensures forwarded == (old(forwarded) || d.Forward?)
      ensures outcome.ErrNotLeader? || outcome.ErrLeadershipTransfer? ==>
                Redirects(d, noProxy, old(forwarded), self, peers, leader, parses)
      ensures outcome.ErrOther? ==> d == Answer(Refused(ApplyFailed))
      ensures outcome.Done? ==>
                d == Answer(if outcome.response.Reply? then Okay(Some(outcome.response.res)) else Refused(Internal))
    {
      match outcome {
        case Done(response) =>
          return if response.Reply? then Answer(Okay(Some(response.res))) else Answer(Refused(Internal));
        case ErrOther =>
          return Answer(Refused(ApplyFailed));
        case _ =>
          d := ProxyOrReject(self, peers, leader, parses);
      }
    }
  }

  // A node's answer is definite only if raft never took the proposal.
  lemma {:induction false} DefiniteMeansRefused(outcome: ApplyOutcome, noProxy: bool, forwarded: bool, url: string, parses: bool)
    requires !(outcome.Done? && outcome.response.Panic?)
    ensures var d := Decide(outcome, noProxy, forwarded, url, parses);
            d.Answer? && Classify(d.exchange).AttemptFail? ==> outcome.ErrNotLeader? || outcome.ErrLeadershipTransfer?
    ensures var d := Decide(outcome, noProxy, forwarded, url, parses);
            d.Answer? && Classify(d.exchange).AttemptOk? <==> outcome.Done?
  {
  }

  // Conversely, a refusal by raft that is not forwarded is told as a definite failure,
  // if only the leader's URL parses; so is a request that was not understood.
  lemma {:induction false} RefusedMeansDefinite(outcome: ApplyOutcome, noProxy: bool, forwarded: bool, url: string)
    requires outcome.ErrNotLeader? || outcome.ErrLeadershipTransfer?
    ensures var d := Decide(outcome, noProxy, forwarded, url, true);
            if noProxy || forwarded || url == "" then d.Answer? && Classify(d.exchange).AttemptFail?
            else d == Forward(url)
    ensures Classify(Refused(BadRequest)).AttemptFail?
  {
  }
}
