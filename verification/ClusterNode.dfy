/**
 One cluster member (internal/cluster): its term, role and known leader, and the
 steps that its own loop and its HTTP handlers take on them. The pure functions
 are the specification; class `Node` performs the same steps in place.
 Terms are unbounded here (uint64 in the program).
 */
module ClusterNode {

  datatype Role = Leader | Follower | Candidate

  datatype NodeState = NodeState(term: nat, role: Role, leader: string)

  /** A node with no peers is the leader from the start; any other starts as a follower. */
  function NewNode(addr: string, peers: nat): NodeState {
    if peers == 0 then NodeState(0, Leader, addr) else NodeState(0, Follower, "")
  }

  /** A heartbeat of an older term is refused; any other makes the receiver a follower. */
  function OnHeartbeat(n: NodeState, term: nat, leaderAddr: string): NodeState {
    if term < n.term then n else NodeState(term, Follower, leaderAddr)
  }

  /** The test of the vote handler. */
  predicate WouldGrant(n: NodeState, term: nat) {
    term > n.term
  }

  /** The write of the vote handler, made after the lock was released and retaken. */
  function Grant(n: NodeState, term: nat): NodeState {
    NodeState(term, Follower, n.leader)
  }

  function BeginElection(n: NodeState): NodeState {
    NodeState(n.term + 1, Candidate, n.leader)
  }

  function Votes(answers: seq<bool>): (votes: nat)
    ensures votes <= 1 + |answers|
  {
    if |answers| == 0 then 1
    else Votes(answers[..|answers| - 1]) + if answers[|answers| - 1] then 1 else 0
  }

  /** A node's own vote and one for each peer that granted. */
  lemma {:induction false} VotesCount(answers: seq<bool>)
    ensures Votes(answers) == 1 + |set i | 0 <= i < |answers| && answers[i]|
  {
    var yes := set i | 0 <= i < |answers| && answers[i];
    if |answers| == 0 {
      assert yes == {};
    } else {
      var k := |answers| - 1;
      var before := set i | 0 <= i < |answers[..k]| && answers[..k][i];
      VotesCount(answers[..k]);
      assert yes == if answers[k] then before + {k} else before;
    }
  }

  function Majority(peers: nat): nat {
    (peers + 1) / 2 + 1
  }

  predicate Wins(n: NodeState, term: nat, votes: nat, peers: nat) {
    votes >= Majority(peers) && n.role == Candidate && n.term == term
  }

  function FinishElection(n: NodeState, term: nat, votes: nat, peers: nat, addr: string): NodeState {
    if Wins(n, term, votes, peers) then NodeState(n.term, Leader, addr)
    else if n.role == Candidate then NodeState(n.term, Follower, n.leader)
    else n
  }

  class Node {
    const addr: string
    const peers: nat
    var term: nat
    var role: Role
    var leader: string

    function State(): NodeState
      reads this
    {
      NodeState(term, role, leader)
    }

    constructor (addr: string, peers: nat)
      ensures this.addr == addr && this.peers == peers
      ensures State() == NewNode(addr, peers)
      ensures term == 0 && role == (if peers == 0 then Leader else Follower)
      ensures leader == if peers == 0 then addr else ""
    {
      this.addr, this.peers := addr, peers;
      term, role, leader := 0, Follower, "";
      if peers == 0 {
        role := Leader;
        leader := addr;
      }
    }

    method ReceiveHeartbeat(hbTerm: nat, leaderAddr: string) returns (ok: bool, changed: bool)
      modifies this
      ensures State() == OnHeartbeat(old(State()), hbTerm, leaderAddr)
      ensures ok <==> hbTerm >= old(term)
      ensures ok ==> term == hbTerm && role == Follower && leader == leaderAddr
      ensures !ok ==> term == old(term) && role == old(role) && leader == old(leader)
      ensures changed <==> ok && (old(role) != Follower || old(leader) != leaderAddr)
    {
      if hbTerm < term {
        return false, false;
      }
      changed := role != Follower || leader != leaderAddr;
      term := hbTerm;
      leader := leaderAddr;
      role := Follower;
      ok := true;
    }

    method VoteTest(reqTerm: nat) returns (granted: bool)
      ensures granted == WouldGrant(State(), reqTerm)
      ensures granted <==> reqTerm > term
    {
      granted := reqTerm > term;
    }

    method VoteWrite(reqTerm: nat)
      modifies this
      ensures State() == Grant(old(State()), reqTerm)
      ensures term == reqTerm && role == Follower && leader == old(leader)
    {
      term := reqTerm;
      role := Follower;
    }

    method Begin() returns (electionTerm: nat)
      modifies this
      ensures State() == BeginElection(old(State())) && electionTerm == term
      ensures term == old(term) + 1 && role == Candidate && leader == old(leader)
    {
      term := term + 1;
      role := Candidate;
      electionTerm := term;
    }

    /** Counts the node's own vote and one answer per peer. */
    method CountVotes(answers: seq<bool>) returns (votes: nat)
      ensures votes == Votes(answers) == 1 + |set i | 0 <= i < |answers| && answers[i]|
    {
      VotesCount(answers);
      votes := 1;
      for i := 0 to |answers|
        invariant votes == Votes(answers[..i])
      {
        assert answers[..i + 1][..i] == answers[..i];
        if answers[i] {
          votes := votes + 1;
        }
      }
      assert answers[..|answers|] == answers;
    }

    method Finish(electionTerm: nat, votes: nat) returns (won: bool)
      modifies this
      ensures State() == FinishElection(old(State()), electionTerm, votes, peers, addr)
      ensures won == Wins(old(State()), electionTerm, votes, peers)
      ensures won <==> 2 * votes > peers + 1 && old(role) == Candidate && old(term) == electionTerm
      ensures term == old(term)
      ensures won ==> role == Leader && leader == addr
      ensures !won ==> role == (if old(role) == Candidate then Follower else old(role)) && leader == old(leader)
    {
      var majority := (peers + 1) / 2 + 1;
      if votes >= majority && role == Candidate && term == electionTerm {
        role := Leader;
        leader := addr;
        won := true;
      } else {
        if role == Candidate {
          role := Follower;
        }
        won := false;
      }
    }
  }
}
