/**
 What undisturbed runs can always still do: a node that a majority is ready to follow can
 be elected, and a leader can make itself known.
 */
module ElectionProgress {
  import opened ClusterNode
  import opened Election
  import opened ElectionProof
  import opened ElectionRaces

  /** The first k + 1 peers are the first k and the next one, which is not among them. */
  lemma NextPeer(c: Config, n: nat, k: nat)
    requires Membership(c) && n < |c.peers| && k < |c.peers[n]|
    ensures var (ps, p) := (c.peers[n], c.peers[n][k]);
      && p < |c.peers| && p != n && p !in ps[..k]
      && forall q :: q in ps[..k + 1] <==> q in ps[..k] || q == p
  {
    var ps, p := c.peers[n], c.peers[n][k];
    assert p in ps;
    assert ps[..k + 1] == ps[..k] + [p];
  }

  // ----------------------------------------------------------- being elected

  /** Midway through the election: the first k peers have answered, those that are up by granting. */
  ghost predicate Asked(c: Config, s0: State, s: State, n: nat, up: set<nat>, k: nat)
    requires WellSized(c, s0) && n < |c.peers| && k <= |c.peers[n]|
  {
    var term := s0.nodes[n].term + 1;
    && WellSized(c, s) && Reachable(c, s, true)
    && s.nodes[n].role == Candidate && s.nodes[n].term == term
    && s.loops[n].Electing? && s.loops[n].term == term && |s.loops[n].answers| == k
    && (forall i :: 0 <= i < k ==> (s.loops[n].answers[i] <==> c.peers[n][i] in up))
    && (forall p :: 0 <= p < |c.peers| && p != n && p !in c.peers[n][..k] ==> s.nodes[p] == s0.nodes[p])
    && (k < |c.peers[n]| ==> VoteRequest(n, c.peers[n][k], term) in s.network)
  }

  /** A peer that is up votes; one that is not leaves everything as it is. */
  lemma AskOne(c: Config, s0: State, s: State, n: nat, up: set<nat>, k: nat) returns (s': State)
    requires Membership(c) && WellSized(c, s0) && n < |c.peers| && k < |c.peers[n]| && Asked(c, s0, s, n, up, k)
    requires forall m :: m in up && m < |c.peers| ==> s0.nodes[m].term <= s0.nodes[n].term
    ensures WellSized(c, s') && Reachable(c, s', true) && s'.loops == s.loops && s.network <= s'.network
    ensures forall p :: 0 <= p < |c.peers| && p != c.peers[n][k] ==> s'.nodes[p] == s.nodes[p]
    ensures c.peers[n][k] in up ==> VoteGranted(c.peers[n][k], n, s0.nodes[n].term + 1) in s'.network
  {
    var p := c.peers[n][k];
    NextPeer(c, n, k);
    s' := s;
    if p in up {
      assert s.nodes[p] == s0.nodes[p];
      s' := UndisturbedVote(c, s, p, n, s0.nodes[n].term + 1, true);
    }
  }

  /** One more peer answers. */
  lemma AskNext(c: Config, s0: State, s: State, n: nat, up: set<nat>, k: nat) returns (s': State)
    requires Membership(c) && WellSized(c, s0) && n < |c.peers| && k < |c.peers[n]| && Asked(c, s0, s, n, up, k)
    requires forall m :: m in up && m < |c.peers| ==> s0.nodes[m].term <= s0.nodes[n].term
    ensures Asked(c, s0, s', n, up, k + 1)
  {
    NextPeer(c, n, k);
    var voted := AskOne(c, s0, s, n, up, k);
    ReachStep(c, voted, Answer(n, c.peers[n][k] in up), true);
    s' := Apply(c, voted, Answer(n, c.peers[n][k] in up));
  }

  lemma {:induction false} AskAll(c: Config, s0: State, s: State, n: nat, up: set<nat>, k: nat) returns (s': State)
    requires Membership(c) && WellSized(c, s0) && n < |c.peers| && k <= |c.peers[n]| && Asked(c, s0, s, n, up, k)
    requires forall m :: m in up && m < |c.peers| ==> s0.nodes[m].term <= s0.nodes[n].term
    ensures Asked(c, s0, s', n, up, |c.peers[n]|)
    decreases |c.peers[n]| - k
  {
    s' := s;
    if k < |c.peers[n]| {
      s' := AskNext(c, s0, s, n, up, k);
      s' := AskAll(c, s0, s', n, up, k + 1);
    }
  }

  /** The node and its peers that are up are the granting ones. */
  lemma UpVotes(c: Config, n: nat, up: set<nat>, answers: seq<bool>)
    requires Membership(c) && n < |c.peers| && n in up && up <= Range(|c.peers|)
    requires |answers| == |c.peers[n]| && forall i :: 0 <= i < |answers| ==> (answers[i] <==> c.peers[n][i] in up)
    ensures {n} + (set i | 0 <= i < |answers| && answers[i] :: c.peers[n][i]) == up
  {
    var yes := set i | 0 <= i < |answers| && answers[i] :: c.peers[n][i];
    forall p | p in up ensures p in {n} + yes {
      if p != n {
        assert p in c.peers[n];
      }
    }
  }

  /**
   A waiting node that does not lead can become leader of its next term, whatever happened
   before and whoever does not answer, when more than half of all nodes, itself among them,
   are up and at no later term.
   */
  lemma CanBeElected(c: Config, s: State, n: nat, up: set<nat>) returns (s': State)
    requires Membership(c) && WellSized(c, s) && Reachable(c, s, true) && n < |c.peers|
    requires s.loops[n] == Waiting && s.nodes[n].role != Leader && |c.peers[n]| > 0
    requires n in up && up <= Range(|c.peers|) && 2 * |up| > |c.peers|
    requires forall m :: m in up && m < |c.peers| ==> s.nodes[m].term <= s.nodes[n].term
    ensures WellSized(c, s') && Reachable(c, s', true)
    ensures s'.nodes[n] == NodeState(s.nodes[n].term + 1, Leader, c.addrs[n]) && s'.loops[n] == Waiting
  {
    s' := Candidacy(c, s, n, true);
    s' := AskAll(c, s, s', n, up, 0);
    UpVotes(c, n, up, s'.loops[n].answers);
    ElectionOutcome(c, s', n);
    ReachStep(c, s', Finish(n), true);
    s' := Apply(c, s', Finish(n));
  }

  // ------------------------------------------------------------- being known

  /** Those of the first k peers that are at no later term follow n; all other nodes are as they were. */
  ghost predicate Follow(c: Config, s0: State, s: State, n: nat, k: nat)
    requires WellSized(c, s0) && n < |c.peers| && k <= |c.peers[n]|
  {
    var term := s0.nodes[n].term;
    && WellSized(c, s) && Reachable(c, s, true)
    && (forall p :: p in c.peers[n] ==> Heartbeat(n, p, term, c.addrs[n]) in s.network)
    && forall p :: 0 <= p < |c.peers| ==>
         s.nodes[p] ==
         if p in c.peers[n][..k] && s0.nodes[p].term <= term then NodeState(term, Follower, c.addrs[n]) else s0.nodes[p]
  }

  lemma FollowNext(c: Config, s0: State, s: State, n: nat, k: nat) returns (s': State)
    requires Membership(c) && WellSized(c, s0) && n < |c.peers| && k < |c.peers[n]| && Follow(c, s0, s, n, k)
    ensures Follow(c, s0, s', n, k + 1)
  {
    NextPeer(c, n, k);
    var a := HeartbeatArrives(n, c.peers[n][k], s0.nodes[n].term, c.addrs[n]);
    assert c.peers[n][k] in c.peers[n];
    ReachStep(c, s, a, true);
    s' := Apply(c, s, a);
  }

  lemma {:induction false} FollowAll(c: Config, s0: State, s: State, n: nat, k: nat) returns (s': State)
    requires Membership(c) && WellSized(c, s0) && n < |c.peers| && k <= |c.peers[n]| && Follow(c, s0, s, n, k)
    ensures Follow(c, s0, s', n, |c.peers[n]|)
    decreases |c.peers[n]| - k
  {
    s' := s;
    if k < |c.peers[n]| {
      s' := FollowNext(c, s0, s, n, k);
      s' := FollowAll(c, s0, s', n, k + 1);
    }
  }

  /** A leader can make every other node that is at no later term its follower, which then knows its address. */
  lemma CanBeKnown(c: Config, s: State, n: nat) returns (s': State)
    requires Membership(c) && WellSized(c, s) && Reachable(c, s, true) && n < |c.peers|
    requires s.loops[n] == Waiting && s.nodes[n].role == Leader && |c.peers[n]| > 0
    ensures WellSized(c, s') && Reachable(c, s', true)
    ensures forall p :: 0 <= p < |c.peers| ==>
              s'.nodes[p] == if p != n && s.nodes[p].term <= s.nodes[n].term
                             then NodeState(s.nodes[n].term, Follower, c.addrs[n]) else s.nodes[p]
  {
    ReachStep(c, s, TickCheck(n), true);
    s' := Apply(c, s, TickCheck(n));
    ReachStep(c, s', TickSend(n), true);
    s' := Apply(c, s', TickSend(n));
    s' := FollowAll(c, s, s', n, 0);
    assert c.peers[n][..|c.peers[n]|] == c.peers[n];
  }
}
