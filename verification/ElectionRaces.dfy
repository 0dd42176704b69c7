/**
 What the program's two split steps allow when they are disturbed: concrete runs of
 three nodes that break what undisturbed runs keep.
 */
module ElectionRaces {
  import opened ClusterNode
  import opened Election

  /** Every step is enabled when its turn comes and, if `atomic`, no vote is disturbed. */
  predicate Possible(c: Config, acts: seq<Action>, atomic: bool)
    requires |c.addrs| == |c.peers|
    decreases |acts|, 0
  {
    |acts| == 0 ||
    var k := |acts| - 1;
    Possible(c, acts[..k], atomic) &&
    var s := Exec(c, acts[..k], atomic);
    Enabled(c, s, acts[k]) && (atomic ==> VoteUndisturbed(c, s, acts[k]))
  }

  /** The state that the sequence of steps leads to. */
  function Exec(c: Config, acts: seq<Action>, atomic: bool): (s: State)
    requires |c.addrs| == |c.peers| && Possible(c, acts, atomic)
    ensures WellSized(c, s)
    decreases |acts|, 1
  {
    if |acts| == 0 then Init(c)
    else
      var k := |acts| - 1;
      Apply(c, Exec(c, acts[..k], atomic), acts[k])
  }

  ghost predicate Reachable(c: Config, s: State, atomic: bool) {
    |c.addrs| == |c.peers| && exists acts :: Possible(c, acts, atomic) && Exec(c, acts, atomic) == s
  }

  /** Reachable states are those of runs. */
  lemma {:induction false} PossibleIsRun(c: Config, acts: seq<Action>, atomic: bool) returns (states: seq<State>)
    requires Membership(c) && Possible(c, acts, atomic)
    ensures Run(c, states, acts) && states[|acts|] == Exec(c, acts, atomic)
    ensures atomic ==> AtomicVoteRun(c, states, acts)
  {
    if |acts| == 0 {
      states := [Init(c)];
    } else {
      var k := |acts| - 1;
      var init := PossibleIsRun(c, acts[..k], atomic);
      states := init + [Exec(c, acts, atomic)];
      assert acts == acts[..k] + [acts[k]];
    }
  }

  lemma ReachInit(c: Config, atomic: bool)
    requires |c.addrs| == |c.peers|
    ensures Reachable(c, Init(c), atomic)
  {
    assert Possible(c, [], atomic) && Exec(c, [], atomic) == Init(c);
  }

  lemma ReachStep(c: Config, s: State, a: Action, atomic: bool)
    requires WellSized(c, s) && Reachable(c, s, atomic) && Enabled(c, s, a)
    requires atomic ==> VoteUndisturbed(c, s, a)
    ensures Reachable(c, Apply(c, s, a), atomic)
  {
    var acts :| Possible(c, acts, atomic) && Exec(c, acts, atomic) == s;
    assert (acts + [a])[..|acts|] == acts;
    assert Possible(c, acts + [a], atomic) && Exec(c, acts + [a], atomic) == Apply(c, s, a);
  }

  /** Node n starts an election and asks its first peer. */
  lemma Candidacy(c: Config, s: State, n: nat, atomic: bool) returns (s': State)
    requires WellSized(c, s) && Reachable(c, s, atomic) && n < |s.nodes|
    requires s.loops[n] == Waiting && s.nodes[n].role != Leader && |c.peers[n]| > 0
    ensures WellSized(c, s') && Reachable(c, s', atomic)
    ensures s'.nodes == s.nodes[n := BeginElection(s.nodes[n])]
    ensures s'.loops == s.loops[n := Electing(s.nodes[n].term + 1, [])]
    ensures s'.network == s.network + {VoteRequest(n, c.peers[n][0], s.nodes[n].term + 1)}
    ensures s'.handlers == s.handlers
  {
    ReachStep(c, s, TimeoutCheck(n), atomic);
    var s1 := Apply(c, s, TimeoutCheck(n));
    s' := Stand(c, s1, n, atomic);
  }

  /** A due election begins. */
  lemma Stand(c: Config, s: State, n: nat, atomic: bool) returns (s': State)
    requires WellSized(c, s) && Reachable(c, s, atomic) && n < |s.nodes| && s.loops[n] == ElectionDue
             && |c.peers[n]| > 0
    ensures WellSized(c, s') && Reachable(c, s', atomic)
    ensures s'.nodes == s.nodes[n := BeginElection(s.nodes[n])]
    ensures s'.loops == s.loops[n := Electing(s.nodes[n].term + 1, [])]
    ensures s'.network == s.network + {VoteRequest(n, c.peers[n][0], s.nodes[n].term + 1)}
    ensures s'.handlers == s.handlers
  {
    ReachStep(c, s, Begin(n), atomic);
    s' := Apply(c, s, Begin(n));
  }

  /** The answers of the first peer only: two votes, a majority of three. */
  lemma OneOfTwoGranted()
    ensures Votes([true, false]) == 2 && Majority(2) == 2
  {
    assert [true, false][..1] == [true];
    assert [true][..0] == [];
  }

  /** The next peer's answer is recorded. */
  lemma TakeAnswer(c: Config, s: State, n: nat, granted: bool) returns (s': State)
    requires WellSized(c, s) && Enabled(c, s, Answer(n, granted))
    ensures s' == Apply(c, s, Answer(n, granted)) && s'.nodes == s.nodes
    ensures s'.loops == s.loops[n := Electing(s.loops[n].term, s.loops[n].answers + [granted])]
    ensures s.network <= s'.network
  {
    s' := Apply(c, s, Answer(n, granted));
  }

  /** An election with these answers is won. */
  lemma CountWin(c: Config, s: State, n: nat) returns (s': State)
    requires WellSized(c, s) && n < |s.nodes| && |c.peers[n]| == 2
    requires s.loops[n] == Electing(s.nodes[n].term, [true, false]) && s.nodes[n].role == Candidate
    ensures Enabled(c, s, Finish(n)) && s' == Apply(c, s, Finish(n))
    ensures s'.nodes == s.nodes[n := NodeState(s.nodes[n].term, Leader, c.addrs[n])]
    ensures s'.loops == s.loops[n := Waiting] && s'.network == s.network
  {
    OneOfTwoGranted();
    s' := Apply(c, s, Finish(n));
  }

  /** The first of two peers has granted, the second does not answer: the candidate wins. */
  lemma WinByFirstPeer(c: Config, s: State, n: nat, atomic: bool) returns (s': State)
    requires WellSized(c, s) && Reachable(c, s, atomic) && n < |s.nodes| && |c.peers[n]| == 2
    requires s.loops[n] == Electing(s.nodes[n].term, []) && s.nodes[n].role == Candidate
    requires VoteGranted(c.peers[n][0], n, s.nodes[n].term) in s.network
    ensures WellSized(c, s') && Reachable(c, s', atomic)
    ensures s'.nodes == s.nodes[n := NodeState(s.nodes[n].term, Leader, c.addrs[n])]
    ensures s'.loops == s.loops[n := Waiting] && s.network <= s'.network
  {
    ReachStep(c, s, Answer(n, true), atomic);
    var s1 := TakeAnswer(c, s, n, true);
    ReachStep(c, s1, Answer(n, false), atomic);
    var s2 := TakeAnswer(c, s1, n, false);
    assert s2.loops[n].answers == [true, false];
    s' := CountWin(c, s2, n);
    ReachStep(c, s2, Finish(n), atomic);
  }

  const TRIO := Config(["a:9001", "b:9001", "c:9001"], [[2, 1], [2, 0], [0, 1]])

  lemma TrioIsMembership()
    ensures Membership(TRIO)
  {
    assert |TRIO.peers| == 3;
    assert TRIO.peers[0] == [2, 1] && TRIO.peers[1] == [2, 0] && TRIO.peers[2] == [0, 1];
  }

  /** Three waiting nodes that have not voted yet. */
  lemma TrioStart(atomic: bool) returns (s: State)
    ensures WellSized(TRIO, s) && Reachable(TRIO, s, atomic)
    ensures s.nodes == seq(3, _ => NodeState(0, Follower, "")) && s.loops == seq(3, _ => Waiting)
  {
    ReachInit(TRIO, atomic);
    s := Init(TRIO);
  }

  /** A request passes node v's vote test. */
  lemma PassTest(c: Config, s: State, v: nat, n: nat, term: nat, atomic: bool) returns (s': State)
    requires WellSized(c, s) && Reachable(c, s, atomic) && v < |s.nodes|
    requires VoteRequest(n, v, term) in s.network && WouldGrant(s.nodes[v], term)
    ensures WellSized(c, s') && Reachable(c, s', atomic)
    ensures s' == s.(handlers := s.handlers + {Handler(v, n, term)})
  {
    ReachStep(c, s, VoteTest(v, n, term), atomic);
    s' := Apply(c, s, VoteTest(v, n, term));
  }

  /** A request that passed the test is granted, whatever happened since. */
  lemma WriteVote(c: Config, s: State, v: nat, n: nat, term: nat, atomic: bool) returns (s': State)
    requires WellSized(c, s) && Reachable(c, s, atomic) && v < |s.nodes|
    requires Handler(v, n, term) in s.handlers && (atomic ==> WouldGrant(s.nodes[v], term))
    ensures WellSized(c, s') && Reachable(c, s', atomic)
    ensures s'.nodes == s.nodes[v := Grant(s.nodes[v], term)] && s'.loops == s.loops
    ensures s'.network == s.network + {VoteGranted(v, n, term)} && s'.handlers == s.handlers
  {
    ReachStep(c, s, VoteWrite(v, n, term), atomic);
    s' := Apply(c, s, VoteWrite(v, n, term));
  }

  /**
   Both candidates' requests pass node 2's test before either is written: node 2
   votes twice in term 1 and two nodes lead in term 1.
   */
  lemma SplitVoteElectsTwoLeaders()
    ensures Membership(TRIO)
    ensures exists s ::
      && Reachable(TRIO, s, false) && |s.nodes| == 3
      && s.nodes[0].role == Leader && s.nodes[1].role == Leader
      && s.nodes[0].term == s.nodes[1].term == 1
  {
    TrioIsMembership();
    var s := TrioStart(false);
    s := Candidacy(TRIO, s, 0, false);
    s := Candidacy(TRIO, s, 1, false);
    s := PassTest(TRIO, s, 2, 0, 1, false);
    s := PassTest(TRIO, s, 2, 1, 1, false);
    s := WriteVote(TRIO, s, 2, 0, 1, false);
    s := WriteVote(TRIO, s, 2, 1, 1, false);
    s := WinByFirstPeer(TRIO, s, 0, false);
    s := WinByFirstPeer(TRIO, s, 1, false);
  }

  /** An undisturbed vote of v for the candidate n that asks it. */
  lemma UndisturbedVote(c: Config, s: State, v: nat, n: nat, term: nat, atomic: bool) returns (s': State)
    requires WellSized(c, s) && Reachable(c, s, atomic) && v < |s.nodes|
    requires VoteRequest(n, v, term) in s.network && WouldGrant(s.nodes[v], term)
    ensures WellSized(c, s') && Reachable(c, s', atomic)
    ensures s'.nodes == s.nodes[v := Grant(s.nodes[v], term)] && s'.loops == s.loops
    ensures s'.network == s.network + {VoteGranted(v, n, term)}
  {
    s' := PassTest(c, s, v, n, term, atomic);
    s' := WriteVote(c, s', v, n, term, atomic);
  }

  /**
   Node 0 sees itself as leader of term 1, grants a vote in term 2, and only then
   reads the term for its heartbeats: two addresses are announced for term 2,
   although every vote in this run is undisturbed.
   */
  lemma SplitTickAnnouncesTwoLeaders()
    ensures Membership(TRIO)
    ensures exists s ::
      && Reachable(TRIO, s, true)
      && Heartbeat(0, 1, 2, "a:9001") in s.network && Heartbeat(2, 1, 2, "c:9001") in s.network
  {
    TrioIsMembership();
    var s := TrioStart(true);
    s := Candidacy(TRIO, s, 0, true);
    s := UndisturbedVote(TRIO, s, 2, 0, 1, true);
    s := WinByFirstPeer(TRIO, s, 0, true);
    ReachStep(TRIO, s, TickCheck(0), true);
    s := Apply(TRIO, s, TickCheck(0));
    s := Candidacy(TRIO, s, 2, true);
    s := UndisturbedVote(TRIO, s, 0, 2, 2, true);
    s := SendTick(TRIO, s, 0, 1, true);
    s := WinByFirstPeer(TRIO, s, 2, true);
    ReachStep(TRIO, s, TickCheck(2), true);
    s := Apply(TRIO, s, TickCheck(2));
    s := SendTick(TRIO, s, 2, 1, true);
  }

  lemma SendTick(c: Config, s: State, n: nat, p: nat, atomic: bool) returns (s': State)
    requires WellSized(c, s) && Reachable(c, s, atomic) && n < |s.nodes| && s.loops[n] == TickSawLeader
    requires p in c.peers[n]
    ensures WellSized(c, s') && Reachable(c, s', atomic)
    ensures s'.nodes == s.nodes && s'.loops == s.loops[n := Waiting] && s.network <= s'.network
    ensures Heartbeat(n, p, s.nodes[n].term, c.addrs[n]) in s'.network
  {
    ReachStep(c, s, TickSend(n), atomic);
    s' := Apply(c, s, TickSend(n));
  }
}
