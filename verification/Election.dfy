/**
 The leader-election protocol of internal/cluster as a transition system: any
 number of nodes and a network that may lose, delay, reorder and duplicate
 messages. The grain is the program's own: every lock region is one step, so a
 vote is tested in one step and written in a later one, and a heartbeat tick
 reads the role in one step and the term in a later one.
 */
module Election {
  import opened ClusterNode

  /** `peers[n]` is the peer list of node n, in the order in which it asks for votes. */
  datatype Config = Config(addrs: seq<string>, peers: seq<seq<nat>>)

  /** Distinct nodes that all know the same membership. */
  ghost predicate Membership(c: Config) {
    && |c.addrs| == |c.peers|
    && (forall n, i, j :: 0 <= n < |c.peers| && 0 <= i < j < |c.peers[n]| ==> c.peers[n][i] != c.peers[n][j])
    && (forall n, p :: 0 <= n < |c.peers| ==> (p in c.peers[n] <==> 0 <= p < |c.peers| && p != n))
  }

  datatype Message =
    | VoteRequest(from: nat, to: nat, term: nat)
    | VoteGranted(from: nat, to: nat, term: nat)
    | Heartbeat(from: nat, to: nat, term: nat, addr: string)

  /** Where the single goroutine that runs a node's loop stands. */
  datatype Loop =
    | Waiting
    | TickSawLeader
    | ElectionDue
    | Electing(term: nat, answers: seq<bool>)

  /** A vote handler that has passed its test and has not yet written. */
  datatype Handler = Handler(voter: nat, candidate: nat, term: nat)

  datatype Ballot = Ballot(voter: nat, term: nat, candidate: nat)
  datatype Win = Win(node: nat, term: nat)

  /**
   Sent messages and passed vote tests are never removed, so that each may be used
   never, late or repeatedly. `ballots` and `wins` record history; no step reads them.
   */
  datatype State = State(nodes: seq<NodeState>, loops: seq<Loop>,
                         network: set<Message>, handlers: set<Handler>,
                         ballots: set<Ballot>, wins: set<Win>)

  datatype Action =
    | TickCheck(n: nat)
    | TickSend(n: nat)
    | TimeoutCheck(n: nat)
    | Begin(n: nat)
    | Answer(n: nat, granted: bool)
    | Finish(n: nat)
    | VoteTest(voter: nat, candidate: nat, term: nat)
    | VoteWrite(voter: nat, candidate: nat, term: nat)
    | HeartbeatArrives(from: nat, n: nat, term: nat, addr: string)

  predicate WellSized(c: Config, s: State) {
    |s.nodes| == |s.loops| == |c.peers| == |c.addrs|
  }

  function Init(c: Config): (s: State)
    requires |c.addrs| == |c.peers|
    ensures WellSized(c, s)
  {
    var solo := set n | 0 <= n < |c.peers| && |c.peers[n]| == 0;
    State(seq(|c.peers|, n requires 0 <= n < |c.peers| => NewNode(c.addrs[n], |c.peers[n]|)),
          seq(|c.peers|, _ => Waiting), {}, {},
          set n | n in solo :: Ballot(n, 0, n), set n | n in solo :: Win(n, 0))
  }

  predicate Enabled(c: Config, s: State, a: Action)
    requires WellSized(c, s)
  {
    match a
    case TickCheck(n) => n < |s.nodes| && s.loops[n] == Waiting && |c.peers[n]| > 0 && s.nodes[n].role == Leader
    case TickSend(n) => n < |s.nodes| && s.loops[n] == TickSawLeader
    case TimeoutCheck(n) => n < |s.nodes| && s.loops[n] == Waiting && |c.peers[n]| > 0 && s.nodes[n].role != Leader
    case Begin(n) => n < |s.nodes| && s.loops[n] == ElectionDue
    case Answer(n, granted) =>
      && n < |s.nodes| && s.loops[n].Electing? && |s.loops[n].answers| < |c.peers[n]|
      && (granted ==> VoteGranted(c.peers[n][|s.loops[n].answers|], n, s.loops[n].term) in s.network)
    case Finish(n) => n < |s.nodes| && s.loops[n].Electing? && |s.loops[n].answers| == |c.peers[n]|
    case VoteTest(v, cand, term) =>
      v < |s.nodes| && VoteRequest(cand, v, term) in s.network && WouldGrant(s.nodes[v], term)
    case VoteWrite(v, cand, term) => v < |s.nodes| && Handler(v, cand, term) in s.handlers
    case HeartbeatArrives(from, n, term, addr) => n < |s.nodes| && Heartbeat(from, n, term, addr) in s.network
  }

  /** The vote request to the i-th peer, if there is one. */
  function Ask(c: Config, n: nat, term: nat, i: nat): set<Message>
    requires n < |c.peers|
  {
    if i < |c.peers[n]| then {VoteRequest(n, c.peers[n][i], term)} else {}
  }

  function Apply(c: Config, s: State, a: Action): (s': State)
    requires WellSized(c, s) && Enabled(c, s, a)
    ensures WellSized(c, s')
  {
    match a
    case TickCheck(n) => s.(loops := s.loops[n := TickSawLeader])
    case TickSend(n) =>
      s.(loops := s.loops[n := Waiting],
         network := s.network + set p | p in c.peers[n] :: Heartbeat(n, p, s.nodes[n].term, c.addrs[n]))
    case TimeoutCheck(n) => s.(loops := s.loops[n := ElectionDue])
    case Begin(n) =>
      var n' := BeginElection(s.nodes[n]);
      s.(nodes := s.nodes[n := n'], loops := s.loops[n := Electing(n'.term, [])],
         network := s.network + Ask(c, n, n'.term, 0), ballots := s.ballots + {Ballot(n, n'.term, n)})
    case Answer(n, granted) =>
      var e := s.loops[n];
      s.(loops := s.loops[n := Electing(e.term, e.answers + [granted])],
         network := s.network + Ask(c, n, e.term, |e.answers| + 1))
    case Finish(n) =>
      var e := s.loops[n];
      var votes := Votes(e.answers);
      s.(nodes := s.nodes[n := FinishElection(s.nodes[n], e.term, votes, |c.peers[n]|, c.addrs[n])],
         loops := s.loops[n := Waiting],
         wins := if Wins(s.nodes[n], e.term, votes, |c.peers[n]|) then s.wins + {Win(n, e.term)} else s.wins)
    case VoteTest(v, cand, term) => s.(handlers := s.handlers + {Handler(v, cand, term)})
    case VoteWrite(v, cand, term) =>
      s.(nodes := s.nodes[v := Grant(s.nodes[v], term)], network := s.network + {VoteGranted(v, cand, term)},
         ballots := s.ballots + {Ballot(v, term, cand)})
    case HeartbeatArrives(from, n, term, addr) =>
      s.(nodes := s.nodes[n := OnHeartbeat(s.nodes[n], term, addr)])
  }

  /** Nothing came between the two halves of a vote: it is written while its request is still newer. */
  predicate VoteUndisturbed(c: Config, s: State, a: Action)
    requires WellSized(c, s) && Enabled(c, s, a)
  {
    a.VoteWrite? ==> WouldGrant(s.nodes[a.voter], a.term)
  }

  /** Nothing came between the two halves of a heartbeat tick: the term is read while the node still leads. */
  predicate TickUndisturbed(c: Config, s: State, a: Action)
    requires WellSized(c, s) && Enabled(c, s, a)
  {
    a.TickSend? ==> s.nodes[a.n].role == Leader
  }

  /** A run of the program: any interleaving of its lock regions. */
  ghost predicate Run(c: Config, states: seq<State>, acts: seq<Action>) {
    && Membership(c) && |states| == |acts| + 1 && states[0] == Init(c)
    && (forall i :: 0 <= i < |states| ==> WellSized(c, states[i]))
    && forall i {:trigger acts[i]} :: 0 <= i < |acts| ==>
         Enabled(c, states[i], acts[i]) && states[i + 1] == Apply(c, states[i], acts[i])
  }

  /** A run of the one-step vote handler: no vote is disturbed, while heartbeat ticks may be. */
  ghost predicate AtomicVoteRun(c: Config, states: seq<State>, acts: seq<Action>) {
    && Run(c, states, acts)
    && forall i {:trigger acts[i]} :: 0 <= i < |acts| ==> VoteUndisturbed(c, states[i], acts[i])
  }

  /** A run in which heartbeat ticks are one step, too. */
  ghost predicate CalmRun(c: Config, states: seq<State>, acts: seq<Action>) {
    && AtomicVoteRun(c, states, acts)
    && forall i {:trigger acts[i]} :: 0 <= i < |acts| ==> TickUndisturbed(c, states[i], acts[i])
  }

  // -------------------------------------------------- what holds in any run

  /** History only grows, in any run. */
  lemma {:induction false} HistoryGrows(c: Config, states: seq<State>, acts: seq<Action>, i: nat, j: nat)
    requires Run(c, states, acts) && i <= j < |states|
    ensures states[i].wins <= states[j].wins && states[i].network <= states[j].network
    decreases j - i
  {
    if i < j {
      HistoryGrows(c, states, acts, i, j - 1);
      assert states[j] == Apply(c, states[j - 1], acts[j - 1]);
    }
  }

  /** Every vote is written at a term no lower than the voter's own at that moment. */
  ghost predicate NoLoweringVote(states: seq<State>, acts: seq<Action>) {
    |states| == |acts| + 1 &&
    forall i {:trigger acts[i]} :: 0 <= i < |acts| && acts[i].VoteWrite? && acts[i].voter < |states[i].nodes| ==>
      acts[i].term >= states[i].nodes[acts[i].voter].term
  }

  /** Some node's term is lower afterwards. */
  ghost predicate SomeTermFalls(s: State, s': State)
    requires |s.nodes| == |s'.nodes|
  {
    exists n :: 0 <= n < |s.nodes| && s'.nodes[n].term < s.nodes[n].term
  }

  /** A step takes some node's term down exactly when it is such a vote. */
  lemma StepLowersIff(c: Config, s: State, a: Action)
    requires WellSized(c, s) && Enabled(c, s, a)
    ensures SomeTermFalls(s, Apply(c, s, a)) <==> a.VoteWrite? && a.term < s.nodes[a.voter].term
  {
    if a.VoteWrite? && a.term < s.nodes[a.voter].term {
      assert Apply(c, s, a).nodes[a.voter].term < s.nodes[a.voter].term;
    }
  }

  /** In any run in which no vote lowers a term, no node's term ever goes down. */
  lemma {:induction false} TermsRise(c: Config, states: seq<State>, acts: seq<Action>, i: nat, j: nat, n: nat)
    requires Run(c, states, acts) && NoLoweringVote(states, acts) && i <= j < |states| && n < |c.peers|
    ensures states[i].nodes[n].term <= states[j].nodes[n].term
    decreases j - i
  {
    if i < j {
      TermsRise(c, states, acts, i, j - 1, n);
      StepLowersIff(c, states[j - 1], acts[j - 1]);
      assert states[j] == Apply(c, states[j - 1], acts[j - 1]);
    }
  }

  ghost predicate TermsNeverFall(c: Config, states: seq<State>) {
    && (forall i :: 0 <= i < |states| ==> WellSized(c, states[i]))
    && forall n, i, j :: 0 <= n < |c.peers| && 0 <= i <= j < |states| ==>
         states[i].nodes[n].term <= states[j].nodes[n].term
  }

  /**
   In any run, split votes included, all terms rise exactly when every vote is written
   at a term no lower than its voter's; so they do in runs of the one-step handler.
   */
  lemma TermsRiseIff(c: Config, states: seq<State>, acts: seq<Action>)
    requires Run(c, states, acts)
    ensures TermsNeverFall(c, states) <==> NoLoweringVote(states, acts)
    ensures AtomicVoteRun(c, states, acts) ==> TermsNeverFall(c, states)
  {
    if NoLoweringVote(states, acts) {
      forall n, i, j | 0 <= n < |c.peers| && 0 <= i <= j < |states|
        ensures states[i].nodes[n].term <= states[j].nodes[n].term
      {
        TermsRise(c, states, acts, i, j, n);
      }
    }
    if TermsNeverFall(c, states) {
      forall i | 0 <= i < |acts| && acts[i].VoteWrite? ensures acts[i].term >= states[i].nodes[acts[i].voter].term {
        assert states[i + 1] == Apply(c, states[i], acts[i]);
        assert states[i].nodes[acts[i].voter].term <= states[i + 1].nodes[acts[i].voter].term;
      }
    }
  }
}
