/**
 Why the election is safe: an inductive invariant over ballots, votes and wins, in
 which two majorities share a voter, and the theorems about runs that follow from it.
 */
module ElectionProof {
  import opened Basics
  import opened ClusterNode
  import opened Election

  // ---------------------------------------------------------------- quorums

  ghost function Range(n: nat): (r: set<nat>)
    ensures forall i: nat :: i in r <==> i < n
    ensures |r| == n
  {
    if n == 0 then {} else Range(n - 1) + {n - 1}
  }

  ghost predicate IsQuorum(c: Config, q: set<nat>) {
    q <= Range(|c.peers|) && 2 * |q| > |c.peers|
  }

  lemma QuorumsMeet(c: Config, q1: set<nat>, q2: set<nat>) returns (v: nat)
    requires IsQuorum(c, q1) && IsQuorum(c, q2)
    ensures v in q1 && v in q2
  {
    SubsetSize(q1 + q2, Range(|c.peers|));
    assert |q1 + q2| == |q1| + |q2| - |q1 * q2|;
    assert q1 * q2 != {};
    v :| v in q1 * q2;
  }

  /** The nodes whose votes `Votes(answers)` counts. */
  ghost function Voters(c: Config, n: nat, answers: seq<bool>): (q: set<nat>)
    requires n < |c.peers| && |answers| <= |c.peers[n]|
  {
    if |answers| == 0 then {n}
    else
      var k := |answers| - 1;
      Voters(c, n, answers[..k]) + if answers[k] then {c.peers[n][k]} else {}
  }

  lemma {:induction false} VotersAre(c: Config, n: nat, answers: seq<bool>, v: nat)
    requires n < |c.peers| && |answers| <= |c.peers[n]|
    requires v in Voters(c, n, answers)
    ensures v == n || exists i :: 0 <= i < |answers| && answers[i] && c.peers[n][i] == v
  {
    if |answers| > 0 {
      var k := |answers| - 1;
      if !(answers[k] && c.peers[n][k] == v) {
        VotersAre(c, n, answers[..k], v);
      }
    }
  }

  lemma {:induction false} VotersCounted(c: Config, n: nat, answers: seq<bool>)
    requires Membership(c) && n < |c.peers| && |answers| <= |c.peers[n]|
    ensures |Voters(c, n, answers)| == Votes(answers)
    ensures Voters(c, n, answers) <= Range(|c.peers|)
  {
    if |answers| > 0 {
      var k := |answers| - 1;
      VotersCounted(c, n, answers[..k]);
      var p := c.peers[n][k];
      assert p in c.peers[n];
      if p in Voters(c, n, answers[..k]) {
        VotersAre(c, n, answers[..k], p);
      }
    }
  }

  lemma {:induction false} PeerCount(c: Config, n: nat)
    requires Membership(c) && n < |c.peers|
    ensures |c.peers[n]| + 1 == |c.peers|
  {
    var ps := c.peers[n];
    DistinctSize(ps);
    assert Members(ps) == Range(|c.peers|) - {n};
  }

  lemma {:induction false} DistinctSize(s: seq<nat>)
    requires forall i, j :: 0 <= i < j < |s| ==> s[i] != s[j]
    ensures |Members(s)| == |s|
  {
    if |s| > 0 {
      DistinctSize(s[..|s| - 1]);
      assert Members(s) == Members(s[..|s| - 1]) + {s[|s| - 1]};
    }
  }

  ghost function Members(s: seq<nat>): set<nat> {
    set x | x in s
  }

  // -------------------------------------------------------------- invariant

  /** Nobody has voted for two candidates in one term. */
  ghost predicate NoDoubleBallot(s: State) {
    forall b1, b2 ::
      b1 in s.ballots && b2 in s.ballots && b1.voter == b2.voter && b1.term == b2.term ==> b1 == b2
  }

  /** No ballot is of a later term than its voter's. */
  ghost predicate BallotsInTerm(s: State) {
    forall b :: b in s.ballots ==> b.voter < |s.nodes| && s.nodes[b.voter].term >= b.term
  }

  ghost predicate GrantsHold(c: Config, s: State)
    requires WellSized(c, s)
  {
    forall m :: m in s.network && m.VoteGranted? ==> Ballot(m.from, m.term, m.to) in s.ballots
  }

  /** Each heartbeat comes from the winner of its term and names that node's address. */
  ghost predicate HeartbeatsHold(c: Config, s: State)
    requires WellSized(c, s)
  {
    forall m :: m in s.network && m.Heartbeat? ==>
      m.from < |c.addrs| && m.to != m.from && m.addr == c.addrs[m.from] && Win(m.from, m.term) in s.wins
  }

  ghost predicate LoopHolds(c: Config, s: State, n: nat)
    requires WellSized(c, s) && n < |s.nodes|
  {
    match s.loops[n]
    case Waiting => true
    case TickSawLeader => true
    case ElectionDue => s.nodes[n].role != Leader
    case Electing(term, answers) =>
      && s.nodes[n].role != Leader
      && |answers| <= |c.peers[n]| && Ballot(n, term, n) in s.ballots
      && forall i :: 0 <= i < |answers| && answers[i] ==> Ballot(c.peers[n][i], term, n) in s.ballots
  }

  ghost predicate AllVoted(s: State, q: set<nat>, w: Win) {
    forall v :: v in q ==> Ballot(v, w.term, w.node) in s.ballots
  }

  ghost predicate Elected(c: Config, s: State, w: Win) {
    exists q :: IsQuorum(c, q) && AllVoted(s, q, w)
  }

  /** What every step of every run keeps: wins are backed by ballots, and leaders by wins. */
  ghost predicate Inv(c: Config, s: State) {
    && WellSized(c, s) && GrantsHold(c, s)
    && (forall n :: 0 <= n < |s.nodes| ==> LoopHolds(c, s, n))
    && (forall w :: w in s.wins ==> w.node < |s.nodes| && Elected(c, s, w))
    && (forall n :: 0 <= n < |s.nodes| && s.nodes[n].role == Leader ==> Win(n, s.nodes[n].term) in s.wins)
  }

  lemma InitInv(c: Config)
    requires Membership(c)
    ensures Inv(c, Init(c))
  {
    var s := Init(c);
    forall w | w in s.wins ensures w.node < |s.nodes| && Elected(c, s, w) {
      PeerCount(c, w.node);
      var q := {w.node};
      assert IsQuorum(c, q) && AllVoted(s, q, w);
    }
  }

  /** More ballots keep a win elected. */
  lemma ElectedKept(c: Config, s: State, s': State, w: Win)
    requires s.ballots <= s'.ballots && Elected(c, s, w)
    ensures Elected(c, s', w)
  {
    var q :| IsQuorum(c, q) && AllVoted(s, q, w);
    assert AllVoted(s', q, w);
  }

  lemma WinsKept(c: Config, s: State, s': State)
    requires Inv(c, s) && s.ballots <= s'.ballots && |s.nodes| == |s'.nodes|
    ensures forall w :: w in s.wins ==> w.node < |s'.nodes| && Elected(c, s', w)
  {
    forall w | w in s.wins ensures Elected(c, s', w) {
      ElectedKept(c, s, s', w);
    }
  }

  lemma TickSendInv(c: Config, s: State, n: nat)
    requires Inv(c, s) && Enabled(c, s, TickSend(n))
    ensures Inv(c, Apply(c, s, TickSend(n)))
  {
    var s' := Apply(c, s, TickSend(n));
    WinsKept(c, s, s');
    forall m | 0 <= m < |s.nodes| ensures LoopHolds(c, s', m) {
      assert LoopHolds(c, s, m);
    }
  }

  lemma BeginInv(c: Config, s: State, n: nat)
    requires Inv(c, s) && Enabled(c, s, Begin(n))
    ensures Inv(c, Apply(c, s, Begin(n)))
  {
    var s' := Apply(c, s, Begin(n));
    WinsKept(c, s, s');
    forall m | 0 <= m < |s.nodes| ensures LoopHolds(c, s', m) {
      assert LoopHolds(c, s, m);
    }
  }

  lemma AnswerInv(c: Config, s: State, n: nat, granted: bool)
    requires Inv(c, s) && Enabled(c, s, Answer(n, granted))
    ensures Inv(c, Apply(c, s, Answer(n, granted)))
  {
    var s' := Apply(c, s, Answer(n, granted));
    WinsKept(c, s, s');
    forall m | 0 <= m < |s.nodes| ensures LoopHolds(c, s', m) {
      assert LoopHolds(c, s, m);
    }
  }

  lemma FinishInv(c: Config, s: State, n: nat)
    requires Membership(c) && Inv(c, s) && Enabled(c, s, Finish(n))
    ensures Inv(c, Apply(c, s, Finish(n)))
  {
    var s' := Apply(c, s, Finish(n));
    WinsKept(c, s, s');
    var e := s.loops[n];
    assert LoopHolds(c, s, n);
    if Wins(s.nodes[n], e.term, Votes(e.answers), |c.peers[n]|) {
      MajorityElects(c, s', n, e);
    }
    forall m | 0 <= m < |s.nodes| ensures LoopHolds(c, s', m) {
      assert LoopHolds(c, s, m);
    }
  }

  /** A counted majority is a quorum of ballots. */
  lemma MajorityElects(c: Config, s: State, n: nat, e: Loop)
    requires Membership(c) && n < |c.peers|
    requires e.Electing? && |e.answers| == |c.peers[n]| && Votes(e.answers) >= Majority(|c.peers[n]|)
    requires Ballot(n, e.term, n) in s.ballots
    requires forall i :: 0 <= i < |e.answers| && e.answers[i] ==> Ballot(c.peers[n][i], e.term, n) in s.ballots
    ensures Elected(c, s, Win(n, e.term))
  {
    var q := Voters(c, n, e.answers);
    VotersCounted(c, n, e.answers);
    PeerCount(c, n);
    assert IsQuorum(c, q);
    forall v | v in q ensures Ballot(v, e.term, n) in s.ballots {
      VotersAre(c, n, e.answers, v);
    }
    assert AllVoted(s, q, Win(n, e.term));
  }

  lemma VoteWriteInv(c: Config, s: State, a: Action)
    requires a.VoteWrite? && Inv(c, s) && Enabled(c, s, a)
    ensures Inv(c, Apply(c, s, a))
  {
    var s' := Apply(c, s, a);
    WinsKept(c, s, s');
    forall m | 0 <= m < |s.nodes| ensures LoopHolds(c, s', m) {
      assert LoopHolds(c, s, m);
    }
  }

  lemma HeartbeatInv(c: Config, s: State, a: Action)
    requires a.HeartbeatArrives? && Inv(c, s) && Enabled(c, s, a)
    ensures Inv(c, Apply(c, s, a))
  {
    var s' := Apply(c, s, a);
    WinsKept(c, s, s');
    forall m | 0 <= m < |s.nodes| ensures LoopHolds(c, s', m) {
      assert LoopHolds(c, s, m);
    }
  }

  lemma CheckInv(c: Config, s: State, a: Action)
    requires a.TickCheck? || a.TimeoutCheck? || a.VoteTest?
    requires Inv(c, s) && Enabled(c, s, a)
    ensures Inv(c, Apply(c, s, a))
  {
    var s' := Apply(c, s, a);
    WinsKept(c, s, s');
    forall m | 0 <= m < |s.nodes| ensures LoopHolds(c, s', m) {
      assert LoopHolds(c, s, m);
    }
  }

  /** Every step of the program keeps the invariant, disturbed ones included. */
  lemma StepInv(c: Config, s: State, a: Action)
    requires Membership(c) && Inv(c, s) && Enabled(c, s, a)
    ensures Inv(c, Apply(c, s, a))
  {
    match a
    case TickSend(n) => TickSendInv(c, s, n);
    case Begin(n) => BeginInv(c, s, n);
    case Answer(n, granted) => AnswerInv(c, s, n, granted);
    case Finish(n) => FinishInv(c, s, n);
    case VoteWrite(_, _, _) => VoteWriteInv(c, s, a);
    case HeartbeatArrives(_, _, _, _) => HeartbeatInv(c, s, a);
    case _ => CheckInv(c, s, a);
  }

  lemma {:induction false} RunInv(c: Config, states: seq<State>, acts: seq<Action>, i: nat)
    requires Run(c, states, acts) && i < |states|
    ensures Inv(c, states[i])
  {
    if i == 0 {
      InitInv(c);
    } else {
      RunInv(c, states, acts, i - 1);
      StepInv(c, states[i - 1], acts[i - 1]);
    }
  }

  // --------------------------------------------------------------- double votes

  /** The ballot that a step casts: a vote that is written, or a candidate's own. */
  function Cast(c: Config, s: State, a: Action): set<Ballot>
    requires WellSized(c, s) && Enabled(c, s, a)
  {
    match a
    case Begin(n) => {Ballot(n, s.nodes[n].term + 1, n)}
    case VoteWrite(v, cand, term) => {Ballot(v, term, cand)}
    case _ => {}
  }

  /** The step casts a second vote in a term in which its voter has voted for another. */
  ghost predicate VotesTwice(c: Config, s: State, a: Action)
    requires WellSized(c, s) && Enabled(c, s, a)
  {
    exists b1, b2 ::
      b1 in s.ballots && b2 in Cast(c, s, a) && b1.voter == b2.voter && b1.term == b2.term
        && b1.candidate != b2.candidate
  }

  lemma StepCasts(c: Config, s: State, a: Action)
    requires WellSized(c, s) && Enabled(c, s, a)
    ensures Apply(c, s, a).ballots == s.ballots + Cast(c, s, a)
    ensures forall b1, b2 :: b1 in Cast(c, s, a) && b2 in Cast(c, s, a) ==> b1 == b2
  {
  }

  /** Double ballots come only from such steps: a late vote is harmful exactly when it is one. */
  lemma StepBallotsIff(c: Config, s: State, a: Action)
    requires WellSized(c, s) && Enabled(c, s, a) && NoDoubleBallot(s)
    ensures NoDoubleBallot(Apply(c, s, a)) <==> !VotesTwice(c, s, a)
  {
    StepCasts(c, s, a);
    var s' := Apply(c, s, a);
    if b1, b2 :| b1 in s.ballots && b2 in Cast(c, s, a) && b1.voter == b2.voter && b1.term == b2.term
                 && b1.candidate != b2.candidate {
      assert b1 in s'.ballots && b2 in s'.ballots;
    }
  }

  /** An undisturbed vote is cast in a term that its voter had not reached. */
  lemma UndisturbedIsNew(c: Config, s: State, a: Action)
    requires WellSized(c, s) && Enabled(c, s, a) && VoteUndisturbed(c, s, a) && BallotsInTerm(s)
    ensures !VotesTwice(c, s, a) && BallotsInTerm(Apply(c, s, a))
  {
    StepCasts(c, s, a);
  }

  lemma {:induction false} RunBallots(c: Config, states: seq<State>, acts: seq<Action>, i: nat)
    requires AtomicVoteRun(c, states, acts) && i < |states|
    ensures NoDoubleBallot(states[i]) && BallotsInTerm(states[i])
  {
    if i > 0 {
      RunBallots(c, states, acts, i - 1);
      UndisturbedIsNew(c, states[i - 1], acts[i - 1]);
      StepBallotsIff(c, states[i - 1], acts[i - 1]);
    }
  }

  /** A tick in one step announces only the winner of its term; no other step sends heartbeats. */
  lemma StepHeartbeats(c: Config, s: State, a: Action)
    requires Membership(c) && Inv(c, s) && HeartbeatsHold(c, s) && Enabled(c, s, a) && TickUndisturbed(c, s, a)
    ensures HeartbeatsHold(c, Apply(c, s, a))
  {
  }

  lemma {:induction false} RunHeartbeats(c: Config, states: seq<State>, acts: seq<Action>, i: nat)
    requires CalmRun(c, states, acts) && i < |states|
    ensures HeartbeatsHold(c, states[i])
  {
    if i > 0 {
      RunHeartbeats(c, states, acts, i - 1);
      RunInv(c, states, acts, i - 1);
      StepHeartbeats(c, states[i - 1], acts[i - 1]);
    }
  }

  // ------------------------------------------------------ who wins, who is known

  lemma {:induction false} VotersAll(c: Config, n: nat, answers: seq<bool>)
    requires n < |c.peers| && |answers| <= |c.peers[n]|
    ensures Voters(c, n, answers) == {n} + set i | 0 <= i < |answers| && answers[i] :: c.peers[n][i]
  {
    if |answers| > 0 {
      var k := |answers| - 1;
      VotersAll(c, n, answers[..k]);
      assert forall i :: 0 <= i < k ==> answers[..k][i] == answers[i];
    }
  }

  /**
   An election that ends makes its node leader of the election's term exactly when the node
   and the peers that granted are more than half of all nodes and it is still that term's
   candidate; otherwise a candidate follows again. Nobody else changes.
   */
  lemma ElectionOutcome(c: Config, s: State, n: nat)
    requires Membership(c) && WellSized(c, s) && Enabled(c, s, Finish(n))
    ensures var (e, before, after) := (s.loops[n], s.nodes[n], Apply(c, s, Finish(n)).nodes[n]);
      var yes := {n} + set i | 0 <= i < |e.answers| && e.answers[i] :: c.peers[n][i];
      after ==
      if 2 * |yes| > |c.peers| && before.role == Candidate && before.term == e.term
      then NodeState(e.term, Leader, c.addrs[n])
      else NodeState(before.term, if before.role == Candidate then Follower else before.role, before.leader)
    ensures forall m :: 0 <= m < |s.nodes| && m != n ==> Apply(c, s, Finish(n)).nodes[m] == s.nodes[m]
  {
    VotersAll(c, n, s.loops[n].answers);
    VotersCounted(c, n, s.loops[n].answers);
    PeerCount(c, n);
  }

  /** A node with peers starts a heartbeat tick only while it leads, and an election only while it does not. */
  lemma LoopStarts(c: Config, s: State, a: Action, n: nat)
    requires WellSized(c, s) && Enabled(c, s, a) && n < |s.nodes|
    ensures var before, after := s.loops[n], Apply(c, s, a).loops[n];
      && (after == TickSawLeader && before != TickSawLeader ==>
            before == Waiting && s.nodes[n].role == Leader && |c.peers[n]| > 0)
      && (after == ElectionDue && before != ElectionDue ==>
            before == Waiting && s.nodes[n].role != Leader && |c.peers[n]| > 0)
      && (after.Electing? && !before.Electing? ==> before == ElectionDue)
  {
  }

  /** The leader that a node knows, if any, has won a term that the node has reached. */
  ghost predicate LeaderKnown(c: Config, s: State, n: nat)
    requires WellSized(c, s) && n < |s.nodes|
  {
    s.nodes[n].leader == "" ||
    exists w :: w in s.wins && w.node < |c.addrs| && w.term <= s.nodes[n].term && s.nodes[n].leader == c.addrs[w.node]
  }

  lemma StepKnowsLeader(c: Config, s: State, a: Action, n: nat)
    requires Inv(c, s) && HeartbeatsHold(c, s) && Enabled(c, s, a) && VoteUndisturbed(c, s, a)
    requires n < |s.nodes| && LeaderKnown(c, s, n)
    ensures LeaderKnown(c, Apply(c, s, a), n)
  {
    var s' := Apply(c, s, a);
    if s'.nodes[n].leader == s.nodes[n].leader && s.nodes[n].leader != "" {
      var w :| w in s.wins && w.node < |c.addrs| && w.term <= s.nodes[n].term && s.nodes[n].leader == c.addrs[w.node];
      assert w in s'.wins;
    } else if a.HeartbeatArrives? && a.n == n {
      assert Win(a.from, a.term) in s'.wins;
    } else if a.Finish? && a.n == n {
      assert s'.nodes[n].leader != s.nodes[n].leader ==> Win(n, s'.nodes[n].term) in s'.wins;
    }
  }

  /**
   In every run without disturbed votes and ticks, the leader that a node knows has won a
   term that the node has reached, and an accepted heartbeat names the winner of its term.
   */
  lemma {:induction false} KnownLeaders(c: Config, states: seq<State>, acts: seq<Action>, i: nat, n: nat)
    requires CalmRun(c, states, acts) && i < |states| && n < |c.peers|
    ensures LeaderKnown(c, states[i], n)
    ensures i < |acts| && acts[i].HeartbeatArrives? && acts[i].n == n && acts[i].term >= states[i].nodes[n].term ==>
              && Win(acts[i].from, acts[i].term) in states[i].wins && acts[i].from < |c.addrs|
              && states[i + 1].nodes[n] == NodeState(acts[i].term, Follower, c.addrs[acts[i].from])
  {
    RunInv(c, states, acts, i);
    RunHeartbeats(c, states, acts, i);
    if i > 0 {
      KnownLeaders(c, states, acts, i - 1, n);
      RunInv(c, states, acts, i - 1);
      RunHeartbeats(c, states, acts, i - 1);
      StepKnowsLeader(c, states[i - 1], acts[i - 1], n);
    } else if |c.peers[n]| == 0 {
      assert Win(n, 0) in states[0].wins;
    }
    if i < |acts| {
      assert states[i + 1] == Apply(c, states[i], acts[i]);
    }
  }

  // ---------------------------------------------------------------- theorems

  /** One state: a term is won by at most one node. */
  lemma OneWinner(c: Config, s: State, w1: Win, w2: Win)
    requires Inv(c, s) && NoDoubleBallot(s) && w1 in s.wins && w2 in s.wins && w1.term == w2.term
    ensures w1 == w2
  {
    assert Elected(c, s, w1) && Elected(c, s, w2);
    var q1 :| IsQuorum(c, q1) && AllVoted(s, q1, w1);
    var q2 :| IsQuorum(c, q2) && AllVoted(s, q2, w2);
    var v := QuorumsMeet(c, q1, q2);
    assert Ballot(v, w1.term, w1.node) in s.ballots && Ballot(v, w2.term, w2.node) in s.ballots;
  }

  /**
   Two nodes that lead in the same term, at any two moments of any run, late votes
   included, are the same node as long as nobody votes twice in one term.
   */
  lemma SafeUnlessDoubleVote(c: Config, states: seq<State>, acts: seq<Action>, i: nat, j: nat, a: nat, b: nat)
    requires Run(c, states, acts) && i < |states| && j < |states| && NoDoubleBallot(states[|acts|])
    requires a < |states[i].nodes| && states[i].nodes[a].role == Leader
    requires b < |states[j].nodes| && states[j].nodes[b].role == Leader
    requires states[i].nodes[a].term == states[j].nodes[b].term
    ensures a == b
  {
    var last := |acts|;
    RunInv(c, states, acts, i);
    RunInv(c, states, acts, j);
    RunInv(c, states, acts, last);
    HistoryGrows(c, states, acts, i, last);
    HistoryGrows(c, states, acts, j, last);
    OneWinner(c, states[last], Win(a, states[i].nodes[a].term), Win(b, states[j].nodes[b].term));
  }

  /**
   Election safety: two nodes that lead in the same term, at any two moments of any run
   of the one-step vote handler, are the same node.
   */
  lemma ElectionSafety(c: Config, states: seq<State>, acts: seq<Action>, i: nat, j: nat, a: nat, b: nat)
    requires AtomicVoteRun(c, states, acts) && i < |states| && j < |states|
    requires a < |states[i].nodes| && states[i].nodes[a].role == Leader
    requires b < |states[j].nodes| && states[j].nodes[b].role == Leader
    requires states[i].nodes[a].term == states[j].nodes[b].term
    ensures a == b
  {
    RunBallots(c, states, acts, |acts|);
    SafeUnlessDoubleVote(c, states, acts, i, j, a, b);
  }

  /** All heartbeats of one term, whenever sent, name the same address. */
  lemma HeartbeatsAgree(c: Config, states: seq<State>, acts: seq<Action>, i: nat, j: nat, m1: Message, m2: Message)
    requires CalmRun(c, states, acts) && i < |states| && j < |states|
    requires m1 in states[i].network && m1.Heartbeat? && m2 in states[j].network && m2.Heartbeat?
    requires m1.term == m2.term
    ensures m1.addr == m2.addr && m1.from == m2.from
  {
    var last := |acts|;
    RunInv(c, states, acts, last);
    RunBallots(c, states, acts, last);
    RunHeartbeats(c, states, acts, last);
    HistoryGrows(c, states, acts, i, last);
    HistoryGrows(c, states, acts, j, last);
    OneWinner(c, states[last], Win(m1.from, m1.term), Win(m2.from, m2.term));
  }

  /** A leader stops leading only by receiving a vote request or heartbeat of a higher term. */
  lemma LeaderYieldsToHigherTerm(c: Config, states: seq<State>, acts: seq<Action>, i: nat, n: nat)
    requires CalmRun(c, states, acts) && i < |acts|
    requires n < |states[i].nodes| && states[i].nodes[n].role == Leader
    ensures n < |states[i + 1].nodes|
    ensures states[i + 1].nodes[n].role != Leader ==>
              && states[i + 1].nodes[n].term > states[i].nodes[n].term
              && match acts[i]
                 case VoteWrite(v, _, term) => v == n && term > states[i].nodes[n].term
                 case HeartbeatArrives(_, to, term, _) => to == n && term > states[i].nodes[n].term
                 case _ => false
  {
    var s, a := states[i], acts[i];
    RunInv(c, states, acts, i);
    RunBallots(c, states, acts, i);
    RunHeartbeats(c, states, acts, i);
    assert LoopHolds(c, s, n);
    assert states[i + 1] == Apply(c, s, a);
    if a.HeartbeatArrives? && a.n == n && a.term == s.nodes[n].term {
      OneWinner(c, s, Win(n, a.term), Win(a.from, a.term));
    }
  }
}
