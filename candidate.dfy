/** The candidate role: it collects granted votes, becomes leader once more
    than half of the cluster (itself included) has voted for it, and steps
    down when a call shows a newer term or a leader of its own term. It
    refuses both Raft RPCs and client requests.

    The election timer is not modelled; `electionTimerArmed` records whether
    it is running. */
module CandidateRole {
  import opened RaftTypes
  import opened RaftLog

  /** Who has voted for this candidate: the node itself, or a peer by id. */
  datatype Voter = SelfVoter | PeerVoter(id: int)

  /** `votes` wins an election in a cluster of `totalPeers` peers plus this
      node: more than half of all nodes voted for it. */
  predicate Wins(votes: set<Voter>, totalPeers: int)
  {
    2 * |votes| > totalPeers + 1
  }

  /** Every node of a cluster: this node and its peers. */
  function Cluster(peerIds: seq<int>): (c: set<Voter>)
    ensures forall v :: v in c <==> v == SelfVoter || (v.PeerVoter? && v.id in peerIds)
  {
    {SelfVoter} + PeerVoters(peerIds)
  }

  function PeerVoters(peerIds: seq<int>): (c: set<Voter>)
    ensures forall v :: v in c <==> v.PeerVoter? && v.id in peerIds
  {
    if peerIds == [] then {} else {PeerVoter(peerIds[0])} + PeerVoters(peerIds[1..])
  }

  /** A subset is no larger than the set that holds it. */
  lemma {:induction false} SubsetNoLarger<T>(a: set<T>, b: set<T>)
    requires a <= b
    ensures |a| <= |b|
    decreases |a|
  {
    if a != {} {
      var x :| x in a;
      SubsetNoLarger(a - {x}, b - {x});
    }
  }

  /** Two winning sets of votes drawn from the same cluster share a voter; as
      a node votes at most once per term, two candidates cannot both win in
      one term. */
  lemma QuorumsIntersect(cluster: set<Voter>, a: set<Voter>, b: set<Voter>)
    requires a <= cluster && b <= cluster
    requires 2 * |a| > |cluster| && 2 * |b| > |cluster|
    ensures a * b != {}
  {
    SubsetNoLarger(a + b, cluster);
  }

  /** A cluster of distinct peer ids has one node more than it has peers. */
  lemma {:induction false} ClusterSize(peerIds: seq<int>)
    requires forall j, k :: 0 <= j < k < |peerIds| ==> peerIds[j] != peerIds[k]
    ensures |Cluster(peerIds)| == |peerIds| + 1
  {
    PeerVotersSize(peerIds);
  }

  lemma {:induction false} PeerVotersSize(peerIds: seq<int>)
    requires forall j, k :: 0 <= j < k < |peerIds| ==> peerIds[j] != peerIds[k]
    ensures |PeerVoters(peerIds)| == |peerIds|
    decreases |peerIds|
  {
    if peerIds != [] {
      var rest := peerIds[1..];
      assert forall j, k :: 0 <= j < k < |rest| ==> rest[j] != rest[k] by {
        forall j, k | 0 <= j < k < |rest| ensures rest[j] != rest[k] {
          assert rest[j] == peerIds[j + 1] && rest[k] == peerIds[k + 1];
        }
      }
      PeerVotersSize(rest);
      assert peerIds[0] !in rest;
    }
  }

  /** Two sets of votes that each win an election in the same cluster have a
      voter in common. */
  lemma WinnersShareAVoter(peerIds: seq<int>, a: set<Voter>, b: set<Voter>)
    requires forall j, k :: 0 <= j < k < |peerIds| ==> peerIds[j] != peerIds[k]
    requires a <= Cluster(peerIds) && b <= Cluster(peerIds)
    requires Wins(a, |peerIds|) && Wins(b, |peerIds|)
    ensures exists v :: v in a && v in b
  {
    ClusterSize(peerIds);
    QuorumsIntersect(Cluster(peerIds), a, b);
    var v :| v in a * b;
  }

  class Candidate {
    const log: Log
    var votes: set<Voter>
    var electionTimerArmed: bool

    /** A new candidate counts its own vote. */
    constructor (log: Log)
      ensures this.log == log && votes == {SelfVoter} && !electionTimerArmed
    {
      this.log := log;
      votes := {SelfVoter};
      electionTimerArmed := false;
    }

    method ClearElectionTimeout()
      modifies this`electionTimerArmed
      ensures !electionTimerArmed
    {
      electionTimerArmed := false;
    }

    /** Restarts the election timer (its randomised delay is not modelled). */
    method ResetElectionTimeout()
      modifies this`electionTimerArmed
      ensures electionTimerArmed
    {
      ClearElectionTimeout();
      electionTimerArmed := true;
    }

    /** A higher term makes the candidate adopt it with no vote cast and step
        down; an AppendEntries call of its own term, which only a leader of
        that term sends, makes it step down without touching the log. Any
        other call changes nothing. */
    method AssertRole(term: int, isAppendEntries: bool) returns (change: Option<RoleName>)
      modifies log`currentTerm, log`votedFor, this`electionTimerArmed
      ensures term > old(log.currentTerm) ==>
        log.currentTerm == term && log.votedFor == 0 && !electionTimerArmed && change == Some(FollowerName)
      ensures term == old(log.currentTerm) && isAppendEntries ==>
        log.currentTerm == old(log.currentTerm) && log.votedFor == old(log.votedFor)
        && !electionTimerArmed && change == Some(FollowerName)
      ensures term < old(log.currentTerm) || (term == old(log.currentTerm) && !isAppendEntries) ==>
        log.currentTerm == old(log.currentTerm) && log.votedFor == old(log.votedFor)
        && electionTimerArmed == old(electionTimerArmed) && change == None
    {
      change := None;
      var currentTerm := log.currentTerm;
      if term > currentTerm {
        log.currentTerm := term;
        log.votedFor := 0;
        ClearElectionTimeout();
        change := Some(FollowerName);
      } else if term == currentTerm && isAppendEntries {
        ClearElectionTimeout();
        change := Some(FollowerName);
      }
    }

    /** Records a granted vote (a peer counts once however often it answers)
        and asks to become leader when the votes win the election. */
    method CountVote(vote: Vote, totalPeers: int) returns (change: Option<RoleName>)
      modifies this`votes, this`electionTimerArmed
      ensures votes == old(votes) + (if vote.voteGranted then {PeerVoter(vote.id)} else {})
      ensures change == Some(LeaderName) <==> vote.voteGranted && Wins(votes, totalPeers)
      ensures change != Some(LeaderName) ==> change == None && electionTimerArmed == old(electionTimerArmed)
      ensures change.Some? ==> !electionTimerArmed
    {
      change := None;
      if vote.voteGranted {
        votes := votes + {PeerVoter(vote.id)};
        if 2 * |votes| > totalPeers + 1 {
          ClearElectionTimeout();
          change := Some(LeaderName);
        }
      }
    }

    /** A candidate refuses a RequestVote call. */
    method RequestVote(info: VoteInfo) returns (ack: Ack)
      ensures !ack.success && !ack.storageError
    {
      ack := Ack(false, false);
    }

    /** A candidate refuses an AppendEntries call (one of its own term has
        already turned it into a follower). */
    method AppendEntries(info: AppendInfo) returns (ack: Ack)
      ensures !ack.success && !ack.storageError
    {
      ack := Ack(false, false);
    }

    /** A candidate refuses client requests: there is no leader to point at. */
    method Request() returns (err: RequestError)
      ensures err == NoLeader
    {
      err := NoLeader;
    }
  }
}
