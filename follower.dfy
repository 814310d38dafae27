/** The follower role: it answers the two Raft RPCs through the log, remembers
    the last leader it heard from, and restarts its election timer whenever a
    leader calls or it grants a vote.

    The timer itself is not modelled; `electionResets` counts how often it was
    restarted, so a contract can say when a restart happens. */
module FollowerRole {
  import opened RaftTypes
  import opened RaftLog

  class Follower {
    const log: Log
    var leaderId: int          // 0 until a leader has called
    var electionResets: nat

    constructor (log: Log)
      ensures this.log == log && leaderId == 0 && electionResets == 0
    {
      this.log := log;
      leaderId := 0;
      electionResets := 0;
    }

    /** Restarts the election timer (its randomised delay is not modelled). */
    method ResetElectionTimeout()
      modifies this`electionResets
      ensures electionResets == old(electionResets) + 1
    {
      electionResets := electionResets + 1;
    }

    /** A call carrying a higher term moves the log into that term with no vote
        cast; the follower stays a follower whatever the term. */
    method AssertRole(term: int) returns (change: Option<RoleName>)
      modifies log`currentTerm, log`votedFor
      ensures change == None
      ensures log.currentTerm == Max(old(log.currentTerm), term)
      ensures term > old(log.currentTerm) ==> log.votedFor == 0
      ensures term <= old(log.currentTerm) ==> log.votedFor == old(log.votedFor)
    {
      if term > log.currentTerm {
        log.currentTerm := term;
        log.votedFor := 0;
      }
      change := None;
    }

    /** The RequestVote receiver of the log; a granted vote also restarts the
        election timer, a refused one or a failed write does not. */
    method RequestVote(info: VoteInfo, storageOk: bool) returns (ack: Ack, write: Option<StorageWrite>)
      modifies log`votedFor, this`electionResets
      ensures RequestVoteEffect(log, info, storageOk, ack, write)
      ensures electionResets == old(electionResets) + (if ack.success then 1 else 0)
    {
      ack, write := log.RequestVote(info, storageOk);
      if ack.success {
        ResetElectionTimeout();
      }
    }

    /** Any AppendEntries call, accepted or not, names the leader and restarts
        the election timer before the log decides on it. */
    method AppendEntries(info: AppendInfo, storageOk: bool, sm: int -> SmReply)
      returns (ack: Ack, write: Option<StorageWrite>, events: seq<LogEvent>)
      requires log.Valid()
      modifies this`leaderId, this`electionResets, log`entries, log`commitIndex, log`lastApplied
      ensures log.Valid()
      ensures leaderId == info.leaderId
      ensures electionResets == old(electionResets) + 1
      ensures AppendEntriesEffect(log, info, storageOk, sm, ack, write, events)
    {
      leaderId := info.leaderId;
      ResetElectionTimeout();
      ack, write, events := log.AppendEntries(info, storageOk, sm);
    }

    /** A follower refuses client requests and points at the last leader it heard from. */
    method Request() returns (err: RequestError)
      ensures err == NotTheLeader(leaderId)
    {
      err := NotTheLeader(leaderId);
    }
  }
}
