/** A Raft node: it owns the log, holds exactly one role object at a time,
    replaces it when the role asks, routes both Raft RPCs and client requests
    to it, and answers a client once its entry has been executed.

    Every operation runs to completion synchronously. Its storage write (at
    most one per operation) succeeds when `storageOk` holds, `sm` stands for
    the state machine, and what the node sends is returned as `Outgoing`
    messages. The peers' transports are not modelled: a peer is its id. */
module Node {
  import opened RaftTypes
  import opened RaftLog
  import opened FollowerRole
  import opened CandidateRole
  import opened LeaderRole

  /** The role object the node currently holds; `NoRole` before `start`. */
  datatype RoleRef =
    | NoRole
    | AsFollower(f: Follower)
    | AsCandidate(c: Candidate)
    | AsLeader(l: Leader)
  {
    function Objects(): set<object>
    {
      match this
      case NoRole => {}
      case AsFollower(f) => {f}
      case AsCandidate(c) => {c}
      case AsLeader(l) => {l}
    }
  }

  /** A message handed to a peer's transport. */
  datatype Outgoing =
    | AppendEntriesTo(peerId: int, info: AppendInfo)
    | RequestVoteTo(peerId: int, vote: VoteInfo)

  /** A client callback fired with the state machine's result for the entry
      at `index`. */
  datatype Reply = Reply(index: int, result: int)

  /** What a client learns from `request`: the index its entry was stored
      at, or why it was refused. */
  datatype RequestResult = Stored(index: int) | Refused(error: RequestError)

  /** The pending requests and the replies after `events` were delivered. */
  datatype Settled = Settled(requests: map<int, AppendInfo>, replies: seq<Reply>)

  /** Whether `events` reports the execution of entry `index`. */
  predicate Executes(events: seq<LogEvent>, index: int)
  {
    exists k :: 0 <= k < |events| && events[k].Executed? && events[k].index == index
  }

  /** Whether `events` reports the execution of entry `index` with `result`. */
  predicate ExecutesWith(events: seq<LogEvent>, index: int, result: int)
  {
    exists k :: 0 <= k < |events| && events[k].Executed? && events[k].index == index && events[k].result == result
  }

  /** Delivering `events` in order to `onExecuted`: every pending request
      whose entry executed gets exactly one reply, carrying that execution's
      result, and leaves the table; every other request stays as it was. */
  function Settle(requests: map<int, AppendInfo>, events: seq<LogEvent>): (s: Settled)
    ensures forall i :: i in s.requests <==> i in requests && !Executes(events, i)
    ensures forall i :: i in s.requests ==> s.requests[i] == requests[i]
    ensures forall r :: r in s.replies ==> r.index in requests && ExecutesWith(events, r.index, r.result)
    ensures forall j, k :: 0 <= j < k < |s.replies| ==> s.replies[j].index != s.replies[k].index
    ensures forall i :: i in requests && Executes(events, i) ==> exists r :: r in s.replies && r.index == i
    decreases |events|
  {
    if events == [] then Settled(requests, [])
    else
      var init := events[..|events| - 1];
      var e := events[|events| - 1];
      var s := Settle(requests, init);
      assert forall k :: 0 <= k < |init| ==> init[k] == events[k];
      if e.Executed? && e.index in s.requests then
        Settled(s.requests - {e.index}, s.replies + [Reply(e.index, e.result)])
      else s
  }

  class Server {
    const id: int
    const log: Log
    var role: RoleRef
    var requests: map<int, AppendInfo>
    var peers: seq<int>
    var peerMap: set<int>

    /** The log is consistent and the role object works on this node's log
        (a leader on the node's peers). */
    ghost predicate Valid()
      reads this, log
    {
      && log.Valid()
      && match role
         case NoRole => true
         case AsFollower(f) => f.log == log
         case AsCandidate(c) => c.log == log
         case AsLeader(l) => l.log == log
    }

    constructor (id: int)
      ensures Valid() && this.id == id && fresh(log)
      ensures log.entries == [] && log.currentTerm == 0 && log.votedFor == 0
      ensures role == NoRole && requests == map[] && peers == [] && peerMap == {}
    {
      this.id := id;
      log := new Log();
      role := NoRole;
      requests := map[];
      peers := [];
      peerMap := {};
    }

    /** `onAppendEntries` for a batch of calls: each is stamped with this
        node's id as `leaderId`, and a call to a peer the node does not know
        is dropped. */
    function Transmit(sends: seq<AppendSend>): (out: seq<Outgoing>)
      reads this`peerMap
      ensures |out| <= |sends|
      ensures forall m :: m in out ==> m.AppendEntriesTo? && m.peerId in peerMap && m.info.leaderId == id
      ensures forall m :: m in out ==>
        exists k :: 0 <= k < |sends| && m == AppendEntriesTo(sends[k].peerId, sends[k].info.(leaderId := id))
      ensures (forall k :: 0 <= k < |sends| ==> sends[k].peerId in peerMap) ==>
        |out| == |sends| &&
        forall k :: 0 <= k < |sends| ==> out[k] == AppendEntriesTo(sends[k].peerId, sends[k].info.(leaderId := id))
    {
      if sends == [] then []
      else
        var init := Transmit(sends[..|sends| - 1]);
        var send := sends[|sends| - 1];
        if send.peerId in peerMap then init + [AppendEntriesTo(send.peerId, send.info.(leaderId := id))] else init
    }

    /** The vote requests a candidate sends, one per peer in peer order. */
    function VoteRequests(info: VoteInfo): (out: seq<Outgoing>)
      reads this
      ensures |out| == |peers|
      ensures forall k :: 0 <= k < |peers| ==> out[k] == RequestVoteTo(peers[k], info)
    {
      seq(|peers|, k requires 0 <= k < |peers| reads this => RequestVoteTo(peers[k], info))
    }

    /** `beginElection`: moves to the next term and votes for itself through
        the log. Only a granted and stored self-vote sends vote requests. The
        vote of the previous term is not cleared, so a node that voted for
        another candidate then refuses itself. */
    method BeginElection(storageOk: bool) returns (sends: seq<Outgoing>, write: Option<StorageWrite>)
      modifies log`currentTerm, log`votedFor
      ensures ElectionBegun(this, old(log.currentTerm), old(log.votedFor), storageOk, sends, write)
    {
      log.currentTerm := log.currentTerm + 1;
      var info := VoteInfo(log.currentTerm, id, log.LastIndex(), log.LastTerm());
      var ack;
      ack, write := log.RequestVote(info, storageOk);
      sends := [];
      if !ack.storageError && ack.success {
        sends := VoteRequests(info);
      }
    }

    /** `onChangeRole`: the node drops its role object and takes a fresh one
        of the named role. */
    method OnChangeRole(name: RoleName, storageOk: bool, sm: int -> SmReply)
      returns (sends: seq<Outgoing>, write: Option<StorageWrite>)
      requires Valid()
      modifies this`role, log`currentTerm, log`votedFor, log`entries, log`commitIndex, log`lastApplied
      ensures Valid() && fresh(role.Objects())
      ensures name == FollowerName ==>
        && role.AsFollower? && role.f.leaderId == 0 && role.f.electionResets == 1
        && sends == [] && write == None
      ensures name == CandidateName ==>
        && role.AsCandidate? && role.c.votes == {SelfVoter} && role.c.electionTimerArmed
        && ElectionBegun(this, old(log.currentTerm), old(log.votedFor), storageOk, sends, write)
      ensures name == LeaderName ==>
        LeaderTookOver(this, old(log.entries), old(log.commitIndex), old(log.lastApplied), storageOk, sends, write)
      ensures log.commitIndex == old(log.commitIndex) && log.lastApplied == old(log.lastApplied)
      ensures name != LeaderName ==> log.entries == old(log.entries)
      ensures name != CandidateName ==> log.currentTerm == old(log.currentTerm) && log.votedFor == old(log.votedFor)
    {
      sends, write := [], None;
      match name {
      case FollowerName =>
        BecomeFollower();
      case CandidateName =>
        sends, write := BecomeCandidate(storageOk);
      case LeaderName =>
        sends, write := BecomeLeader(storageOk, sm);
      }
    }

    /** A fresh follower that has heard from no leader starts its election timer. */
    method BecomeFollower()
      requires Valid()
      modifies this`role
      ensures Valid() && role.AsFollower? && fresh(role.f)
      ensures role.f.leaderId == 0 && role.f.electionResets == 1
    {
      var f := new Follower(log);
      f.ResetElectionTimeout();
      role := AsFollower(f);
    }

    /** A fresh candidate holding only its own vote starts its election timer
        and an election. */
    method BecomeCandidate(storageOk: bool) returns (sends: seq<Outgoing>, write: Option<StorageWrite>)
      requires Valid()
      modifies this`role, log`currentTerm, log`votedFor
      ensures Valid() && role.AsCandidate? && fresh(role.c)
      ensures role.c.votes == {SelfVoter} && role.c.electionTimerArmed
      ensures ElectionBegun(this, old(log.currentTerm), old(log.votedFor), storageOk, sends, write)
    {
      var c := new Candidate(log);
      c.ResetElectionTimeout();
      role := AsCandidate(c);
      sends, write := BeginElection(storageOk);
    }

    /** A fresh leader with empty peer records appends its noop entry and,
        once that is stored, sends its log to every peer. */
    method BecomeLeader(storageOk: bool, sm: int -> SmReply) returns (sends: seq<Outgoing>, write: Option<StorageWrite>)
      requires Valid()
      modifies this`role, log`entries, log`commitIndex, log`lastApplied
      ensures Valid() && role.AsLeader? && fresh(role.l)
      ensures LeaderTookOver(this, old(log.entries), old(log.commitIndex), old(log.lastApplied), storageOk, sends, write)
    {
      var l := new Leader(log, peers);
      role := AsLeader(l);
      var ack, appendSends;
      ack, write, appendSends := l.Noop(storageOk, sm);
      sends := Transmit(appendSends);
    }

    /** `onExecuted`: answers the client whose request is pending at `index`
        and forgets it; any other execution is ignored. */
    method OnExecuted(index: int, result: int) returns (reply: Option<Reply>)
      modifies this`requests
      ensures index in old(requests) ==> reply == Some(Reply(index, result)) && requests == old(requests) - {index}
      ensures index !in old(requests) ==> reply == None && requests == old(requests)
    {
      if index !in requests {
        return None;
      }
      reply := Some(Reply(index, result));
      requests := requests - {index};
    }

    /** Hands the log's signals to their listener in order. A state-machine
        error has no listener and is dropped. */
    method Deliver(events: seq<LogEvent>) returns (replies: seq<Reply>)
      modifies this`requests
      ensures Settle(old(requests), events) == Settled(requests, replies)
    {
      replies := [];
      for i := 0 to |events|
        invariant Settle(old(requests), events[..i]) == Settled(requests, replies)
      {
        assert events[..i + 1][..i] == events[..i];
        match events[i] {
        case Executed(index, _, result) =>
          var reply := OnExecuted(index, result);
          if reply.Some? {
            replies := replies + [reply.value];
          }
        case StateMachineError =>
        }
      }
      assert events[..|events|] == events;
    }

    /** Lets the current role check the term of a call or reply; a role that
        steps down is replaced by a fresh follower. */
    method AssertRole(term: int, isAppendEntries: bool)
      requires Valid() && !role.NoRole?
      modifies this`role, log`currentTerm, log`votedFor, role.Objects()
      ensures Valid() && !role.NoRole?
      ensures log.currentTerm == Max(old(log.currentTerm), term)
      ensures term > old(log.currentTerm) ==> log.votedFor == 0 && role.AsFollower?
      ensures term <= old(log.currentTerm) ==> log.votedFor == old(log.votedFor)
      ensures term == old(log.currentTerm) && isAppendEntries && old(role).AsCandidate? ==> role.AsFollower?
      ensures (term > old(log.currentTerm) && !old(role).AsFollower?)
              || (term == old(log.currentTerm) && isAppendEntries && old(role).AsCandidate?)
              || role == old(role)
      ensures role != old(role) ==> role.AsFollower? && fresh(role.f) && role.f.leaderId == 0
      ensures old(role).AsCandidate? ==> old(role).c.votes == old(role.c.votes)
      ensures log.entries == old(log.entries) && log.commitIndex == old(log.commitIndex)
      ensures log.lastApplied == old(log.lastApplied)
    {
      var change: Option<RoleName> := None;
      match role {
      case AsFollower(f) =>
        change := f.AssertRole(term);
      case AsCandidate(c) =>
        change := c.AssertRole(term, isAppendEntries);
      case AsLeader(l) =>
        change := l.AssertRole(term);
      }
      if change.Some? {
        BecomeFollower();
      }
    }

    /** `start`: records the peers, adopts what storage loaded, and takes
        the given role (a follower when none is given). */
    method Start(peerList: seq<int>, name: Option<RoleName>, fields: map<string, int>, loaded: seq<Entry>,
                 storageOk: bool, sm: int -> SmReply)
      returns (sends: seq<Outgoing>, write: Option<StorageWrite>)
      requires Valid()
      modifies this`peers, this`peerMap, this`role, log`currentTerm, log`votedFor, log`entries,
               log`commitIndex, log`lastApplied
      ensures Valid()
      ensures peers == peerList && peerMap == old(peerMap) + set p | p in peerList
      ensures role.AsFollower? <==> name == None || name == Some(FollowerName)
      ensures role.AsCandidate? <==> name == Some(CandidateName)
      ensures role.AsLeader? <==> name == Some(LeaderName)
      ensures name != Some(LeaderName) ==> log.entries == loaded
      ensures name != Some(CandidateName) ==>
        && log.currentTerm == (if "currentTerm" in fields then fields["currentTerm"] else 0)
        && log.votedFor == (if "votedFor" in fields then fields["votedFor"] else 0)
      ensures name == Some(CandidateName) ==>
        ElectionBegun(this, if "currentTerm" in fields then fields["currentTerm"] else 0,
                      if "votedFor" in fields then fields["votedFor"] else 0, storageOk, sends, write)
      ensures name == Some(LeaderName) ==>
        LeaderTookOver(this, loaded, old(log.commitIndex), old(log.lastApplied), storageOk, sends, write)
    {
      peers := peerList;
      for i := 0 to |peerList|
        modifies this`peerMap
        invariant peerMap == old(peerMap) + set p | p in peerList[..i]
      {
        assert peerList[..i + 1] == peerList[..i] + [peerList[i]];
        peerMap := peerMap + {peerList[i]};
      }
      assert peerList[..|peerList|] == peerList;
      log.OnLoaded(fields, loaded);
      var roleName := if name.Some? then name.value else FollowerName;
      sends, write := OnChangeRole(roleName, storageOk, sm);
    }

    /** The election timer of a follower or candidate fired: the node becomes
        a candidate and starts an election in the next term. */
    method ElectionTimeout(storageOk: bool, sm: int -> SmReply) returns (sends: seq<Outgoing>, write: Option<StorageWrite>)
      requires Valid() && (role.AsFollower? || role.AsCandidate?)
      modifies this`role, log`currentTerm, log`votedFor, log`entries, log`commitIndex, log`lastApplied
      ensures Valid() && role.AsCandidate? && fresh(role.c)
      ensures role.c.votes == {SelfVoter} && role.c.electionTimerArmed
      ensures ElectionBegun(this, old(log.currentTerm), old(log.votedFor), storageOk, sends, write)
    {
      sends, write := OnChangeRole(CandidateName, storageOk, sm);
    }

    /** The leader's heartbeat timer fired: it sends its log to every peer. */
    method Heartbeat() returns (sends: seq<Outgoing>)
      requires Valid() && role.AsLeader?
      modifies role.l`heartbeatArmed
      ensures role.l.heartbeatArmed
      ensures sends == Transmit(role.l.Broadcast())
    {
      var appendSends := role.l.BroadcastEntries();
      sends := Transmit(appendSends);
    }

    /** The RequestVote RPC: the current role first checks the caller's
        term, then the (possibly new) role answers. A vote is granted exactly
        when the node is, or has just become, a follower whose log grants it
        and the vote was stored. The reply carries the node's term after the call. */
    method RequestVote(info: VoteInfo, storageOk: bool)
      returns (storageError: bool, reply: Vote, write: Option<StorageWrite>)
      requires Valid() && !role.NoRole?
      modifies this`role, log`currentTerm, log`votedFor, role.Objects()
      ensures Valid()
      ensures reply.id == id && reply.term == log.currentTerm
      ensures log.currentTerm == Max(old(log.currentTerm), info.term)
      ensures reply.voteGranted <==>
        storageOk && GrantsVote(old(role).AsFollower?, old(log.currentTerm), old(log.votedFor), log.entries, info)
      ensures reply.voteGranted ==> log.votedFor == info.candidateId && role.AsFollower?
      ensures info.term > old(log.currentTerm) ==> role.AsFollower?
      ensures info.term <= old(log.currentTerm) ==> role == old(role)
      ensures log.votedFor ==
        if GrantsVote(old(role).AsFollower?, old(log.currentTerm), old(log.votedFor), log.entries, info)
        then info.candidateId
        else if info.term > old(log.currentTerm) then 0 else old(log.votedFor)
      ensures storageError ==> !reply.voteGranted
      ensures log.entries == old(log.entries)
    {
      AssertRole(info.term, false);
      var ack := Ack(false, false);
      write := None;
      match role {
      case AsFollower(f) =>
        ack, write := f.RequestVote(info, storageOk);
      case AsCandidate(c) =>
        ack := c.RequestVote(info);
      case AsLeader(l) =>
        ack := l.RequestVote(info);
      }
      storageError := ack.storageError;
      reply := Vote(id, log.currentTerm, ack.success);
    }

    /** The AppendEntries RPC: the current role first checks the caller's
        term (a candidate also steps down for a leader of its own term), then
        the (possibly new) role answers. The call succeeds exactly when the
        node is not a leader of the caller's term, its log accepts the call,
        and a non-empty batch was stored; then the node is a follower of the
        caller and its log holds the batch. */
    method AppendEntries(info: AppendInfo, storageOk: bool, sm: int -> SmReply)
      returns (storageError: bool, reply: AppendResponse, write: Option<StorageWrite>,
               events: seq<LogEvent>, replies: seq<Reply>)
      requires Valid() && !role.NoRole?
      modifies this`role, this`requests, log`currentTerm, log`votedFor, log`entries,
               log`commitIndex, log`lastApplied, role.Objects()
      ensures Valid()
      ensures reply.term == log.currentTerm && log.currentTerm == Max(old(log.currentTerm), info.term)
      ensures reply.success <==>
        && !(info.term == old(log.currentTerm) && old(role).AsLeader?)
        && AppendAccepted(old(log.entries), log.currentTerm, info)
        && (info.entries.values == [] || storageOk)
      ensures reply.success ==>
        && role.AsFollower? && role.f.leaderId == info.leaderId
        && log.entries == Applied(old(log.entries), info.entries)
        && log.commitIndex == AdvanceCommit(old(log.commitIndex), info.leaderCommit, |log.entries| - 1)
      ensures reply.success && info.leaderCommit <= old(log.commitIndex) ==>
        log.lastApplied == old(log.lastApplied) && events == []
      ensures reply.success && info.leaderCommit > old(log.commitIndex) && old(log.lastApplied) >= -1 ==>
        ApplyUpTo(log.entries, old(log.lastApplied), log.commitIndex, sm) == RunResult(log.lastApplied, events)
      ensures !reply.success ==>
        && log.entries == old(log.entries) && log.commitIndex == old(log.commitIndex)
        && log.lastApplied == old(log.lastApplied) && events == []
      ensures info.term > old(log.currentTerm) ==> role.AsFollower? && log.votedFor == 0
      ensures info.term <= old(log.currentTerm) ==> log.votedFor == old(log.votedFor)
      ensures info.term == old(log.currentTerm) && old(role).AsCandidate? ==> role.AsFollower?
      ensures info.term < old(log.currentTerm) || (info.term == old(log.currentTerm) && !old(role).AsCandidate?) ==>
        role == old(role)
      ensures Settle(old(requests), events) == Settled(requests, replies)
    {
      AssertRole(info.term, true);
      var ack := Ack(false, false);
      write, events := None, [];
      match role {
      case AsFollower(f) =>
        ack, write, events := f.AppendEntries(info, storageOk, sm);
      case AsCandidate(c) =>
        ack := c.AppendEntries(info);
      case AsLeader(l) =>
        ack := l.AppendEntries(info);
      }
      replies := Deliver(events);
      storageError := ack.storageError;
      reply := AppendResponse(log.currentTerm, ack.success);
    }

    /** The reply to an AppendEntries call this node sent to `peerId`: the
        current role first checks the reply's term, then a leader updates
        its records for that peer (followers and candidates ignore it). */
    method EntriesAppended(peerId: int, request: AppendInfo, response: AppendResponse, sm: int -> SmReply)
      returns (events: seq<LogEvent>, replies: seq<Reply>, sends: seq<Outgoing>)
      requires Valid() && !role.NoRole?
      modifies this`role, this`requests, log`currentTerm, log`votedFor, log`commitIndex, log`lastApplied,
               role.Objects()
      ensures Valid()
      ensures log.currentTerm == Max(old(log.currentTerm), response.term)
      ensures log.entries == old(log.entries)
      ensures !role.AsLeader? ==>
        && events == [] && sends == []
        && log.commitIndex == old(log.commitIndex) && log.lastApplied == old(log.lastApplied)
      ensures role.AsLeader? ==> role == old(role) && log.currentTerm == old(log.currentTerm)
      ensures response.term > old(log.currentTerm) ==> role.AsFollower? && log.votedFor == 0
      ensures response.term <= old(log.currentTerm) ==> role == old(role) && log.votedFor == old(log.votedFor)
      ensures Settle(old(requests), events) == Settled(requests, replies)
    {
      AssertRole(response.term, false);
      events, sends := [], [];
      if role.AsLeader? {
        var appendSends;
        events, appendSends := role.l.EntriesAppended(peerId, request, response, sm);
        sends := Transmit(appendSends);
      }
      replies := Deliver(events);
    }

    /** A granted vote reply from a peer: stale replies are ignored; otherwise
        the current role checks the term, and a candidate counts the vote and
        becomes leader once it wins. */
    method CountVote(vote: Vote, storageOk: bool, sm: int -> SmReply)
      returns (sends: seq<Outgoing>, write: Option<StorageWrite>)
      requires Valid() && !role.NoRole?
      modifies this`role, log`currentTerm, log`votedFor, log`entries, log`commitIndex, log`lastApplied,
               role.Objects()
      ensures Valid()
      ensures vote.term < old(log.currentTerm) ==> role == old(role) && unchanged(log) && sends == [] && write == None
      ensures log.currentTerm == Max(old(log.currentTerm), vote.term)
      ensures role.AsLeader? && !old(role).AsLeader? ==>
        && old(role).AsCandidate? && vote.voteGranted && vote.term == log.currentTerm
        && Wins(old(role.c.votes) + {PeerVoter(vote.id)}, |peers|)
        && LeaderTookOver(this, old(log.entries), old(log.commitIndex), old(log.lastApplied), storageOk, sends, write)
      ensures (old(role).AsCandidate? && vote.term == old(log.currentTerm) && vote.voteGranted
               && Wins(old(role.c.votes) + {PeerVoter(vote.id)}, |peers|)) ==> role.AsLeader?
      ensures vote.term > old(log.currentTerm) ==>
        && role.AsFollower? && log.votedFor == 0 && sends == [] && write == None
        && log.entries == old(log.entries) && log.commitIndex == old(log.commitIndex)
        && log.lastApplied == old(log.lastApplied)
      ensures vote.term == old(log.currentTerm) && !old(role).AsCandidate? ==>
        role == old(role) && unchanged(log) && sends == [] && write == None
      ensures vote.term == old(log.currentTerm) && old(role).AsCandidate? && !role.AsLeader? ==>
        && role == old(role) && unchanged(log) && sends == [] && write == None
        && role.c.votes == old(role.c.votes) + (if vote.voteGranted then {PeerVoter(vote.id)} else {})
    {
      sends, write := [], None;
      if vote.term < log.currentTerm {
        return;
      }
      AssertRole(vote.term, false);
      if role.AsCandidate? {
        var change := role.c.CountVote(vote, |peers|);
        if change == Some(LeaderName) {
          sends, write := OnChangeRole(LeaderName, storageOk, sm);
        }
      }
    }

    /** The client API: hands a request for `op` to the role. A follower
        refuses with the leader it knows, a candidate with no leader; a
        leader stores it as described by `LeaderRequest`. */
    method Request(op: Op, storageOk: bool, sm: int -> SmReply)
      returns (result: RequestResult, write: Option<StorageWrite>, sends: seq<Outgoing>)
      requires Valid() && !role.NoRole?
      modifies this`requests, log`entries, log`commitIndex, log`lastApplied, role.Objects()
      ensures Valid() && role == old(role)
      ensures old(role).AsFollower? ==>
        result == Refused(NotTheLeader(role.f.leaderId)) && unchanged(log) && requests == old(requests)
      ensures old(role).AsCandidate? ==>
        result == Refused(NoLeader) && unchanged(log) && requests == old(requests)
      ensures old(role).AsLeader? ==> LeaderStored(this, op, storageOk, result, sends)
      ensures old(role).AsLeader? && storageOk ==> role.l.heartbeatArmed && sends == Transmit(role.l.Broadcast())
    {
      write, sends := None, [];
      match role {
      case AsFollower(f) =>
        var err := f.Request();
        result := Refused(err);
      case AsCandidate(c) =>
        var err := c.Request();
        result := Refused(err);
      case AsLeader(l) =>
        result, write, sends := LeaderRequest(op, storageOk, sm);
      }
    }

    /** A leader's part of `request`: its own log always accepts the entry,
        so the entry is appended exactly when storage succeeds; then the
        leader sends its log to every peer and the request waits at the
        entry's index. */
    method LeaderRequest(op: Op, storageOk: bool, sm: int -> SmReply)
      returns (result: RequestResult, write: Option<StorageWrite>, sends: seq<Outgoing>)
      requires Valid() && role.AsLeader?
      modifies this`requests, log`entries, log`commitIndex, log`lastApplied, role.l`heartbeatArmed
      ensures Valid()
      ensures LeaderStored(this, op, storageOk, result, sends)
      ensures storageOk ==> role.l.heartbeatArmed && sends == Transmit(role.l.Broadcast())
    {
      var info, ack, appendSends;
      info, ack, write, appendSends := StoreClientEntry(op, storageOk, sm);
      result := Answer(info, ack);
      sends := Transmit(appendSends);
    }

    /** `afterRequest`: a failed or refused append is reported to the client;
        a stored one waits in the request table at its entry's index. */
    method Answer(info: AppendInfo, ack: Ack) returns (result: RequestResult)
      modifies this`requests
      ensures ack.storageError ==> result == Refused(StorageFailed) && requests == old(requests)
      ensures !ack.storageError && !ack.success ==> result == Refused(NotStored) && requests == old(requests)
      ensures !ack.storageError && ack.success ==>
        result == Stored(info.entries.startIndex) && requests == old(requests)[info.entries.startIndex := info]
    {
      if ack.storageError {
        result := Refused(StorageFailed);
      } else if !ack.success {
        result := Refused(NotStored);
      } else {
        requests := requests[info.entries.startIndex := info];
        result := Stored(info.entries.startIndex);
      }
    }

    /** Appends the client entry for `op` through the leader, which
        broadcasts it once it is stored: the leader's own log accepts the entry, so the
        outcome is exactly the storage outcome. */
    method StoreClientEntry(op: Op, storageOk: bool, sm: int -> SmReply)
      returns (info: AppendInfo, ack: Ack, write: Option<StorageWrite>, sends: seq<AppendSend>)
      requires Valid() && role.AsLeader?
      modifies log`entries, log`commitIndex, log`lastApplied, role.l`heartbeatArmed
      ensures Valid()
      ensures info == ClientRequest(old(log.entries), log.currentTerm, old(log.commitIndex), id, op)
      ensures info.entries.startIndex == |old(log.entries)|
      ensures ack.success == storageOk && ack.storageError == !storageOk
      ensures log.commitIndex == old(log.commitIndex)
      ensures storageOk ==> log.entries == old(log.entries) + [Entry(log.currentTerm, op, false)]
      ensures storageOk ==> role.l.heartbeatArmed && sends == role.l.Broadcast()
      ensures !storageOk ==> log.entries == old(log.entries) && sends == []
    {
      info := ClientRequest(log.entries, log.currentTerm, log.commitIndex, id, op);
      ghost var before := log.entries;
      assert AppendAccepted(before, log.currentTerm, info);
      var events;
      ack, write, events, sends := role.l.Request(info, storageOk, sm);
      assert storageOk ==> log.entries == Applied(before, info.entries);
    }

  }

  /** The AppendEntries call a node makes for a client's `op`: one entry of
      the current term right after the last index, with the log's own last
      entry as the previous entry, so the node's own log accepts it and
      appends it without moving the commit index. */
  function ClientRequest(entries: seq<Entry>, currentTerm: int, commitIndex: int, id: int, op: Op): (info: AppendInfo)
    ensures info.entries == Batch(|entries|, [Entry(currentTerm, op, false)])
    ensures AppendAccepted(entries, currentTerm, info)
    ensures Applied(entries, info.entries) == entries + [Entry(currentTerm, op, false)]
    ensures AdvanceCommit(commitIndex, info.leaderCommit, |entries|) == commitIndex
  {
    assert Splice(entries, |entries|) == entries;
    AppendInfo(currentTerm, id, |entries| - 1, LastTermOf(entries), commitIndex,
               Batch(|entries|, [Entry(currentTerm, op, false)]))
  }

  /** `beginElection` on `server`, from term `term` and vote `votedFor`: the
      node is in the next term; it votes for itself unless it had voted for
      another node, and that self-vote is written to storage; it asks every
      peer for a vote only when the self-vote was granted and stored. */
  predicate ElectionBegun(server: Server, term: int, votedFor: int, storageOk: bool,
                          sends: seq<Outgoing>, write: Option<StorageWrite>)
    reads server, server.log
  {
    var self := votedFor == 0 || votedFor == server.id;
    && server.log.currentTerm == term + 1
    && server.log.votedFor == (if self then server.id else votedFor)
    && write == (if self then Some(SetWrite(map["votedFor" := server.id, "currentTerm" := term + 1])) else None)
    && sends == (if self && storageOk
                 then server.VoteRequests(VoteInfo(term + 1, server.id, |server.log.entries| - 1, LastTermOf(server.log.entries)))
                 else [])
  }

  /** A new leader on `server`, whose log held `entries` with commit index
      `commitIndex` and applied index `lastApplied`: the leader works on the
      node's peers with empty records; it asks storage to append one noop
      entry of its term; when that is stored the entry is in the log and the
      leader has sent its log to every known peer and armed its heartbeat,
      and otherwise nothing changed and nothing was sent. Nothing is
      committed or applied. */
  predicate LeaderTookOver(server: Server, entries: seq<Entry>, commitIndex: int, lastApplied: int,
                           storageOk: bool, sends: seq<Outgoing>, write: Option<StorageWrite>)
    reads server, server.log, server.role.Objects()
  {
    var noop := Entry(server.log.currentTerm, 0, true);
    && server.role.AsLeader? && server.role.l.log == server.log
    && server.role.l.peerIds == server.peers
    && server.role.l.nextIndex == map[] && server.role.l.matchIndex == map[]
    && server.log.commitIndex == commitIndex && server.log.lastApplied == lastApplied
    && write == Some(AppendWrite(|entries|, [noop], PersistState(server.log.votedFor, server.log.currentTerm)))
    && (storageOk ==>
          && server.log.entries == entries + [noop]
          && server.role.l.heartbeatArmed && sends == server.Transmit(server.role.l.Broadcast()))
    && (!storageOk ==> server.log.entries == entries && !server.role.l.heartbeatArmed && sends == [])
  }

  /** What a leader's `request` for `op` did to `server`: when storage
      succeeded the entry is the new last entry, the request is pending at its
      index and the commit index is unchanged; otherwise nothing changed and
      nothing was sent. */
  twostate predicate LeaderStored(server: Server, op: Op, storageOk: bool, new result: RequestResult, new sends: seq<Outgoing>)
    reads server, server.log
  {
    var index := |old(server.log.entries)|;
    && (storageOk ==>
          && result == Stored(index)
          && server.log.entries == old(server.log.entries) + [Entry(server.log.currentTerm, op, false)]
          && server.requests == old(server.requests)[index := ClientRequest(old(server.log.entries),
               server.log.currentTerm, old(server.log.commitIndex), server.id, op)]
          && server.log.commitIndex == old(server.log.commitIndex))
    && (!storageOk ==>
          && result == Refused(StorageFailed) && sends == []
          && server.log.entries == old(server.log.entries) && server.requests == old(server.requests))
  }

  /** How a node answers a RequestVote call: a caller of a newer term gets
      the vote whenever its log is at least as up to date (the node has just
      become a follower with no vote cast); a caller of the node's own term
      gets it only from a follower that has not voted for anyone else. */
  predicate GrantsVote(isFollower: bool, currentTerm: int, votedFor: int, entries: seq<Entry>, info: VoteInfo)
  {
    if info.term > currentTerm then AtLeastAsUpToDate(info.lastLogIndex, info.lastLogTerm, entries)
    else isFollower && VoteGrantable(entries, currentTerm, votedFor, info)
  }

  /** Once a node has voted in a term it grants no other candidate in that
      term, whatever role it is in. */
  lemma OneVotePerTerm(isFollower: bool, term: int, first: int, entries: seq<Entry>, info: VoteInfo)
    requires first != 0 && info.term == term && info.candidateId != first
    ensures !GrantsVote(isFollower, term, first, entries, info)
  {
  }
}
