/** The leader role: it replicates its log to every peer, keeps per-peer
    `nextIndex` and `matchIndex` records, moves the commit index once a
    majority holds an entry of its own term, appends client requests to its
    own log, and steps down when a call shows a newer term.

    The leader never fills `nextIndex` or `matchIndex` in advance. A missing
    record and a record of 0 read alike: a missing or zero `nextIndex` falls
    back to the last log index, and a missing or zero `matchIndex` counts as
    -1. Messages the leader emits are returned as `AppendSend` values; the
    heartbeat timer is not modelled, `heartbeatArmed` records whether it runs. */
module LeaderRole {
  import opened RaftTypes
  import opened RaftLog
  import opened Majority

  /** An AppendEntries call the leader hands to the node for one peer. The
      node fills in `leaderId` before sending, so it is 0 here. */
  datatype AppendSend = AppendSend(peerId: int, info: AppendInfo)

  // ---------------------------------------------------------------------
  // Per-peer records, read as the source reads them

  /** `nextIndex[peerId] || lastIndex`: a missing or zero record reads as the
      last log index. */
  function NextIndexOr(nextIndex: map<int, int>, peerId: int, lastIndex: int): (r: int)
    ensures peerId in nextIndex && nextIndex[peerId] != 0 ==> r == nextIndex[peerId]
    ensures peerId !in nextIndex || nextIndex[peerId] == 0 ==> r == lastIndex
  {
    if peerId in nextIndex && nextIndex[peerId] != 0 then nextIndex[peerId] else lastIndex
  }

  /** `matchIndex[peerId] || -1`: a missing or zero record counts as -1. */
  function MatchIndexOr(matchIndex: map<int, int>, peerId: int): (r: int)
    ensures peerId in matchIndex && matchIndex[peerId] != 0 ==> r == matchIndex[peerId]
    ensures peerId !in matchIndex || matchIndex[peerId] == 0 ==> r == -1
  {
    if peerId in matchIndex && matchIndex[peerId] != 0 then matchIndex[peerId] else -1
  }

  /** The match index of each peer, in the order of `peerIds`. */
  function MatchViews(matchIndex: map<int, int>, peerIds: seq<int>): (r: seq<int>)
    ensures |r| == |peerIds|
    ensures forall k :: 0 <= k < |peerIds| ==> r[k] == MatchIndexOr(matchIndex, peerIds[k])
  {
    if peerIds == [] then []
    else MatchViews(matchIndex, peerIds[..|peerIds| - 1]) + [MatchIndexOr(matchIndex, peerIds[|peerIds| - 1])]
  }

  /** The values the commit rule counts: the leader's own last index, then
      each peer's match index. */
  function MatchIndicesOf(lastIndex: int, matchIndex: map<int, int>, peerIds: seq<int>): (r: seq<int>)
    ensures |r| == |peerIds| + 1 && r[0] == lastIndex
    ensures forall k :: 0 <= k < |peerIds| ==> r[k + 1] == MatchIndexOr(matchIndex, peerIds[k])
  {
    [lastIndex] + MatchViews(matchIndex, peerIds)
  }

  // ---------------------------------------------------------------------
  // What the leader sends

  /** The AppendEntries call for one peer: it probes at the entry before the
      peer's next index and carries every entry from there to the end of the
      leader's log, so the previous entry and the batch together rebuild the
      leader's log. */
  function AppendRequest(entries: seq<Entry>, currentTerm: int, commitIndex: int,
                         nextIndex: map<int, int>, peerId: int): (info: AppendInfo)
    ensures info.term == currentTerm && info.leaderCommit == commitIndex
    ensures info.prevLogIndex == NextIndexOr(nextIndex, peerId, |entries| - 1) - 1
    ensures info.prevLogTerm == TermOf(entries, info.prevLogIndex)
    ensures info.entries.startIndex == info.prevLogIndex + 1
    ensures -1 <= info.prevLogIndex < |entries| ==>
      entries == entries[..info.prevLogIndex + 1] + info.entries.values
  {
    var prevLogIndex := NextIndexOr(nextIndex, peerId, |entries| - 1) - 1;
    AppendInfo(currentTerm, 0, prevLogIndex, TermOf(entries, prevLogIndex), commitIndex,
               EntriesSinceOf(entries, prevLogIndex))
  }

  /** A follower that agrees with the leader up to the probed entry accepts
      the call (its term permitting), and once it has applied the batch the
      leader's log is a prefix of its log; the two are equal when the batch
      was not empty. */
  lemma FollowerCatchesUp(leaderLog: seq<Entry>, currentTerm: int, commitIndex: int,
                          nextIndex: map<int, int>, peerId: int,
                          followerLog: seq<Entry>, followerTerm: int)
    requires var prev := NextIndexOr(nextIndex, peerId, |leaderLog| - 1) - 1;
      -1 <= prev < |leaderLog| && prev < |followerLog| && followerLog[..prev + 1] == leaderLog[..prev + 1]
    requires followerTerm <= currentTerm
    ensures var info := AppendRequest(leaderLog, currentTerm, commitIndex, nextIndex, peerId);
      && AppendAccepted(followerLog, followerTerm, info)
      && leaderLog <= Applied(followerLog, info.entries)
      && (info.entries.values != [] ==> Applied(followerLog, info.entries) == leaderLog)
  {
    var info := AppendRequest(leaderLog, currentTerm, commitIndex, nextIndex, peerId);
    ProbeFromAgreement(leaderLog, info, followerLog, followerTerm);
  }

  lemma ProbeFromAgreement(leaderLog: seq<Entry>, info: AppendInfo, followerLog: seq<Entry>, followerTerm: int)
    requires -1 <= info.prevLogIndex < |leaderLog| && info.prevLogIndex < |followerLog|
    requires followerLog[..info.prevLogIndex + 1] == leaderLog[..info.prevLogIndex + 1]
    requires info.prevLogTerm == TermOf(leaderLog, info.prevLogIndex) && followerTerm <= info.term
    requires info.entries.startIndex == info.prevLogIndex + 1
    requires leaderLog == leaderLog[..info.prevLogIndex + 1] + info.entries.values
    ensures AppendAccepted(followerLog, followerTerm, info)
    ensures leaderLog <= Applied(followerLog, info.entries)
    ensures info.entries.values != [] ==> Applied(followerLog, info.entries) == leaderLog
  {
    var prev := info.prevLogIndex;
    if 0 <= prev {
      assert followerLog[prev] == followerLog[..prev + 1][prev];
    }
    if info.entries.values != [] {
      assert Splice(followerLog, info.entries.startIndex) == followerLog[..prev + 1];
    } else {
      assert leaderLog == followerLog[..prev + 1];
    }
  }

  /** The `prevLogIndex` sent to a peer after `k` refusals in a row: each
      refusal stores the refused `prevLogIndex` as the peer's next index, and
      the retry probes the entry before it. */
  function ProbeAfter(nextIndex: map<int, int>, peerId: int, lastIndex: int, k: nat): int
  {
    if k == 0 then NextIndexOr(nextIndex, peerId, lastIndex) - 1
    else NextIndexOr(nextIndex[peerId := ProbeAfter(nextIndex, peerId, lastIndex, k - 1)], peerId, lastIndex) - 1
  }

  /** Backing off never probes the empty prefix once the log holds two
      entries. From a record of 0 or more, a refused probe at index 0 stores
      a next index of 0, which reads as unset, so the next probe starts again
      from the end. A peer that disagrees at index 0 is therefore never sent
      `prevLogIndex` -1, the only probe it could accept. From a negative
      record (stored after a refused probe at -1), every retry probes one
      index lower. */
  lemma {:induction false} ProbeNeverReachesEmptyPrefix(nextIndex: map<int, int>, peerId: int, lastIndex: int, k: nat)
    requires lastIndex >= 1
    ensures ProbeAfter(nextIndex, peerId, lastIndex, k) != -1
    ensures peerId !in nextIndex || nextIndex[peerId] >= 0 ==> 0 <= ProbeAfter(nextIndex, peerId, lastIndex, k)
    ensures peerId !in nextIndex || 0 <= nextIndex[peerId] <= lastIndex + 1 ==>
      ProbeAfter(nextIndex, peerId, lastIndex, k) <= lastIndex
    ensures peerId in nextIndex && nextIndex[peerId] < 0 ==>
      ProbeAfter(nextIndex, peerId, lastIndex, k) == nextIndex[peerId] - 1 - k
    decreases k
  {
    if k > 0 {
      ProbeNeverReachesEmptyPrefix(nextIndex, peerId, lastIndex, k - 1);
    }
  }

  /** A probe at -1 is refused only when the peer's storage fails; the
      refusal stores a next index of -1, which is truthy. The retry probes
      -2 and carries the leader's last entry with start index -1. Any peer
      with a non-empty log accepts it, and `splice(-1)` puts that entry in
      place of the peer's own last entry, at index `|followerLog| - 1`
      rather than at the leader's index `|leaderLog| - 1`. */
  lemma RetryAfterEmptyProbeMisplacesEntry(leaderLog: seq<Entry>, currentTerm: int, commitIndex: int,
                                           nextIndex: map<int, int>, peerId: int,
                                           followerLog: seq<Entry>, followerTerm: int)
    requires leaderLog != [] && followerLog != [] && followerTerm <= currentTerm
    requires peerId in nextIndex && nextIndex[peerId] == -1
    ensures var info := AppendRequest(leaderLog, currentTerm, commitIndex, nextIndex, peerId);
      && info.prevLogIndex == -2
      && info.entries == Batch(-1, [leaderLog[|leaderLog| - 1]])
      && AppendAccepted(followerLog, followerTerm, info)
      && Applied(followerLog, info.entries) == followerLog[..|followerLog| - 1] + [leaderLog[|leaderLog| - 1]]
  {
    var info := AppendRequest(leaderLog, currentTerm, commitIndex, nextIndex, peerId);
    assert Slice(leaderLog, -1) == [leaderLog[|leaderLog| - 1]];
    assert Splice(followerLog, -1) == followerLog[..|followerLog| - 1];
  }

  // ---------------------------------------------------------------------
  // The commit rule

  /** The commit index after `updateCommitIndex`. The candidate `N` is the
      largest value that a strict majority of `matchIndices` reach; it is
      committed only when the leader's entry at `N` is of the current term. */
  function CommitAfter(entries: seq<Entry>, currentTerm: int, commitIndex: int,
                       matchIndices: seq<int>, peerCount: nat): int
    requires |matchIndices| == peerCount + 1
  {
    if commitIndex == |entries| - 1 then commitIndex
    else
      var n := MajorityIndex(matchIndices, peerCount);
      if TermOf(entries, n) == currentTerm && n > commitIndex then AdvanceCommit(commitIndex, n, |entries| - 1)
      else commitIndex
  }

  /** Whenever the commit rule moves the commit index, a strict majority
      holds the new commit index, and (for any term but the initial 0) that
      entry is of the current term; at the end of the log it never moves. */
  lemma CommitAfterMajority(entries: seq<Entry>, currentTerm: int, commitIndex: int,
                            matchIndices: seq<int>, peerCount: nat)
    requires |matchIndices| == peerCount + 1
    ensures var r := CommitAfter(entries, currentTerm, commitIndex, matchIndices, peerCount);
      && (r != commitIndex ==> r < |entries| && 2 * CountAtLeast(matchIndices, r) > |matchIndices|)
      && (r != commitIndex && currentTerm != 0 ==> commitIndex < r && TermOf(entries, r) == currentTerm)
      && (commitIndex == |entries| - 1 ==> r == commitIndex)
  {
    var r := CommitAfter(entries, currentTerm, commitIndex, matchIndices, peerCount);
    if r != commitIndex {
      MajorityIndexIsMajority(matchIndices, peerCount);
      CountAtLeastAntitone(matchIndices, r, MajorityIndex(matchIndices, peerCount));
    }
  }

  /** Below the end of the log, the commit rule takes the majority candidate
      exactly when it belongs to the current term. */
  lemma CommitAfterBelowEnd(entries: seq<Entry>, currentTerm: int, commitIndex: int,
                            matchIndices: seq<int>, peerCount: nat)
    requires |matchIndices| == peerCount + 1 && commitIndex != |entries| - 1
    ensures CommitAfter(entries, currentTerm, commitIndex, matchIndices, peerCount) ==
      var n := MajorityIndex(matchIndices, peerCount);
      if TermOf(entries, n) == currentTerm then AdvanceCommit(commitIndex, n, |entries| - 1) else commitIndex
  {
  }

  /** The commit rule applied to values: from commit index `commitIndex` and
      applied index `lastApplied`, the commit index becomes `newCommit`, the
      applied index `newApplied`, and `events` are emitted. The commit index
      is `CommitAfter` of the match indices, and when it moved the entries up
      to it were applied. */
  predicate CommitMoved(entries: seq<Entry>, currentTerm: int, matchIndices: seq<int>, peerCount: nat,
                        commitIndex: int, lastApplied: int, newCommit: int, newApplied: int,
                        sm: int -> SmReply, events: seq<LogEvent>)
    requires |matchIndices| == peerCount + 1
  {
    var target := CommitAfter(entries, currentTerm, commitIndex, matchIndices, peerCount);
    && newCommit == target
    && (target == commitIndex ==> newApplied == lastApplied && events == [])
    && (target != commitIndex && lastApplied >= -1 ==>
          ApplyUpTo(entries, lastApplied, target, sm) == RunResult(newApplied, events))
  }

  /** When the majority candidate `n` belongs to the current term, moving the
      commit index towards it and applying up to the new commit index is the
      commit rule's step. */
  lemma CommitMovedToCandidate(entries: seq<Entry>, currentTerm: int, matchIndices: seq<int>, peerCount: nat,
                               commitIndex: int, lastApplied: int, newCommit: int, newApplied: int,
                               sm: int -> SmReply, events: seq<LogEvent>)
    requires |matchIndices| == peerCount + 1 && commitIndex != |entries| - 1 && lastApplied >= -1
    requires TermOf(entries, MajorityIndex(matchIndices, peerCount)) == currentTerm
    requires newCommit == AdvanceCommit(commitIndex, MajorityIndex(matchIndices, peerCount), |entries| - 1)
    requires MajorityIndex(matchIndices, peerCount) <= commitIndex ==> newApplied == lastApplied && events == []
    requires MajorityIndex(matchIndices, peerCount) > commitIndex ==>
      ApplyUpTo(entries, lastApplied, newCommit, sm) == RunResult(newApplied, events)
    ensures CommitMoved(entries, currentTerm, matchIndices, peerCount, commitIndex, lastApplied,
                        newCommit, newApplied, sm, events)
  {
    CommitAfterBelowEnd(entries, currentTerm, commitIndex, matchIndices, peerCount);
  }

  /** At the end of the log, or when the majority candidate is of an older
      term, the commit rule changes nothing. */
  lemma CommitUnmoved(entries: seq<Entry>, currentTerm: int, matchIndices: seq<int>, peerCount: nat,
                      commitIndex: int, lastApplied: int, sm: int -> SmReply)
    requires |matchIndices| == peerCount + 1
    requires commitIndex == |entries| - 1 || TermOf(entries, MajorityIndex(matchIndices, peerCount)) != currentTerm
    ensures CommitMoved(entries, currentTerm, matchIndices, peerCount, commitIndex, lastApplied,
                        commitIndex, lastApplied, sm, [])
  {
    if commitIndex != |entries| - 1 {
      CommitAfterBelowEnd(entries, currentTerm, commitIndex, matchIndices, peerCount);
    }
  }

  /** The leader's commit step on `l`, from a commit index `commitIndex` and
      an applied index `lastApplied`. */
  predicate CommitStep(l: Leader, commitIndex: int, lastApplied: int, sm: int -> SmReply, events: seq<LogEvent>)
    reads l, l.log
  {
    CommitMoved(l.log.entries, l.log.currentTerm, MatchIndicesOf(LastIndexOf(l.log.entries), l.matchIndex, l.peerIds),
                |l.peerIds|, commitIndex, lastApplied, l.log.commitIndex, l.log.lastApplied, sm, events)
  }

  /** The last index a request carried: a successful reply to it says that
      the peer holds the leader's entries up to this index. */
  function AckedIndex(request: AppendInfo): int
  {
    request.entries.startIndex + |request.entries.values| - 1
  }

  /** The leader's records after `peerId` acknowledged entries up to index
      `m`, given the records, commit index and last applied index before:
      both records move to `m`, and only an acknowledgement past the commit
      index can move the commit index. */
  predicate MatchRecorded(l: Leader, peerId: int, m: int, matchIndex: map<int, int>, nextIndex: map<int, int>,
                          commitIndex: int, lastApplied: int, sm: int -> SmReply, events: seq<LogEvent>)
    reads l, l.log
  {
    && l.matchIndex == matchIndex[peerId := m] && l.nextIndex == nextIndex[peerId := m + 1]
    && (m > commitIndex ==> CommitStep(l, commitIndex, lastApplied, sm, events))
    && (m <= commitIndex ==> l.log.commitIndex == commitIndex && l.log.lastApplied == lastApplied && events == [])
  }

  /** One AppendEntries call per peer, in peer order, each built from the
      given log and next-index records. */
  function BroadcastOf(peerIds: seq<int>, entries: seq<Entry>, currentTerm: int, commitIndex: int,
                       nextIndex: map<int, int>): (r: seq<AppendSend>)
    ensures |r| == |peerIds|
    ensures forall k :: 0 <= k < |peerIds| ==> r[k].peerId == peerIds[k]
  {
    if peerIds == [] then []
    else
      var last := peerIds[|peerIds| - 1];
      BroadcastOf(peerIds[..|peerIds| - 1], entries, currentTerm, commitIndex, nextIndex)
        + [AppendSend(last, AppendRequest(entries, currentTerm, commitIndex, nextIndex, last))]
  }

  class Leader {
    const log: Log
    const peerIds: seq<int>
    var nextIndex: map<int, int>
    var matchIndex: map<int, int>
    var heartbeatArmed: bool

    constructor (log: Log, peerIds: seq<int>)
      ensures this.log == log && this.peerIds == peerIds
      ensures nextIndex == map[] && matchIndex == map[] && !heartbeatArmed
    {
      this.log := log;
      this.peerIds := peerIds;
      nextIndex := map[];
      matchIndex := map[];
      heartbeatArmed := false;
    }

    /** The calls a broadcast sends: one AppendEntries call per peer, in peer
        order, each built from the current log and records. */
    function Broadcast(): (sends: seq<AppendSend>)
      reads this`nextIndex, log
    {
      BroadcastOf(peerIds, log.entries, log.currentTerm, log.commitIndex, nextIndex)
    }

    /** Sends to every peer and restarts the heartbeat timer. */
    method BroadcastEntries() returns (sends: seq<AppendSend>)
      modifies this`heartbeatArmed
      ensures heartbeatArmed && sends == Broadcast()
      ensures |sends| == |peerIds| && forall k :: 0 <= k < |sends| ==> sends[k].peerId == peerIds[k]
    {
      heartbeatArmed := false;
      sends := [];
      for i := 0 to |peerIds|
        invariant sends == BroadcastOf(peerIds[..i], log.entries, log.currentTerm, log.commitIndex, nextIndex)
      {
        assert peerIds[..i + 1][..i] == peerIds[..i];
        var peerId := peerIds[i];
        sends := sends + [AppendSend(peerId, AppendRequest(log.entries, log.currentTerm, log.commitIndex, nextIndex, peerId))];
      }
      assert peerIds[..|peerIds|] == peerIds;
      heartbeatArmed := true;
    }

    /** A higher term ends this leadership: the heartbeat stops, the log
        adopts the term with no vote cast, and the node is asked to become a
        follower. Any other term changes nothing. */
    method AssertRole(term: int) returns (change: Option<RoleName>)
      modifies this`heartbeatArmed, log`currentTerm, log`votedFor
      ensures term > old(log.currentTerm) ==>
        !heartbeatArmed && log.currentTerm == term && log.votedFor == 0 && change == Some(FollowerName)
      ensures term <= old(log.currentTerm) ==>
        heartbeatArmed == old(heartbeatArmed) && log.currentTerm == old(log.currentTerm)
        && log.votedFor == old(log.votedFor) && change == None
    {
      change := None;
      if term > log.currentTerm {
        heartbeatArmed := false;
        log.currentTerm := term;
        log.votedFor := 0;
        change := Some(FollowerName);
      }
    }

    /** The values the commit rule counts, gathered peer by peer. */
    method CollectMatchIndices() returns (matchIndices: seq<int>)
      ensures matchIndices == MatchIndicesOf(LastIndexOf(log.entries), matchIndex, peerIds)
    {
      matchIndices := [log.LastIndex()];
      for i := 0 to |peerIds|
        invariant matchIndices == [log.LastIndex()] + MatchViews(matchIndex, peerIds[..i])
      {
        assert peerIds[..i + 1][..i] == peerIds[..i];
        matchIndices := matchIndices + [MatchIndexOr(matchIndex, peerIds[i])];
      }
      assert peerIds[..|peerIds|] == peerIds;
    }

    /** Moves the commit index by the commit rule and applies what it newly covers. */
    method UpdateCommitIndex(sm: int -> SmReply) returns (events: seq<LogEvent>)
      requires log.Valid()
      modifies log`commitIndex, log`lastApplied
      ensures log.Valid()
      ensures CommitStep(this, old(log.commitIndex), old(log.lastApplied), sm, events)
    {
      events := [];
      if log.commitIndex == log.LastIndex() {
        CommitUnmoved(log.entries, log.currentTerm, MatchIndicesOf(LastIndexOf(log.entries), matchIndex, peerIds),
                      |peerIds|, log.commitIndex, log.lastApplied, sm);
      } else {
        var matchIndices := CollectMatchIndices();
        var majorityIndex := MajorityIndex(matchIndices, |peerIds|);
        if log.TermAt(majorityIndex) == log.currentTerm {
          ghost var commit0, applied0 := log.commitIndex, log.lastApplied;
          events := log.UpdateCommitIndex(majorityIndex, sm);
          CommitMovedToCandidate(log.entries, log.currentTerm, matchIndices, |peerIds|, commit0, applied0,
                                 log.commitIndex, log.lastApplied, sm, events);
        } else {
          CommitUnmoved(log.entries, log.currentTerm, matchIndices, |peerIds|, log.commitIndex, log.lastApplied, sm);
        }
      }
    }

    /** Handles a peer's answer to `request`. On success the peer's match
        index becomes the last index the request carried and its next index
        the one after; the commit rule runs when that passes the commit
        index. On refusal the peer's next index becomes the refused
        `prevLogIndex` and the call is sent again from there. */
    method EntriesAppended(peerId: int, request: AppendInfo, response: AppendResponse, sm: int -> SmReply)
      returns (events: seq<LogEvent>, sends: seq<AppendSend>)
      requires log.Valid()
      modifies this`nextIndex, this`matchIndex, log`commitIndex, log`lastApplied
      ensures log.Valid()
      ensures response.success ==>
        && sends == []
        && MatchRecorded(this, peerId, AckedIndex(request),
                         old(matchIndex), old(nextIndex), old(log.commitIndex), old(log.lastApplied), sm, events)
      ensures !response.success ==>
        && nextIndex == old(nextIndex)[peerId := request.prevLogIndex]
        && matchIndex == old(matchIndex)
        && log.commitIndex == old(log.commitIndex) && log.lastApplied == old(log.lastApplied) && events == []
        && sends == [AppendSend(peerId, AppendRequest(log.entries, log.currentTerm, log.commitIndex, nextIndex, peerId))]
    {
      events, sends := [], [];
      if response.success {
        events := RecordMatch(peerId, AckedIndex(request), sm);
      } else {
        sends := Retry(peerId, request.prevLogIndex);
      }
    }

    /** A refused append: the probe moves back to the request's previous
        index and the peer is sent a new request from there. */
    method Retry(peerId: int, prevLogIndex: int) returns (sends: seq<AppendSend>)
      modifies this`nextIndex
      ensures nextIndex == old(nextIndex)[peerId := prevLogIndex]
      ensures sends == [AppendSend(peerId, AppendRequest(log.entries, log.currentTerm, log.commitIndex, nextIndex, peerId))]
    {
      nextIndex := nextIndex[peerId := prevLogIndex];
      sends := [AppendSend(peerId, AppendRequest(log.entries, log.currentTerm, log.commitIndex, nextIndex, peerId))];
    }

    /** A peer now holds the leader's log up to `m`: its match index becomes
        `m` and its next index `m + 1`, and the commit rule runs when `m` is
        past the commit index. */
    method RecordMatch(peerId: int, m: int, sm: int -> SmReply) returns (events: seq<LogEvent>)
      requires log.Valid()
      modifies this`nextIndex, this`matchIndex, log`commitIndex, log`lastApplied
      ensures log.Valid()
      ensures MatchRecorded(this, peerId, m, old(matchIndex), old(nextIndex), old(log.commitIndex), old(log.lastApplied), sm, events)
    {
      matchIndex := matchIndex[peerId := m];
      nextIndex := nextIndex[peerId := m + 1];
      events := [];
      if m > log.commitIndex {
        events := UpdateCommitIndex(sm);
      }
    }

    /** Appends a client request through the log's AppendEntries receiver and,
        once it is stored, sends the log to every peer. */
    method Request(info: AppendInfo, storageOk: bool, sm: int -> SmReply)
      returns (ack: Ack, write: Option<StorageWrite>, events: seq<LogEvent>, sends: seq<AppendSend>)
      requires log.Valid()
      modifies log`entries, log`commitIndex, log`lastApplied, this`heartbeatArmed
      ensures log.Valid()
      ensures AppendEntriesEffect(log, info, storageOk, sm, ack, write, events)
      ensures ack.success ==> heartbeatArmed && sends == Broadcast()
      ensures !ack.success ==> heartbeatArmed == old(heartbeatArmed) && sends == []
    {
      ack, write, events := log.AppendEntries(info, storageOk, sm);
      sends := [];
      if ack.success {
        sends := BroadcastEntries();
      }
    }

    /** The request a new leader makes to mark its term: one noop entry of
        the current term, right after the last entry. */
    function NoopRequest(): (info: AppendInfo)
      reads this, log
      ensures info.entries == Batch(|log.entries|, [Entry(log.currentTerm, 0, true)])
      ensures AppendAccepted(log.entries, log.currentTerm, info)
      ensures info.leaderCommit == log.commitIndex
    {
      AppendInfo(log.currentTerm, 0, log.LastIndex(), log.LastTerm(), log.commitIndex,
                 Batch(log.LastIndex() + 1, [Entry(log.currentTerm, 0, true)]))
    }

    /** Appends the noop entry to the leader's own log. Its own log always
        accepts it, so it is stored exactly when storage succeeds; nothing is
        committed or applied by it. */
    method Noop(storageOk: bool, sm: int -> SmReply)
      returns (ack: Ack, write: Option<StorageWrite>, sends: seq<AppendSend>)
      requires log.Valid()
      modifies log`entries, log`commitIndex, log`lastApplied, this`heartbeatArmed
      ensures log.Valid()
      ensures ack.success <==> storageOk
      ensures write == Some(AppendWrite(|old(log.entries)|, [Entry(log.currentTerm, 0, true)],
                                        PersistState(log.votedFor, log.currentTerm)))
      ensures storageOk ==> log.entries == old(log.entries) + [Entry(log.currentTerm, 0, true)]
      ensures !storageOk ==> log.entries == old(log.entries)
      ensures log.commitIndex == old(log.commitIndex) && log.lastApplied == old(log.lastApplied)
      ensures storageOk ==> heartbeatArmed && sends == Broadcast()
      ensures !storageOk ==> heartbeatArmed == old(heartbeatArmed) && sends == []
    {
      var info := NoopRequest();
      var events;
      ack, write, events, sends := Request(info, storageOk, sm);
      assert Splice(old(log.entries), |old(log.entries)|) == old(log.entries);
    }

    /** A leader refuses a RequestVote call. */
    method RequestVote(info: VoteInfo) returns (ack: Ack)
      ensures !ack.success && !ack.storageError
    {
      ack := Ack(false, false);
    }

    /** A leader refuses an AppendEntries call of its own term or older. */
    method AppendEntries(info: AppendInfo) returns (ack: Ack)
      ensures !ack.success && !ack.storageError
    {
      ack := Ack(false, false);
    }
  }
}
