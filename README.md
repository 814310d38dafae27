# raft-core, modelled in Dafny

This project models the core of raft-core, a small JavaScript
implementation of the Raft consensus algorithm. The model covers:

- the replicated log (`log.js`): its persistent term, vote and entries, its
  commit and apply pointers, the AppendEntries and RequestVote receiver
  rules, and the in-order application of committed entries to the state
  machine;
- the three roles a node can hold (`follower.js`, `candidate.js`,
  `leader.js`);
- the node that owns the log, swaps roles and routes RPCs and client
  requests (`server.js`);
- the in-memory storage and state machine the repository ships for its tests
  (`test/memory-storage.js`, `test/memory-state-machine.js`).

Each JavaScript object whose methods update its fields is a Dafny `class`:
`Log`, `Follower`, `Candidate`, `Leader`, `Server`, `MemoryStorage` and
`MemoryStateMachine`. The rules these methods follow are stated as pure
functions and predicates over the old and new state (`AppendAccepted`,
`VoteGrantable`, `Run`, `ApplyUpTo`, `CommitAfter`, `CommitMoved`,
`ElectionBegun`, `LeaderTookOver`, `Settle`, ...). The
properties are proved about those functions as lemmas.

The source is asynchronous. The model makes every operation run to
completion:

- A storage call's outcome is the `storageOk` parameter, and the write it
  asks for is returned as a `StorageWrite`.
- The state machine is the `sm` parameter: `sm(i)` is its reply for the
  entry at index `i`.
- Events the source emits are returned as values. `executed` becomes
  `LogEvent`, `changeRole` becomes `Option<RoleName>`, and `appendEntries`
  becomes `AppendSend`/`Outgoing`.

JavaScript's own semantics are written out where the source relies on them:

- `slice` and `splice` with negative or out-of-range starts;
- `x || y` on a record that may be missing or 0;
- the default `Array.prototype.sort`, which compares numbers as strings.
  It is modelled as `Majority.JsDefaultSort` to show the defect listed under
  "## Findings". The modelled leader sorts its match indices numerically
  (`Majority.MajorityIndex`).

Where the code departs from the rules of the Raft paper, the model follows
the code:

- The leader never initialises `nextIndex` or `matchIndex`. A missing or
  zero record reads as the last index and as -1.
- Noop entries do not move `lastApplied`.
- `beginElection` does not clear the previous term's vote.
- The follower's commit rule can move `commitIndex` down after a truncation.
- A probe at `prevLogIndex` -1 is refused only when the peer's storage fails.
  The leader then stores a next index of -1, which is truthy, so the retry
  probes -2 with a batch starting at -1. Any peer with entries accepts it,
  and `splice(-1)` puts the leader's last entry in place of the peer's own
  last entry (`LeaderRole.RetryAfterEmptyProbeMisplacesEntry`).

## Model

| member | source | states |
|---|---|---|
| RaftTypes.JsStart | log.js:178 | the start of `slice`/`splice` is clamped into the array, and a start within bounds is kept |
| RaftTypes.Slice | log.js:178 | `slice(k)` is a suffix of the array, exactly `s[k..]` for an in-bounds `k` |
| RaftTypes.Splice | log.js:112 | what `splice(k)` leaves is a prefix of the array, exactly `s[..k]` for an in-bounds `k` |
| RaftTypes.Range | log.js:202-205 | the collected indices are `lo, lo+1, ..., hi-1`, one per position |
| RaftLog.LastIndexOf | log.js:26-28 | the last index is one less than the number of entries, -1 for an empty log |
| RaftLog.TermOf | log.js:30-32 | the term of the entry at an index, and 0 where the log has no entry |
| RaftLog.LastTermOf | log.js:22-24 | the term of the last entry, 0 for an empty log |
| RaftLog.AppendAccepted | log.js:82-94 | a call is accepted when it is not stale, the log reaches its previous index, and any entry there has the previous term |
| RaftLog.AtLeastAsUpToDate | log.js:144-150 | a candidate's log is at least as up to date when its last term is larger, or equal with a last index at least as large |
| RaftLog.VoteGrantable | log.js:139-151 | a vote can be granted when the call is not stale, no other candidate has the vote, and the candidate's log is at least as up to date |
| RaftLog.Run | log.js:208-235 | the state machine runs over the pending indices front to back, skipping noops and stopping at the first error |
| RaftLog.ApplyUpTo | log.js:198-207 | applying up to an index at or below `lastApplied` does nothing; otherwise it is the run over `lastApplied + 1 .. index` |
| Storage.MemoryStorage.constructor | test/memory-storage.js:1-4 | storage starts with no fields and no entries |
| Storage.MemoryStorage.Set | test/memory-storage.js:6-13 | every given key is written, every other key keeps its value |
| Storage.MemoryStorage.Get | test/memory-storage.js:15-22 | each requested key maps to its stored value, or to `undefined` when it was never stored |
| Storage.MemoryStorage.AppendEntries | test/memory-storage.js:24-31 | the durable entries are cut at `startIndex` and the batch follows; the state fields are merged in |
| Storage.MemoryStorage.GetEntries | test/memory-storage.js:33-35 | the result is a suffix of the stored entries, exactly those from `startIndex` when it is in bounds |
| Storage.MemoryStorage.Load | test/memory-storage.js:37-50 | the loaded data holds every stored field and the whole entry list |
| Storage.AppendAtEndKeepsAll | test/memory-storage.js:26-29 | appending at the current end drops nothing already stored |
| StateMachine.MemoryStateMachine.constructor | test/memory-state-machine.js:1-3 | the counter starts at 1 |
| StateMachine.MemoryStateMachine.Execute | test/memory-state-machine.js:5-9 | every operation raises the counter by exactly one, answers with the new value and never fails |
| RaftLog.EntriesSinceOf | log.js:175-180 | the batch starts right after `index` and holds every later entry of the log |
| RaftLog.Applied | log.js:112-113 | an accepted batch leaves the log cut at its start with the batch after it, and the batch is the log's tail |
| RaftLog.PersistState | log.js:104 | the term and a cleared vote are written with a batch exactly when no vote is recorded in the term |
| RaftLog.AdvanceCommit | log.js:187-192 | the commit index moves only for a larger `leaderCommit`, never beyond it or the last index, and then it moves up unless the log is shorter |
| RaftLog.RunExecutesNonNoops | log.js:208-235 | a run hands exactly the non-noop entries to the state machine, in order, up to the first error, and an error is the last signal |
| RaftLog.RunSignalsAreFaithful | log.js:219-235 | every `executed` signal names a non-noop entry of the run and carries that entry and the state machine's result for it |
| RaftLog.RunEndsAtLastExecuted | log.js:227-235 | `lastApplied` ends at the last executed index, or stays where it was when nothing was executed |
| RaftLog.NonNoopIndicesAscending | log.js:219-221 | skipping noop entries keeps the run's indices strictly ascending and above the start |
| RaftLog.ApplyIsAscending | log.js:200-212 | entries are applied in strictly ascending index order, all beyond the old `lastApplied`, which never moves down |
| RaftLog.RunLeavesOnlyNoopsBehind | log.js:219-221 | after a run without error, every run index beyond the new `lastApplied` holds a noop entry |
| RaftLog.RunOverNoopsIsIdle | log.js:219-221 | a run over noop entries only makes no state-machine call and changes nothing |
| RaftLog.ExecuteTwiceAppliesOnce | log.js:200-207 | executing up to the same index again after an error-free run applies no entry a second time |
| RaftLog.AppendRefusals | log.js:82-94 | a stale term, a missing previous entry and a previous entry of another term each refuse the call; `prevLogIndex` -1 matches every log |
| RaftLog.VoteOncePerTerm | log.js:139-151 | a node that has voted in a term grants no other candidate in that term |
| RaftLog.UpToDateIsTotal | log.js:144-150 | of any two logs, one is at least as up to date as the other, and every log is as up to date as itself |
| RaftLog.Log.constructor | log.js:4-19 | a new log is empty in term 0 with no vote, and nothing is committed or applied |
| RaftLog.Log.LastIndex | log.js:26-28 | `lastIndex` on the log's entries |
| RaftLog.Log.LastTerm | log.js:22-24 | `lastTerm` on the log's entries |
| RaftLog.Log.TermAt | log.js:30-32 | `termAt` on the log's entries |
| RaftLog.Log.EntriesSince | log.js:175-180 | `entriesSince` on the log's entries |
| RaftLog.Log.EntryAt | log.js:34-36 | there is an entry exactly at the indices inside the log, and it carries the term `termAt` reads |
| RaftLog.Log.OnLoaded | log.js:44-49 | the loaded term, vote and entries are adopted, and a missing term or vote reads as 0 |
| RaftLog.Log.ExecuteEntry | log.js:219-235 | a noop is passed over; otherwise a success moves `lastApplied` to the index and signals it, and a failure signals an error |
| RaftLog.Log.Chain | log.js:208-212 | the entries are consumed front to back as the run describes, stopping at the first error |
| RaftLog.Log.Execute | log.js:200-207 | executing up to `index` is exactly the run over `lastApplied + 1 .. index` |
| RaftLog.Log.UpdateCommitIndex | log.js:187-192 | the commit index follows the follower commit rule, and entries up to it are applied when it moved |
| RaftLog.Log.AppendEntries | log.js:78-118 | success exactly when the call is accepted and a non-empty batch was stored; a refusal changes nothing; the batch replaces the log from its start only after storage succeeded; term and vote never change |
| RaftLog.Log.RequestVote | log.js:136-164 | a vote is recorded exactly when the caller is not stale, no other candidate has the vote, and its log is at least as up to date; success means the write succeeded |
| Majority.CountAtLeastAntitone | leader.js:104-110 | raising the bar never counts more match indices |
| Majority.Insert | leader.js:109 | inserting adds exactly the new element |
| Majority.InsertSorted | leader.js:109 | inserting into a numerically sorted list keeps it sorted |
| Majority.InsertCount | leader.js:109 | insertion adds one to the count exactly at the values the new element reaches |
| Majority.SortAscending | leader.js:109 | the numeric sort is ordered and a permutation of its input |
| Majority.SortCount | leader.js:109 | sorting keeps how many indices reach any value |
| Majority.SortedCountFrom | leader.js:110 | in sorted order, everything from position `m` on reaches the element at `m` |
| Majority.SortedCountAbove | leader.js:110 | in sorted order, a value above the element at `m` is reached only after `m` |
| Majority.MajorityIndex | leader.js:104-110 | the commit candidate is the element at position `floor(peers / 2)` of the numerically sorted match indices |
| Majority.MajorityIndexIsMajority | leader.js:104-110 | the commit candidate is one of the match indices, a strict majority reach it, and no larger value has a majority |
| Majority.JsDefaultSort | leader.js:109 | the default sort orders by decimal strings and is a permutation of its input |
| Majority.InsertByString | leader.js:109 | inserting by string order adds exactly the new element |
| Majority.StringBeforeAsymmetric | leader.js:109 | no two strings each sort before the other |
| Majority.StringBeforeSplits | leader.js:109 | if `c` sorts before `a`, any `b` sorts after `c` or before `a` |
| Majority.InsertByStringSorted | leader.js:109 | inserting by string order into a string-ordered list keeps it string-ordered |
| Majority.MajorityIndexAsWritten | leader.js:109-110 | the candidate picked after the string sort is one of the match indices |
| Majority.StringSortOverCommits | leader.js:109-110 | on match indices 10, 9, 1 the string sort picks 10, which one node of three holds, where the numeric order picks 9 |
| CandidateRole.Cluster | candidate.js:50-59 | the cluster is the node itself and each of its peers |
| CandidateRole.Wins | candidate.js:54 | the votes win when, counted with one more, they exceed half the cluster |
| CandidateRole.PeerVoters | candidate.js:50-59 | a peer voter is in the set exactly when its id is a peer |
| CandidateRole.SubsetNoLarger | candidate.js:54 | a set of voters drawn from another is no larger |
| CandidateRole.QuorumsIntersect | candidate.js:54 | two strict majorities of the same cluster share a voter |
| CandidateRole.ClusterSize | candidate.js:50-59 | a cluster of distinct peers has one node more than it has peers |
| CandidateRole.WinnersShareAVoter | candidate.js:50-59 | two vote sets that both pass the election threshold have a voter in common, so two candidates cannot both win with single votes per node |
| CandidateRole.Candidate.constructor | candidate.js:4-12 | a new candidate holds its own vote only |
| CandidateRole.Candidate.ClearElectionTimeout | candidate.js:24-26 | the election timer is stopped |
| CandidateRole.Candidate.ResetElectionTimeout | candidate.js:28-34 | the election timer is running again |
| CandidateRole.Candidate.AssertRole | candidate.js:36-48 | a newer term is adopted with no vote and the candidate steps down; a call of its own term from a leader makes it step down without touching the term; otherwise nothing changes |
| CandidateRole.Candidate.CountVote | candidate.js:50-59 | a granted vote adds its voter once, and the candidate asks to lead exactly when that vote makes the votes pass half of the cluster |
| CandidateRole.Candidate.RequestVote | candidate.js:15-18 | a candidate grants no vote |
| CandidateRole.Candidate.AppendEntries | candidate.js:15-18 | a candidate accepts no entries |
| CandidateRole.Candidate.Request | candidate.js:61-63 | a candidate refuses clients with "no leader" |
| FollowerRole.Follower.constructor | follower.js:4-11 | a new follower knows no leader and has not started its timer |
| FollowerRole.Follower.ResetElectionTimeout | follower.js:22-28 | each reset restarts the election timer once |
| FollowerRole.Follower.AssertRole | follower.js:30-35 | the term becomes the larger of the two, a newer term clears the vote, and the follower never changes role |
| FollowerRole.Follower.RequestVote | follower.js:37-45 | the log's vote rule decides, and the timer restarts exactly when the vote was granted and stored |
| FollowerRole.Follower.AppendEntries | follower.js:47-51 | any call names the leader and restarts the timer, and the log's AppendEntries rule decides |
| FollowerRole.Follower.Request | follower.js:53-57 | a follower refuses clients and names the last leader it heard from |
| LeaderRole.NextIndexOr | leader.js:52 | a missing or zero next index reads as the last log index |
| LeaderRole.MatchIndexOr | leader.js:107 | a missing or zero match index counts as -1 |
| LeaderRole.MatchViews | leader.js:106-108 | one match index per peer, in peer order |
| LeaderRole.MatchIndicesOf | leader.js:104-108 | the counted values are the leader's last index followed by each peer's match index |
| LeaderRole.AppendRequest | leader.js:44-56 | the call probes the entry before the peer's next index with its term, and the probed prefix plus the batch rebuild the leader's log |
| LeaderRole.FollowerCatchesUp | leader.js:44-56 | a follower that agrees up to the probed entry accepts the call, and afterwards the leader's log is a prefix of its log, equal when the batch is not empty |
| LeaderRole.ProbeFromAgreement | leader.js:52-54 | any probe built from a shared prefix is accepted and rebuilds the sender's log |
| LeaderRole.ProbeNeverReachesEmptyPrefix | leader.js:52 | once the log holds two entries, repeated refusals never lead to a probe at `prevLogIndex` -1, from any stored record; from a record of 0 or more the probes stay within the log, and from a negative record each retry probes one index lower |
| LeaderRole.RetryAfterEmptyProbeMisplacesEntry | leader.js:52-54 | after a refused probe at -1 the retry probes -2 with the leader's last entry at start index -1; any peer with entries accepts it and stores that entry in place of its own last entry |
| LeaderRole.CommitAfter | leader.js:100-114 | the commit rule: below the end of the log, the majority candidate becomes the commit index when it is of the current term and above the commit index |
| LeaderRole.CommitAfterMajority | leader.js:100-114 | when the commit index moves, a majority holds the new index, and in any term but 0 it moves up to an entry of the current term; at the end of the log it never moves |
| LeaderRole.CommitAfterBelowEnd | leader.js:100-112 | below the end of the log the commit rule takes the majority candidate exactly when it is of the current term |
| LeaderRole.CommitMovedToCandidate | leader.js:109-112 | moving the commit index towards a current-term candidate and applying up to it is the commit rule's step |
| LeaderRole.CommitUnmoved | leader.js:100-112 | at the end of the log, or with a candidate of an older term, the commit rule changes nothing |
| LeaderRole.BroadcastOf | leader.js:30-34 | one AppendEntries call per peer, in peer order |
| LeaderRole.Leader.constructor | leader.js:4-13 | a new leader has no next or match records and no heartbeat running |
| LeaderRole.Leader.BroadcastEntries | leader.js:30-36 | the calls sent are exactly the broadcast of the current log and records, one per peer in peer order, and the heartbeat runs again |
| LeaderRole.Leader.AssertRole | leader.js:84-91 | a newer term stops the heartbeat, is adopted with no vote, and the leader steps down; otherwise nothing changes |
| LeaderRole.Leader.CollectMatchIndices | leader.js:104-108 | the collected values are the leader's last index and each peer's match index |
| LeaderRole.Leader.UpdateCommitIndex | leader.js:100-114 | the commit index moves as the commit rule says, and the newly committed entries are applied |
| LeaderRole.Leader.EntriesAppended | leader.js:126-142 | a success records the peer's match and next index and runs the commit rule when that passes the commit index; a refusal backs the next index to the refused probe and resends |
| LeaderRole.Leader.RecordMatch | leader.js:129-134 | the peer's match index and next index are recorded and the commit rule runs when the match passes the commit index |
| LeaderRole.Leader.Retry | leader.js:136-140 | a refused probe sets the peer's next index to the refused previous index and sends the peer a new call built from it |
| LeaderRole.Leader.Request | leader.js:150-157 | the request goes through the log's AppendEntries rule, and the leader broadcasts its log and restarts the heartbeat exactly when it was stored |
| LeaderRole.Leader.NoopRequest | leader.js:62-73 | the noop is one entry of the current term after the last entry, and the leader's own log accepts it |
| LeaderRole.Leader.Noop | leader.js:62-76 | the noop entry is appended and the log broadcast exactly when storage succeeds; otherwise nothing is sent and the heartbeat is untouched; nothing is committed or applied by it |
| LeaderRole.Leader.RequestVote | leader.js:16-21 | a leader grants no vote |
| LeaderRole.Leader.AppendEntries | leader.js:16-21 | a leader accepts no entries |
| Node.Settle | server.js:63-69 | each pending request whose entry executed gets exactly one reply carrying that result and leaves the table; the others stay |
| Node.ClientRequest | server.js:216-226 | the client entry goes right after the last entry in the current term; the node's own log accepts it and appends it without moving the commit index |
| Node.OneVotePerTerm | server.js:174-180 | once a node has voted in a term, no other candidate gets its vote in that term, whatever its role |
| Node.GrantsVote | server.js:174-180 | a node grants a vote when it is, or becomes, a follower and its log's vote rule allows it |
| Node.Server.constructor | server.js:7-21 | a new node has an empty log, no role, no pending requests and no peers |
| Node.Server.Transmit | server.js:77-83 | each call is stamped with this node as leader, and calls to unknown peers are dropped |
| Node.Server.VoteRequests | server.js:141-143 | one vote request per peer, in peer order |
| Node.Server.BeginElection | server.js:127-146 | the term goes up by one; the node votes for itself unless it voted for someone else, and asks its peers only after the self-vote was stored |
| Node.Server.OnChangeRole | server.js:28-54 | the node holds a fresh role object of the named role: a follower knowing no leader whose timer restarted once; a candidate with only its own vote that has begun an election as `BeginElection` states; or a leader for the node's peers that takes over as `BecomeLeader` states |
| Node.Server.BecomeFollower | server.js:35-38 | a fresh follower that knows no leader has started its timer |
| Node.Server.BecomeCandidate | server.js:39-43 | a fresh candidate with only its own vote has started its timer; the term goes up by one, the node votes for itself unless it voted for another, writes that vote with the term, and asks each peer for its vote only when the write succeeded |
| Node.Server.BecomeLeader | server.js:44-50 | a fresh leader for the node's peers with empty records writes its noop with the current term and vote; when stored, the noop is appended, the heartbeat runs and every peer is sent the leader's log; otherwise nothing is appended or sent; nothing is committed or applied |
| Node.Server.OnExecuted | server.js:63-69 | the client waiting at the index gets the result and is forgotten; other executions are ignored |
| Node.Server.Deliver | server.js:20 | the log's signals reach the client table in order, as `Settle` describes |
| Node.Server.AssertRole | server.js:97 | the term becomes the larger one, a newer term clears the vote and leaves a follower, and a candidate hearing its own term's leader steps down |
| Node.Server.Start | server.js:112-119 | the peers are recorded, the loaded log, term and vote are adopted, and the node takes the given role, a follower by default; a candidate begins its election from the loaded term and vote, and a leader takes over from the loaded entries |
| Node.Server.ElectionTimeout | follower.js:18-20 | a timed-out follower or candidate becomes a candidate with only its own vote and a running timer, and begins an election from its old term and vote as `BeginElection` states |
| Node.Server.Heartbeat | leader.js:30-35 | the heartbeat runs again and the node sends exactly the leader's broadcast, each call stamped with its id, to its known peers |
| Node.Server.RequestVote | server.js:174-180 | the vote is granted exactly when the node is, or has just become, a follower whose log grants it and the vote was stored; a newer term makes the node a follower; the vote held afterwards is the candidate when the log grants it (kept in memory even when the write fails), else none on a newer term, else the old vote; the reply carries the node's term |
| Node.Server.AppendEntries | server.js:197-203 | success exactly when the node is not a leader of the caller's term, its log accepts the call and a non-empty batch was stored; then it follows the caller, holds the batch, moves its commit index by the follower rule and applies up to it; a refusal changes no entry, commit or apply pointer; a newer term makes the node a follower with no vote, and a candidate also steps down for its own term |
| Node.Server.EntriesAppended | server.js:95-99 | a reply of a newer term makes the node a follower with no vote; otherwise the role and vote are kept; only a leader that stays leader updates its records and commit index |
| Node.Server.CountVote | server.js:156-162 | a stale vote changes nothing; a vote of a newer term makes the node a follower with no vote and sends nothing; in the node's own term a follower or leader is unchanged, and a candidate becomes leader if and only if its votes, with this granted vote, win the election, taking over as `BecomeLeader` states, and otherwise only adds the granted voter |
| Node.Server.Request | server.js:214-239 | a follower refuses naming its leader, a candidate refuses with no leader, and a leader stores the entry as `LeaderRequest` says and, when stored, broadcasts its log |
| Node.Server.LeaderRequest | server.js:214-239 | the entry is appended and the client waits at its index exactly when storage succeeds, and then the leader broadcasts its log; otherwise the request fails and nothing changes |
| Node.Server.StoreClientEntry | server.js:216-231 | the client entry follows the last entry in the current term; the leader's log accepts it, so it is appended, without moving the commit index, exactly when storage succeeds, and then the leader broadcasts |
| Node.Server.Answer | server.js:233-239 | a storage error or a refusal is reported to the client and the table is unchanged; a stored entry makes the client wait at its index |

## Left out

- Timers and randomness: the election and heartbeat timers are not modelled. A follower counts its timer restarts, a candidate and a leader keep a flag saying whether the timer runs, and a timer firing is the explicit `ElectionTimeout` or `Heartbeat` step.
- Asynchrony: every callback runs at once and in order. Interleavings of concurrent RPCs, storage calls and state-machine calls are not modelled.
- Peers and their transports: a peer is its id. The calls a node sends are returned, and the replies are separate steps (`EntriesAppended`, `CountVote`).
- Storage errors on `load`, and the `err` argument of `entriesAppended` and `countVote`: the source ignores both.
- `console.log` and `console.error` output.
- The log's `error` event has no listener in the source. In Node.js, emitting it would throw. The model drops `StateMachineError` in `Deliver`.
- Node.Server.BeginElection: when the self-vote is refused or not stored, the callback at server.js:139 names an undefined variable and throws a ReferenceError. The model treats that path as sending no vote requests and does not model the exception.
- A missing `entries` field in an AppendEntries call (log.js:86): the model always carries a batch.
- Operations are integers, and entries carry no client payload beyond that. The memory state machine ignores the operation anyway.
- Node.Server.EntriesAppended: the leader's per-peer records are stated by `LeaderRole.Leader.EntriesAppended`, not repeated at the node level.
- Calls before `start`: an RPC, a reply or a client request that reaches a node before `start` has loaded its log finds no role, and server.js throws a TypeError on `this.role`. Every node handler requires a role, so that path is not modelled.

## Findings

| source | as written | input that shows it | evidently intended | confidence | as-written member | corrected member |
|---|---|---|---|---|---|---|
| leader.js:109 | `matchIndices.sort()` with no comparator orders the match indices by their decimal strings | three nodes with leader last index 10 and peer match indices 9 and 1: the sort gives 1, 10, 9 and the leader commits index 10, which only it holds | sort numerically, which picks 9, held by two of the three nodes | not executed | Majority.MajorityIndexAsWritten, Majority.StringSortOverCommits | Majority.MajorityIndex with Majority.MajorityIndexIsMajority, used by LeaderRole.Leader.UpdateCommitIndex |
