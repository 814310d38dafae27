/** The replicated log of one Raft node: the persistent term, vote and entry
    list, the volatile commit and apply pointers, the AppendEntries and
    RequestVote receiver rules (sections 5.1-5.4 of the Raft paper), and the
    in-order application of committed entries to the state machine.

    Storage calls are synchronous here: their outcome is the `storageOk`
    parameter. The state machine is the `sm` parameter: `sm(i)` is its reply
    when it executes the operation of entry `i`. */
module RaftLog {
  import opened RaftTypes

  // ---------------------------------------------------------------------
  // Pure queries on an entry list

  function LastIndexOf(entries: seq<Entry>): int { |entries| - 1 }

  /** The term of entry `i`, or 0 when the log has no entry `i`. */
  function TermOf(entries: seq<Entry>, i: int): int
  {
    if 0 <= i < |entries| then entries[i].term else 0
  }

  function LastTermOf(entries: seq<Entry>): int { TermOf(entries, |entries| - 1) }

  /** The batch a leader sends after `index`: it starts at `index + 1` and runs
      to the end of the log (JavaScript `slice`, so a start below 0 counts
      back from the end). */
  function EntriesSinceOf(entries: seq<Entry>, index: int): (b: Batch)
    ensures b.startIndex == index + 1
    ensures -1 <= index < |entries| ==> b.values == entries[index + 1..]
  {
    Batch(index + 1, Slice(entries, index + 1))
  }

  /** Rules 1 and 2 of the AppendEntries receiver: the caller is not stale, and
      the log holds `prevLogIndex` with term `prevLogTerm` (an index below 0 is
      never looked up, so it always matches). */
  predicate AppendAccepted(entries: seq<Entry>, currentTerm: int, info: AppendInfo)
  {
    && info.term >= currentTerm
    && info.prevLogIndex <= |entries| - 1
    && (0 <= info.prevLogIndex ==> entries[info.prevLogIndex].term == info.prevLogTerm)
  }

  /** What an accepted batch leaves in a log: the log itself when the batch
      is empty, otherwise the log cut at the batch start with the batch after it. */
  function Applied(entries: seq<Entry>, batch: Batch): (r: seq<Entry>)
    ensures batch.values != [] && 0 <= batch.startIndex <= |entries| ==> r == entries[..batch.startIndex] + batch.values
    ensures batch.values != [] ==> |r| >= |batch.values| && r[|r| - |batch.values|..] == batch.values
  {
    if batch.values == [] then entries else Splice(entries, batch.startIndex) + batch.values
  }

  /** A candidate's log whose last entry is at `lastLogIndex` with term
      `lastLogTerm` is at least as up to date as `entries` (section 5.4.1). */
  predicate AtLeastAsUpToDate(lastLogIndex: int, lastLogTerm: int, entries: seq<Entry>)
  {
    || lastLogTerm > LastTermOf(entries)
    || (lastLogTerm == LastTermOf(entries) && lastLogIndex >= |entries| - 1)
  }

  /** Whether the RequestVote receiver grants the vote: the caller is not
      stale, this node has not voted for anyone else (0 means nobody), and the
      caller's log is at least as up to date. */
  predicate VoteGrantable(entries: seq<Entry>, currentTerm: int, votedFor: int, info: VoteInfo)
  {
    && info.term >= currentTerm
    && (votedFor == 0 || votedFor == info.candidateId)
    && AtLeastAsUpToDate(info.lastLogIndex, info.lastLogTerm, entries)
  }

  /** The persistent fields written with a batch of entries: the term and a
      cleared vote when no vote is recorded in this term, nothing otherwise. */
  function PersistState(votedFor: int, currentTerm: int): (state: map<string, int>)
    ensures votedFor != 0 ==> state.Keys == {}
    ensures votedFor == 0 ==> state.Keys == {"currentTerm", "votedFor"}
    ensures votedFor == 0 ==> state["currentTerm"] == currentTerm && state["votedFor"] == 0
  {
    if votedFor != 0 then map[] else map["currentTerm" := currentTerm, "votedFor" := 0]
  }

  /** The commit index after the follower rule "if leaderCommit > commitIndex,
      set commitIndex = min(leaderCommit, index of last entry)". */
  function AdvanceCommit(commitIndex: int, leaderCommit: int, lastIndex: int): (r: int)
    ensures leaderCommit <= commitIndex ==> r == commitIndex
    ensures leaderCommit > commitIndex ==> r <= leaderCommit && r <= lastIndex
    ensures leaderCommit > commitIndex && commitIndex <= lastIndex ==> commitIndex < r || r == lastIndex
    ensures commitIndex >= -1 && lastIndex >= -1 ==> r >= -1
  {
    if leaderCommit > commitIndex then Min(leaderCommit, lastIndex) else commitIndex
  }

  // ---------------------------------------------------------------------
  // Applying entries to the state machine

  /** Where an apply run ends: the last applied index and the emitted signals. */
  datatype RunResult = RunResult(lastApplied: int, events: seq<LogEvent>)

  predicate InLog(entries: seq<Entry>, pending: seq<int>)
  {
    forall k :: 0 <= k < |pending| ==> 0 <= pending[k] < |entries|
  }

  /** Visits the indices of `pending` in turn. A noop entry is skipped and
      leaves `lastApplied` where it is; any other entry goes to the state
      machine: a success moves `lastApplied` to that index and emits
      `Executed`, a failure emits `StateMachineError` and ends the run. */
  function Run(entries: seq<Entry>, pending: seq<int>, lastApplied: int, sm: int -> SmReply): RunResult
    requires InLog(entries, pending)
    decreases |pending|
  {
    if pending == [] then RunResult(lastApplied, [])
    else
      var i := pending[0];
      if entries[i].noop then Run(entries, pending[1..], lastApplied, sm)
      else match sm(i)
        case SmFailed => RunResult(lastApplied, [StateMachineError])
        case SmOk(result) =>
          var rest := Run(entries, pending[1..], i, sm);
          RunResult(rest.lastApplied, [Executed(i, entries[i], result)] + rest.events)
  }

  /** `execute(index)`: nothing when `index <= lastApplied`, otherwise a run
      over `lastApplied + 1 .. index`. */
  function ApplyUpTo(entries: seq<Entry>, lastApplied: int, index: int, sm: int -> SmReply): RunResult
    requires lastApplied >= -1
    requires index <= lastApplied || index < |entries|
  {
    if index <= lastApplied then RunResult(lastApplied, [])
    else Run(entries, Range(lastApplied + 1, index + 1), lastApplied, sm)
  }

  /** The indices named by the `Executed` signals, in emission order. */
  function ExecutedIndices(events: seq<LogEvent>): seq<int>
  {
    if events == [] then []
    else if events[0].Executed? then [events[0].index] + ExecutedIndices(events[1..])
    else ExecutedIndices(events[1..])
  }

  /** The indices of `pending` that hold a non-noop entry, in order. */
  function NonNoopIndices(entries: seq<Entry>, pending: seq<int>): seq<int>
    requires InLog(entries, pending)
  {
    if pending == [] then []
    else if entries[pending[0]].noop then NonNoopIndices(entries, pending[1..])
    else [pending[0]] + NonNoopIndices(entries, pending[1..])
  }

  predicate StrictlyAscending(s: seq<int>)
  {
    forall j, k :: 0 <= j < k < |s| ==> s[j] < s[k]
  }

  predicate AllAbove(s: seq<int>, low: int)
  {
    forall k :: 0 <= k < |s| ==> low < s[k]
  }

  // ---------------------------------------------------------------------
  // Properties of an apply run

  /** The entries that reach the state machine are exactly the non-noop
      entries of the run, in the run's order, up to the first error; a failed
      run ends with its single error signal. */
  lemma {:induction false} RunExecutesNonNoops(entries: seq<Entry>, pending: seq<int>, lastApplied: int, sm: int -> SmReply)
    requires InLog(entries, pending)
    ensures var r := Run(entries, pending, lastApplied, sm);
      && ExecutedIndices(r.events) <= NonNoopIndices(entries, pending)
      && (StateMachineError !in r.events ==> ExecutedIndices(r.events) == NonNoopIndices(entries, pending))
      && (StateMachineError in r.events ==>
            r.events[|r.events| - 1] == StateMachineError && StateMachineError !in r.events[..|r.events| - 1])
    decreases |pending|
  {
    if pending != [] {
      var i := pending[0];
      RunExecutesNonNoops(entries, pending[1..], if entries[i].noop then lastApplied else i, sm);
      if !entries[i].noop && sm(i).SmOk? {
        var rest := Run(entries, pending[1..], i, sm);
        var events := [Executed(i, entries[i], sm(i).result)] + rest.events;
        assert events[1..] == rest.events;
        if StateMachineError in events {
          assert StateMachineError in rest.events;
          assert events[..|events| - 1] == [events[0]] + rest.events[..|rest.events| - 1];
        }
      }
    }
  }

  /** Every `Executed` signal in `events` names an index of `pending` holding
      a non-noop entry, carries that entry and the state machine's result for it. */
  predicate SignalsFaithful(entries: seq<Entry>, pending: seq<int>, events: seq<LogEvent>, sm: int -> SmReply)
  {
    forall k :: 0 <= k < |events| && events[k].Executed? ==>
      && events[k].index in pending
      && 0 <= events[k].index < |entries|
      && events[k].entry == entries[events[k].index]
      && !events[k].entry.noop
      && sm(events[k].index) == SmOk(events[k].result)
  }

  /** What a run signals is faithful to the log and to the state machine. */
  lemma {:induction false} RunSignalsAreFaithful(entries: seq<Entry>, pending: seq<int>, lastApplied: int, sm: int -> SmReply)
    requires InLog(entries, pending)
    ensures SignalsFaithful(entries, pending, Run(entries, pending, lastApplied, sm).events, sm)
    decreases |pending|
  {
    if pending != [] {
      var i := pending[0];
      assert forall x :: x in pending[1..] ==> x in pending;
      if entries[i].noop {
        RunSignalsAreFaithful(entries, pending[1..], lastApplied, sm);
      } else if sm(i).SmOk? {
        RunSignalsAreFaithful(entries, pending[1..], i, sm);
        var rest := Run(entries, pending[1..], i, sm);
        var events := [Executed(i, entries[i], sm(i).result)] + rest.events;
        assert Run(entries, pending, lastApplied, sm).events == events;
        assert forall k :: 1 <= k < |events| ==> events[k] == rest.events[k - 1];
      }
    }
  }

  /** The run leaves `lastApplied` at the last index it executed, or where it
      was when it executed nothing. */
  lemma {:induction false} RunEndsAtLastExecuted(entries: seq<Entry>, pending: seq<int>, lastApplied: int, sm: int -> SmReply)
    requires InLog(entries, pending)
    ensures var r := Run(entries, pending, lastApplied, sm);
      var done := ExecutedIndices(r.events);
      r.lastApplied == if done == [] then lastApplied else done[|done| - 1]
    decreases |pending|
  {
    if pending != [] {
      var i := pending[0];
      RunEndsAtLastExecuted(entries, pending[1..], if entries[i].noop then lastApplied else i, sm);
      if !entries[i].noop && sm(i).SmOk? {
        var rest := Run(entries, pending[1..], i, sm);
        var events := [Executed(i, entries[i], sm(i).result)] + rest.events;
        assert events[1..] == rest.events;
      }
    }
  }

  /** Skipping entries keeps an ascending sequence ascending. */
  lemma {:induction false} NonNoopIndicesAscending(entries: seq<Entry>, pending: seq<int>, low: int)
    requires InLog(entries, pending)
    requires StrictlyAscending(pending) && AllAbove(pending, low)
    ensures StrictlyAscending(NonNoopIndices(entries, pending)) && AllAbove(NonNoopIndices(entries, pending), low)
    ensures forall k :: 0 <= k < |NonNoopIndices(entries, pending)| ==> NonNoopIndices(entries, pending)[k] in pending
    decreases |pending|
  {
    if pending != [] {
      var rest := pending[1..];
      assert forall k :: 0 <= k < |rest| ==> rest[k] == pending[k + 1];
      assert AllAbove(rest, pending[0]);
      assert StrictlyAscending(rest);
      NonNoopIndicesAscending(entries, rest, pending[0]);
      var tail := NonNoopIndices(entries, rest);
      assert forall x :: x in rest ==> x in pending;
      if !entries[pending[0]].noop {
        var all := [pending[0]] + tail;
        assert forall k :: 1 <= k < |all| ==> all[k] == tail[k - 1];
      }
    }
  }

  /** Applied indices strictly ascend and all lie beyond the starting
      `lastApplied`, which therefore never moves down. */
  lemma ApplyIsAscending(entries: seq<Entry>, pending: seq<int>, lastApplied: int, sm: int -> SmReply)
    requires InLog(entries, pending)
    requires StrictlyAscending(pending) && AllAbove(pending, lastApplied)
    ensures var r := Run(entries, pending, lastApplied, sm);
      && StrictlyAscending(ExecutedIndices(r.events))
      && AllAbove(ExecutedIndices(r.events), lastApplied)
      && r.lastApplied >= lastApplied
  {
    var r := Run(entries, pending, lastApplied, sm);
    RunExecutesNonNoops(entries, pending, lastApplied, sm);
    NonNoopIndicesAscending(entries, pending, lastApplied);
    RunEndsAtLastExecuted(entries, pending, lastApplied, sm);
    var done := ExecutedIndices(r.events);
    var all := NonNoopIndices(entries, pending);
    assert forall k :: 0 <= k < |done| ==> done[k] == all[k];
  }

  /** After a run without error, every index of the run beyond the new
      `lastApplied` holds a noop entry. */
  lemma {:induction false} RunLeavesOnlyNoopsBehind(entries: seq<Entry>, pending: seq<int>, lastApplied: int, sm: int -> SmReply)
    requires InLog(entries, pending)
    requires StrictlyAscending(pending) && AllAbove(pending, lastApplied)
    requires StateMachineError !in Run(entries, pending, lastApplied, sm).events
    ensures var r := Run(entries, pending, lastApplied, sm);
      forall k :: 0 <= k < |pending| && pending[k] > r.lastApplied ==> entries[pending[k]].noop
    decreases |pending|
  {
    if pending != [] {
      var i := pending[0];
      var next := if entries[i].noop then lastApplied else i;
      assert forall k :: 0 <= k < |pending[1..]| ==> pending[1..][k] == pending[k + 1];
      RunLeavesOnlyNoopsBehind(entries, pending[1..], next, sm);
      ApplyIsAscending(entries, pending[1..], next, sm);
    }
  }

  /** A run over noop entries only makes no state-machine call. */
  lemma {:induction false} RunOverNoopsIsIdle(entries: seq<Entry>, pending: seq<int>, lastApplied: int, sm: int -> SmReply)
    requires InLog(entries, pending)
    requires forall k :: 0 <= k < |pending| ==> entries[pending[k]].noop
    ensures Run(entries, pending, lastApplied, sm) == RunResult(lastApplied, [])
    decreases |pending|
  {
    if pending != [] {
      RunOverNoopsIsIdle(entries, pending[1..], lastApplied, sm);
    }
  }

  /** Executing up to `index` a second time, after a first call that met no
      error, calls the state machine for no entry at all, whatever it would
      reply: no entry is applied twice. */
  lemma ExecuteTwiceAppliesOnce(entries: seq<Entry>, lastApplied: int, index: int, sm: int -> SmReply, sm2: int -> SmReply)
    requires lastApplied >= -1 && index < |entries|
    requires StateMachineError !in ApplyUpTo(entries, lastApplied, index, sm).events
    ensures var first := ApplyUpTo(entries, lastApplied, index, sm);
      && first.lastApplied >= lastApplied
      && ApplyUpTo(entries, first.lastApplied, index, sm2) == RunResult(first.lastApplied, [])
  {
    if index > lastApplied {
      var pending := Range(lastApplied + 1, index + 1);
      ApplyIsAscending(entries, pending, lastApplied, sm);
      RunLeavesOnlyNoopsBehind(entries, pending, lastApplied, sm);
      var first := Run(entries, pending, lastApplied, sm);
      if index > first.lastApplied {
        var again := Range(first.lastApplied + 1, index + 1);
        forall k | 0 <= k < |again| ensures entries[again[k]].noop {
          var j := again[k] - lastApplied - 1;
          assert pending[j] == again[k];
        }
        RunOverNoopsIsIdle(entries, again, first.lastApplied, sm2);
      }
    }
  }

  // ---------------------------------------------------------------------
  // Properties of the receiver rules

  /** The three ways AppendEntries is refused, and that `prevLogIndex = -1`
      matches every log, the empty one included. */
  lemma AppendRefusals(entries: seq<Entry>, currentTerm: int, info: AppendInfo)
    ensures info.term < currentTerm ==> !AppendAccepted(entries, currentTerm, info)
    ensures info.prevLogIndex > LastIndexOf(entries) ==> !AppendAccepted(entries, currentTerm, info)
    ensures 0 <= info.prevLogIndex <= LastIndexOf(entries) && TermOf(entries, info.prevLogIndex) != info.prevLogTerm ==>
      !AppendAccepted(entries, currentTerm, info)
    ensures info.term >= currentTerm && info.prevLogIndex == -1 ==> AppendAccepted(entries, currentTerm, info)
  {
  }

  /** Having granted its vote to `first` in a term, a node grants it to no
      other candidate in that term. */
  lemma VoteOncePerTerm(entries: seq<Entry>, currentTerm: int, first: VoteInfo, other: VoteInfo)
    requires first.candidateId != 0
    requires VoteGrantable(entries, currentTerm, first.candidateId, other)
    ensures other.candidateId == first.candidateId
  {
  }

  /** Any two logs are ordered by "at least as up to date": one of them would
      grant the other its vote on that ground. */
  lemma UpToDateIsTotal(a: seq<Entry>, b: seq<Entry>)
    ensures AtLeastAsUpToDate(LastIndexOf(a), LastTermOf(a), b) || AtLeastAsUpToDate(LastIndexOf(b), LastTermOf(b), a)
    ensures AtLeastAsUpToDate(LastIndexOf(a), LastTermOf(a), a)
  {
  }

  // ---------------------------------------------------------------------
  // What the receiver rules do to a log, from the state before to the state after

  /** The AppendEntries receiver: a refused call changes nothing; an accepted
      heartbeat only advances the commit index; an accepted batch is written to
      storage first and replaces the entries from `startIndex` on only when
      that write succeeds; the term and the vote never change. */
  twostate predicate AppendEntriesEffect(log: Log, info: AppendInfo, storageOk: bool, sm: int -> SmReply,
                                         new ack: Ack, new write: Option<StorageWrite>, new events: seq<LogEvent>)
    reads log
  {
    var accepted := AppendAccepted(old(log.entries), old(log.currentTerm), info);
    var batch := info.entries;
    && log.currentTerm == old(log.currentTerm) && log.votedFor == old(log.votedFor)
    && (ack.success <==> accepted && (batch.values == [] || storageOk))
    && (ack.storageError <==> accepted && batch.values != [] && !storageOk)
    && (write.Some? <==> accepted && batch.values != [])
    && (write.Some? ==>
          write.value == AppendWrite(batch.startIndex, batch.values, PersistState(old(log.votedFor), old(log.currentTerm))))
    && (!ack.success ==>
          && log.entries == old(log.entries) && log.commitIndex == old(log.commitIndex)
          && log.lastApplied == old(log.lastApplied) && events == [])
    && (ack.success ==>
          && log.entries == Applied(old(log.entries), batch)
          && log.commitIndex == AdvanceCommit(old(log.commitIndex), info.leaderCommit, |log.entries| - 1)
          && (info.leaderCommit <= old(log.commitIndex) ==> log.lastApplied == old(log.lastApplied) && events == [])
          && (info.leaderCommit > old(log.commitIndex) && old(log.lastApplied) >= -1 ==>
                ApplyUpTo(log.entries, old(log.lastApplied), log.commitIndex, sm) == RunResult(log.lastApplied, events)))
  }

  /** The RequestVote receiver: a grant records the candidate as this term's
      vote (in memory even when the storage write then fails) and asks storage
      to persist the vote and the term; a refusal changes nothing. The term
      and the entries never change. */
  twostate predicate RequestVoteEffect(log: Log, info: VoteInfo, storageOk: bool, new ack: Ack, new write: Option<StorageWrite>)
    reads log
  {
    && log.currentTerm == old(log.currentTerm) && log.entries == old(log.entries)
    && log.commitIndex == old(log.commitIndex) && log.lastApplied == old(log.lastApplied)
    && (VoteGrantable(old(log.entries), old(log.currentTerm), old(log.votedFor), info) ==>
          && log.votedFor == info.candidateId
          && write == Some(SetWrite(map["votedFor" := info.candidateId, "currentTerm" := log.currentTerm]))
          && ack == Ack(!storageOk, storageOk))
    && (!VoteGrantable(old(log.entries), old(log.currentTerm), old(log.votedFor), info) ==>
          log.votedFor == old(log.votedFor) && write == None && ack == Ack(false, false))
  }

  // ---------------------------------------------------------------------
  // The log object

  class Log {
    // persistent state
    var entries: seq<Entry>
    var votedFor: int       // 0 means no vote in this term
    var currentTerm: int
    // volatile state
    var commitIndex: int
    var lastApplied: int

    ghost predicate Valid()
      reads this
    {
      commitIndex >= -1 && lastApplied >= -1
    }

    constructor ()
      ensures Valid()
      ensures entries == [] && votedFor == 0 && currentTerm == 0
      ensures commitIndex == -1 && lastApplied == -1
    {
      entries := [];
      votedFor := 0;
      currentTerm := 0;
      commitIndex := -1;
      lastApplied := -1;
    }

    function LastIndex(): int reads this { LastIndexOf(entries) }

    function LastTerm(): int reads this { LastTermOf(entries) }

    function TermAt(index: int): int reads this { TermOf(entries, index) }

    /** The entry at `index`, or `None` (JavaScript's `undefined`) outside the log. */
    function EntryAt(index: int): (r: Option<Entry>)
      reads this
      ensures r.Some? <==> 0 <= index < |entries|
      ensures r.Some? ==> r.value.term == TermAt(index)
    {
      if 0 <= index < |entries| then Some(entries[index]) else None
    }

    function EntriesSince(index: int): Batch reads this { EntriesSinceOf(entries, index) }

    /** Adopts what storage loaded; a missing term or vote reads as 0. */
    method OnLoaded(fields: map<string, int>, loadedEntries: seq<Entry>)
      requires Valid()
      modifies this`currentTerm, this`votedFor, this`entries
      ensures Valid()
      ensures currentTerm == (if "currentTerm" in fields then fields["currentTerm"] else 0)
      ensures votedFor == (if "votedFor" in fields then fields["votedFor"] else 0)
      ensures entries == loadedEntries
    {
      currentTerm := if "currentTerm" in fields then fields["currentTerm"] else 0;
      votedFor := if "votedFor" in fields then fields["votedFor"] else 0;
      entries := loadedEntries;
    }

    /** Runs one entry: a noop is passed over; otherwise the state machine's
        success moves `lastApplied` to `index` and is signalled, and its
        failure is signalled as an error. */
    method ExecuteEntry(index: int, sm: int -> SmReply) returns (ok: bool, events: seq<LogEvent>)
      requires Valid() && 0 <= index < |entries|
      modifies this`lastApplied
      ensures Valid()
      ensures entries[index].noop ==> ok && events == [] && lastApplied == old(lastApplied)
      ensures !entries[index].noop && sm(index).SmFailed? ==>
        !ok && events == [StateMachineError] && lastApplied == old(lastApplied)
      ensures !entries[index].noop && sm(index).SmOk? ==>
        ok && events == [Executed(index, entries[index], sm(index).result)] && lastApplied == index
    {
      var entry := entries[index];
      if entry.noop {
        return true, [];
      }
      match sm(index)
      case SmFailed =>
        ok, events := false, [StateMachineError];
      case SmOk(result) =>
        lastApplied := index;
        ok, events := true, [Executed(index, entry, result)];
    }

    /** Consumes `indices` front to back, one entry at a time, and stops at the
        first state-machine error. */
    method Chain(indices: seq<int>, sm: int -> SmReply) returns (events: seq<LogEvent>)
      requires Valid() && InLog(entries, indices)
      modifies this`lastApplied
      ensures Valid()
      ensures Run(entries, indices, old(lastApplied), sm) == RunResult(lastApplied, events)
    {
      var queue := indices;
      events := [];
      var failed := false;
      while queue != [] && !failed
        invariant Valid() && InLog(entries, queue)
        invariant !failed ==>
          var rest := Run(entries, queue, lastApplied, sm);
          Run(entries, indices, old(lastApplied), sm) == RunResult(rest.lastApplied, events + rest.events)
        invariant failed ==> Run(entries, indices, old(lastApplied), sm) == RunResult(lastApplied, events)
        decreases |queue|, !failed
      {
        var index := queue[0];
        queue := queue[1..];
        var ok, emitted := ExecuteEntry(index, sm);
        events := events + emitted;
        failed := !ok;
      }
    }

    /** `execute(index)`: applies `lastApplied + 1 .. index` in ascending order. */
    method Execute(index: int, sm: int -> SmReply) returns (events: seq<LogEvent>)
      requires Valid()
      requires index <= lastApplied || index < |entries|
      modifies this`lastApplied
      ensures Valid()
      ensures ApplyUpTo(entries, old(lastApplied), index, sm) == RunResult(lastApplied, events)
    {
      if index <= lastApplied {
        return [];
      }
      var indices := [];
      var i := lastApplied + 1;
      while i <= index
        invariant lastApplied + 1 <= i <= index + 1
        invariant indices == Range(lastApplied + 1, i)
      {
        indices := indices + [i];
        i := i + 1;
      }
      events := Chain(indices, sm);
    }

    /** Moves `commitIndex` up to `min(newIndex, lastIndex)` when `newIndex` is
        beyond it, and applies up to the new commit index. */
    method UpdateCommitIndex(newIndex: int, sm: int -> SmReply) returns (events: seq<LogEvent>)
      requires Valid()
      modifies this`commitIndex, this`lastApplied
      ensures Valid()
      ensures commitIndex == AdvanceCommit(old(commitIndex), newIndex, |entries| - 1)
      ensures newIndex <= old(commitIndex) ==> lastApplied == old(lastApplied) && events == []
      ensures newIndex > old(commitIndex) ==>
        ApplyUpTo(entries, old(lastApplied), commitIndex, sm) == RunResult(lastApplied, events)
    {
      events := [];
      if newIndex > commitIndex {
        commitIndex := Min(newIndex, LastIndex());
        events := Execute(commitIndex, sm);
      }
    }

    /** The AppendEntries receiver. The entries in memory change only after
        storage accepted the batch; the term and the vote never change here. */
    method AppendEntries(info: AppendInfo, storageOk: bool, sm: int -> SmReply)
      returns (ack: Ack, write: Option<StorageWrite>, events: seq<LogEvent>)
      requires Valid()
      modifies this`entries, this`commitIndex, this`lastApplied
      ensures Valid()
      ensures AppendEntriesEffect(this, info, storageOk, sm, ack, write, events)
    {
      write, events := None, [];
      if info.term < currentTerm {
        return Ack(false, false), None, [];
      }
      var newEntries := info.entries;
      var prevEntry := EntryAt(info.prevLogIndex);
      if LastIndex() < info.prevLogIndex || (prevEntry.Some? && prevEntry.value.term != info.prevLogTerm) {
        return Ack(false, false), None, [];
      }
      if |newEntries.values| == 0 {
        events := UpdateCommitIndex(info.leaderCommit, sm);
        return Ack(false, true), None, events;
      }
      write := Some(AppendWrite(newEntries.startIndex, newEntries.values, PersistState(votedFor, currentTerm)));
      if !storageOk {
        return Ack(true, false), write, [];
      }
      entries := Splice(entries, newEntries.startIndex);
      entries := entries + newEntries.values;
      events := UpdateCommitIndex(info.leaderCommit, sm);
      ack := Ack(false, true);
    }

    /** The RequestVote receiver. On a grant the vote is recorded in memory
        before the storage write and stays recorded if that write fails. */
    method RequestVote(info: VoteInfo, storageOk: bool) returns (ack: Ack, write: Option<StorageWrite>)
      modifies this`votedFor
      ensures RequestVoteEffect(this, info, storageOk, ack, write)
    {
      if info.term < currentTerm {
        return Ack(false, false), None;
      }
      if votedFor == 0 || votedFor == info.candidateId {
        var myLastTerm := LastTerm();
        if info.lastLogTerm > myLastTerm || (info.lastLogTerm == myLastTerm && info.lastLogIndex >= LastIndex()) {
          votedFor := info.candidateId;
          write := Some(SetWrite(map["votedFor" := votedFor, "currentTerm" := currentTerm]));
          return Ack(!storageOk, storageOk), write;
        }
      }
      return Ack(false, false), None;
    }
  }
}
