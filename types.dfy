/** Values shared by the log, the three roles and the node: log entries, the
    RPC records, the replies that stand in for callbacks, and JavaScript's
    rules for array indices that the log relies on. */
module RaftTypes {

  datatype Option<T> = None | Some(value: T)

  /** A client operation. The core never looks inside it. */
  type Op = int

  /** A log entry: the term of the leader that created it, the client
      operation, and whether it is a leader's noop marker (a noop is stored and
      replicated but never run on the state machine). */
  datatype Entry = Entry(term: int, op: Op, noop: bool)

  /** A run of entries to be written from `startIndex` on. */
  datatype Batch = Batch(startIndex: int, values: seq<Entry>)

  /** Arguments of an AppendEntries call. A request without `entries` behaves
      as one with an empty batch, so the batch is always present here. */
  datatype AppendInfo = AppendInfo(
    term: int,
    leaderId: int,
    prevLogIndex: int,
    prevLogTerm: int,
    leaderCommit: int,
    entries: Batch)

  /** Arguments of a RequestVote call. */
  datatype VoteInfo = VoteInfo(term: int, candidateId: int, lastLogIndex: int, lastLogTerm: int)

  /** Reply to a RequestVote call, as a node sends it back. */
  datatype Vote = Vote(id: int, term: int, voteGranted: bool)

  /** Reply to an AppendEntries call, as a node sends it back. */
  datatype AppendResponse = AppendResponse(term: int, success: bool)

  /** What a `callback(err, value)` pair reports: whether the storage write
      failed, and the boolean result. */
  datatype Ack = Ack(storageError: bool, success: bool)

  /** A write the log asks its storage to make durable. */
  datatype StorageWrite =
    | AppendWrite(startIndex: int, values: seq<Entry>, state: map<string, int>)
    | SetWrite(fields: map<string, int>)

  /** The application state machine's reply to one `execute` call. */
  datatype SmReply = SmOk(result: int) | SmFailed

  /** Signals the log emits while applying committed entries. */
  datatype LogEvent = Executed(index: int, entry: Entry, result: int) | StateMachineError

  /** The role named in a role-change signal. */
  datatype RoleName = FollowerName | CandidateName | LeaderName

  /** Why a client request is refused. */
  datatype RequestError =
    | NotTheLeader(leaderId: int)   // follower: carries the last leader it heard from
    | NoLeader                      // candidate: no leader is known
    | StorageFailed                 // leader: the durable write failed
    | NotStored                     // leader: its own log refused the entry

  /** Where `Array.prototype.slice(k)` and `splice(k)` start on an array of
      length `n`: a negative `k` counts back from the end, and any `k` is
      clamped into `0..n`. */
  function JsStart(k: int, n: nat): (r: nat)
    ensures r <= n
    ensures 0 <= k <= n ==> r == k
  {
    if k < 0 then (if n + k < 0 then 0 else n + k)
    else if k > n then n
    else k
  }

  /** `s.slice(k)`: the elements from the normalised start on. */
  function Slice<T>(s: seq<T>, k: int): (r: seq<T>)
    ensures 0 <= k <= |s| ==> r == s[k..]
    ensures |r| <= |s| && s == s[..|s| - |r|] + r
  {
    s[JsStart(k, |s|)..]
  }

  /** What `s.splice(k)` leaves in `s`: the elements before the normalised start. */
  function Splice<T>(s: seq<T>, k: int): (r: seq<T>)
    ensures 0 <= k <= |s| ==> r == s[..k]
    ensures |r| <= |s| && r == s[..|r|]
  {
    s[..JsStart(k, |s|)]
  }

  /** The indices `lo, lo + 1, ..., hi - 1` in ascending order. */
  function Range(lo: int, hi: int): (r: seq<int>)
    decreases hi - lo
    ensures |r| == if lo < hi then hi - lo else 0
    ensures forall k :: 0 <= k < |r| ==> r[k] == lo + k
  {
    if lo >= hi then [] else Range(lo, hi - 1) + [hi - 1]
  }

  function Min(a: int, b: int): int { if a < b then a else b }

  function Max(a: int, b: int): int { if a < b then b else a }
}
