/** The in-memory Storage: a dictionary of persistent fields (`currentTerm`,
    `votedFor`) and the durable copy of the entry list. Every operation
    succeeds, so the callbacks' error argument is always empty and is left out. */
module Storage {
  import opened RaftTypes

  /** What `load` hands to the log: every stored field and every entry. */
  datatype Loaded = Loaded(fields: map<string, int>, entries: seq<Entry>)

  class MemoryStorage {
    var data: map<string, int>
    var entries: seq<Entry>

    constructor ()
      ensures data == map[] && entries == []
    {
      data := map[];
      entries := [];
    }

    /** Writes every key of `hash` and leaves every other key as it was. */
    method Set(hash: map<string, int>)
      modifies this`data
      ensures data.Keys == old(data).Keys + hash.Keys
      ensures forall k :: k in hash ==> data[k] == hash[k]
      ensures forall k :: k in old(data) && k !in hash ==> data[k] == old(data)[k]
    {
      var keys := hash.Keys;
      while keys != {}
        invariant keys <= hash.Keys
        invariant data.Keys == old(data).Keys + (hash.Keys - keys)
        invariant forall k :: k in hash.Keys - keys ==> data[k] == hash[k]
        invariant forall k :: k in old(data) && k !in hash.Keys - keys ==> data[k] == old(data)[k]
        decreases keys
      {
        var key :| key in keys;
        data := data[key := hash[key]];
        keys := keys - {key};
      }
    }

    /** Looks up each requested key; a key that was never stored reads as `None`
        (JavaScript's `undefined`). */
    method Get(keys: seq<string>) returns (result: map<string, Option<int>>)
      ensures result.Keys == set k | k in keys
      ensures forall k :: k in result && k in data ==> result[k] == Some(data[k])
      ensures forall k :: k in result && k !in data ==> result[k] == None
    {
      result := map[];
      for i := 0 to |keys|
        invariant result.Keys == set k | k in keys[..i]
        invariant forall k :: k in result && k in data ==> result[k] == Some(data[k])
        invariant forall k :: k in result && k !in data ==> result[k] == None
      {
        var key := keys[i];
        result := result[key := if key in data then Some(data[key]) else None];
        assert keys[..i + 1] == keys[..i] + [key];
      }
    }

    /** Truncates the durable entries at `startIndex`, appends `values`, and
        stores the accompanying persistent fields. */
    method AppendEntries(startIndex: int, values: seq<Entry>, state: map<string, int>)
      modifies this
      ensures entries == Splice(old(entries), startIndex) + values
      ensures data.Keys == old(data).Keys + state.Keys
      ensures forall k :: k in state ==> data[k] == state[k]
      ensures forall k :: k in old(data) && k !in state ==> data[k] == old(data)[k]
    {
      if |entries| != startIndex {
        entries := Splice(entries, startIndex);
      }
      entries := entries + values;
      Set(state);
    }

    /** The stored entries from `startIndex` on. */
    method GetEntries(startIndex: int) returns (r: seq<Entry>)
      ensures 0 <= startIndex <= |entries| ==> r == entries[startIndex..]
      ensures |r| <= |entries| && entries == entries[..|entries| - |r|] + r
    {
      r := Slice(entries, startIndex);
    }

    /** Every stored field together with the full entry list. */
    method Load() returns (loaded: Loaded)
      ensures loaded.fields == data && loaded.entries == entries
    {
      var all := GetEntries(0);
      loaded := Loaded(map k | k in data :: data[k], all);
    }
  }

  /** Appending at the current end of the durable list is a pure append:
      nothing already stored is dropped. */
  lemma AppendAtEndKeepsAll(stored: seq<Entry>, values: seq<Entry>)
    ensures Splice(stored, |stored|) + values == stored + values
    ensures (Splice(stored, |stored|) + values)[..|stored|] == stored
  {
  }
}
