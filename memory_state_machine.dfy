/** The in-memory state machine: a counter that every executed operation
    bumps by one, whatever the operation is. */
module StateMachine {
  import opened RaftTypes

  class MemoryStateMachine {
    var state: int

    constructor ()
      ensures state == 1
    {
      state := 1;
    }

    /** Runs one operation: the counter goes up by exactly one and its new
        value is the result. It never reports an error. */
    method Execute(op: Op) returns (reply: SmReply)
      modifies this
      ensures state == old(state) + 1
      ensures reply == SmOk(state)
    {
      state := state + 1;
      reply := SmOk(state);
    }
  }
}
