/** The slot that serialises a session's lifecycle work, after vibe/app_server/_execution.py. */
module Execution {
  import opened Common

  datatype Kind = Lifecycle | TurnRun | Teleport | Shell

  datatype Active = Active(kind: Kind, id: string)

  class SessionExecution {
    var active: Option<Active>

    constructor ()
      ensures active == None
    {
      active := None;
    }

    /** Take the slot, or learn who has it. */
    method Begin(kind: Kind, id: string) returns (r: Result<Active, Active>)
      modifies this
      ensures old(active).Some? ==> r == Err(old(active).value) && active == old(active)
      ensures old(active).None? ==> r == Ok(Active(kind, id)) && active == Some(Active(kind, id))
    {
      if active.Some? { return Err(active.value); }
      active := Some(Active(kind, id));
      r := Ok(active.value);
    }

    /** Give the slot back; a stale holder's return changes nothing. */
    method Finish(execution: Active)
      modifies this
      ensures active == if old(active) == Some(execution) then None else old(active)
    {
      if active == Some(execution) { active := None; }
    }

    method RequireIdle() returns (r: Result<(), Active>)
      ensures r.Ok? <==> active.None?
      ensures r.Err? ==> active == Some(r.error)
    {
      if active.Some? { return Err(active.value); }
      r := Ok(());
    }
  }
}
