/** The task type registry (task/tasker.go): a process-wide map from a type name
    to a constructor. A constructor is modelled by the task it builds. */
module Tasker {
  import opened Common
  import opened Tasks

  /** A task constructor: `func() Tasker`. */
  type Factory = () -> TaskData

  /** The registry; an entry may hold a nil constructor (`None`). */
  class Registry {
    var entries: map<string, Option<Factory>>

    /** `defaultRegister = Register{}`. */
    constructor ()
      ensures entries == map[]
    {
      entries := map[];
    }

    /** Lookup(t): a fresh task from t's constructor, or nil when t is unknown or
        its constructor is nil. */
    function Lookup(t: string): (r: Option<TaskData>)
      reads this
      ensures r.Some? <==> t in entries && entries[t].Some?
      ensures r.Some? ==> r.value == entries[t].value()
    {
      if t in entries && entries[t].Some? then Some(entries[t].value()) else None
    }

    /** GetRegister: the whole table, the one every lookup consults. */
    function GetRegister(): (r: map<string, Option<Factory>>)
      reads this
      ensures r == entries
      ensures forall t :: Lookup(t) == (if t in r && r[t].Some? then Some(r[t].value()) else None)
    {
      entries
    }

    /** Reg(t, f): t now maps to f, replacing any earlier constructor; every other
        name looks up as before. */
    method Reg(t: string, f: Option<Factory>)
      modifies this
      ensures entries == old(entries)[t := f]
      ensures Lookup(t) == if f.Some? then Some(f.value()) else None
      ensures forall u :: u != t ==> Lookup(u) == old(Lookup(u))
    {
      entries := entries[t := f];
    }
  }

  /** The `init` of task/task_http.go: registers "http" with a constructor of an
      empty HttpTask. */
  method RegisterHttp(r: Registry)
    modifies r
    ensures r.Lookup("http") == Some(ZeroTask)
    ensures forall u :: u != "http" ==> r.Lookup(u) == old(r.Lookup(u))
  {
    r.Reg("http", Some(() => ZeroTask));
  }
}
