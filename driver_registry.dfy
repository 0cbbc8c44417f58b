/**
 * DriverRegistry: a map from driver names to decode functions. Registration ignores a
 * null function and otherwise replaces whatever was registered under the name; lookup
 * never changes the map. `Fn` stands for the decode-function pointer type and `None`
 * for the null pointer.
 */
module Registry {
  import opened Wrappers

  /** `find`: the function registered under the name, or null. */
  function Lookup<Fn>(drivers: map<string, Fn>, name: string): (r: Option<Fn>)
    ensures r.Some? <==> name in drivers
    ensures r.Some? ==> r.value == drivers[name]
  {
    if name in drivers then Some(drivers[name]) else None
  }

  /** `register_driver` on the map: a null function leaves it unchanged. */
  function Register<Fn>(drivers: map<string, Fn>, name: string, fn: Option<Fn>): map<string, Fn>
  {
    if fn.None? then drivers else drivers[name := fn.value]
  }

  /** A registration of the null function changes nothing. */
  lemma RegisterNullUnchanged<Fn>(drivers: map<string, Fn>, name: string)
    ensures Register(drivers, name, None) == drivers
  {
  }

  /** A name finds the function last registered under it; every other name is unaffected. */
  lemma LookupAfterRegister<Fn>(drivers: map<string, Fn>, name: string, fn: Option<Fn>, other: string)
    ensures fn.Some? ==> Lookup(Register(drivers, name, fn), name) == fn
    ensures other != name ==> Lookup(Register(drivers, name, fn), other) == Lookup(drivers, other)
  {
  }

  /** Registering a name twice keeps only the second function. */
  lemma LastRegistrationWins<Fn>(drivers: map<string, Fn>, name: string, f: Fn, g: Fn)
    ensures Register(Register(drivers, name, Some(f)), name, Some(g)) == Register(drivers, name, Some(g))
  {
  }

  /** A sequence of registrations, first to last. */
  function Replay<Fn>(drivers: map<string, Fn>, regs: seq<(string, Option<Fn>)>): map<string, Fn>
    decreases |regs|
  {
    if |regs| == 0 then drivers else Replay(Register(drivers, regs[0].0, regs[0].1), regs[1..])
  }

  /** The function of the last non-null registration of a name, if any. */
  function LastRegistered<Fn>(regs: seq<(string, Option<Fn>)>, name: string): Option<Fn>
    decreases |regs|
  {
    if |regs| == 0 then None
    else
      var later := LastRegistered(regs[1..], name);
      if later.Some? then later
      else if regs[0].0 == name then regs[0].1
      else None
  }

  /**
   * After any sequence of registrations a name finds the last non-null function
   * registered under it, or what it found before when there was none; in particular a
   * name never registered with a function is not found in a fresh registry.
   */
  lemma {:induction false} LookupAfterReplay<Fn>(drivers: map<string, Fn>, regs: seq<(string, Option<Fn>)>, name: string)
    ensures Lookup(Replay(drivers, regs), name)
      == if LastRegistered(regs, name).Some? then LastRegistered(regs, name) else Lookup(drivers, name)
    decreases |regs|
  {
    if |regs| > 0 {
      var next := Register(drivers, regs[0].0, regs[0].1);
      LookupAfterReplay(next, regs[1..], name);
      LookupAfterRegister(drivers, regs[0].0, regs[0].1, name);
    }
  }

  /** Starting from the empty registry, a name never registered with a function is not found. */
  lemma NeverRegisteredNotFound<Fn>(regs: seq<(string, Option<Fn>)>, name: string)
    requires forall i :: 0 <= i < |regs| ==> regs[i].0 != name || regs[i].1.None?
    ensures Lookup(Replay(map[], regs), name).None?
  {
    LookupAfterReplay(map[], regs, name);
    NoRegistrationOfName(regs, name);
  }

  lemma {:induction false} NoRegistrationOfName<Fn>(regs: seq<(string, Option<Fn>)>, name: string)
    requires forall i :: 0 <= i < |regs| ==> regs[i].0 != name || regs[i].1.None?
    ensures LastRegistered(regs, name).None?
    decreases |regs|
  {
    if |regs| > 0 {
      NoRegistrationOfName(regs[1..], name);
    }
  }

  /** The registry object: its one field is the name-to-function map. */
  class DriverRegistry<Fn> {
    var drivers: map<string, Fn>

    constructor()
      ensures drivers == map[]
    {
      drivers := map[];
    }

    /** `register_driver`: store the function under the name unless it is null. */
    method RegisterDriver(name: string, fn: Option<Fn>)
      modifies this
      ensures drivers == Register(old(drivers), name, fn)
    {
      if fn.None? {
        return;
      }
      drivers := drivers[name := fn.value];
    }

    /** `find`: a read-only lookup. */
    function Find(name: string): (r: Option<Fn>)
      reads this
      ensures r.Some? <==> name in drivers
      ensures r.Some? ==> r.value == drivers[name]
    {
      Lookup(drivers, name)
    }
  }
}
