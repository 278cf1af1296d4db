/**
 * Hooks run after an engine module has been defined: callbacks registered
 * per module name, and the wrapper `ig.defines` gets so that a module's
 * definition body is followed by its callbacks. Running a body or a
 * callback is recorded as an event; what they do is not modelled.
 */
module ImpactModuleHooks {
  import opened Wrappers
  import Utils

  /** One step of running a wrapped module definition. */
  datatype Event<C> = RunBody | RunCallback(callback: C)

  /** What the wrapped body does: the original body, then, for a named
      module, each callback registered for it in registration order. */
  function FiringOrder<C>(name: Option<string>, hooks: map<string, seq<C>>): (events: seq<Event<C>>)
    ensures |events| >= 1 && events[0] == RunBody
    ensures name.None? ==> events == [RunBody]
    ensures name.Some? ==> |events| == 1 + |Utils.ListAt(hooks, name.value)|
    ensures name.Some? ==> forall i :: 0 <= i < |Utils.ListAt(hooks, name.value)| ==>
      events[1 + i] == RunCallback(Utils.ListAt(hooks, name.value)[i])
  {
    match name
    case None => [RunBody]
    case Some(n) =>
      var callbacks := Utils.ListAt(hooks, n);
      [RunBody] + seq(|callbacks|, i requires 0 <= i < |callbacks| => RunCallback(callbacks[i]))
  }

  /** The module-level `registeredHooks` map and the functions over it. */
  class Hooks<C> {
    var registeredHooks: map<string, seq<C>>

    constructor()
      ensures registeredHooks == map[]
    {
      registeredHooks := map[];
    }

    /** `add`: the callback goes to the end of the module's list, which is
        created empty when missing; no other list changes. */
    method Add(moduleName: string, callback: C)
      modifies this
      ensures registeredHooks == Utils.Pushed(old(registeredHooks), moduleName, callback)
    {
      var list: seq<C>;
      if moduleName in registeredHooks {
        list := registeredHooks[moduleName];
      } else {
        list := [];
        registeredHooks := registeredHooks[moduleName := list];
      }
      registeredHooks := registeredHooks[moduleName := list + [callback]];
    }

    /** The body `ig.defines` receives for the current module `name`, run:
        no name runs the original body alone; otherwise the body runs, then
        the module's callbacks, if it has any, one after another. */
    method RunDefinition(name: Option<string>) returns (events: seq<Event<C>>)
      ensures events == FiringOrder(name, registeredHooks)
    {
      events := [RunBody];
      if name.None? {
        return;
      }
      if name.value !in registeredHooks {
        return;
      }
      var callbacks := registeredHooks[name.value];
      for i := 0 to |callbacks|
        invariant |events| == 1 + i && events[0] == RunBody
        invariant forall j :: 0 <= j < i ==> events[1 + j] == RunCallback(callbacks[j])
      {
        events := events + [RunCallback(callbacks[i])];
      }
    }
  }

  /** After any sequence of `add` calls, running a module's definition runs
      its body and then exactly the callbacks added for that module, in the
      order they were added. */
  lemma {:induction false} FiresRegisteredInOrder<C>(adds: seq<(string, C)>, name: string)
    ensures var events := FiringOrder(Some(name), Utils.Registered(adds));
      var callbacks := Utils.RegisteredUnder(adds, name);
      |events| == 1 + |callbacks| && events[0] == RunBody &&
      forall i :: 0 <= i < |callbacks| ==> events[1 + i] == RunCallback(callbacks[i])
  {
    Utils.RegisteredInOrder(adds, name);
  }
}
