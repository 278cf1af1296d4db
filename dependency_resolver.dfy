/** The order the loader loads mods in, and the check of each mod's
    dependencies against the mods that are installed and loaded. */
module DependencyResolver {
  import opened Wrappers
  import opened Manifest
  import opened Mods
  import opened ModOrder
  import Utils
  import Strings

  // ---------------------------------------------------------------------
  // The load order
  // ---------------------------------------------------------------------

  /** What holds between the passes of `sortModsInLoadOrder`: the mods are
      split between the load order built so far and the list still to
      place, which stays sorted by id. */
  ghost predicate Consistent<V, R>(runtime: Mod<V, R>, installed: map<string, Mod<V, R>>,
                                   unsorted: seq<Mod<V, R>>, sorted: OrderedMap<Mod<V, R>>) {
    && KeyedById(installed)
    && WellFormed(sorted) && |sorted.keys| >= 1 && sorted.keys[0] == runtime.id
    && RuntimeEntry(runtime, sorted, installed)
    && DependenciesFirst(sorted, installed)
    && Ascending(unsorted)
    && (forall j :: 0 <= j < |unsorted| ==> Installed(unsorted[j], runtime, installed))
    && (forall p :: 1 <= p < |sorted.keys| ==>
          Settled(sorted.keys[p], sorted, installed) && installed[sorted.keys[p]] !in unsorted)
    && (forall k :: k in installed && installed[k] != runtime ==>
          installed[k] in unsorted || Settled(k, sorted, installed))
  }

  /** A load order of all installed mods: the runtime mod's id first, then
      every other installed mod once, each after its installed dependencies. */
  ghost predicate LoadOrder<V, R>(runtime: Mod<V, R>, installed: map<string, Mod<V, R>>, sorted: OrderedMap<Mod<V, R>>) {
    && WellFormed(sorted) && |sorted.keys| >= 1 && sorted.keys[0] == runtime.id
    && RuntimeEntry(runtime, sorted, installed)
    && DependenciesFirst(sorted, installed)
    && (forall k :: k in installed && installed[k] != runtime ==> Settled(k, sorted, installed))
    && (forall p :: 1 <= p < |sorted.keys| ==> Settled(sorted.keys[p], sorted, installed))
  }

  /** `splice(i, 1)`. */
  function RemoveAt<T>(s: seq<T>, i: int): (r: seq<T>)
    requires 0 <= i < |s|
    ensures |r| == |s| - 1
    ensures forall j :: 0 <= j < i ==> r[j] == s[j]
    ensures forall j :: i <= j < |r| ==> r[j] == s[j + 1]
  {
    s[..i] + s[i + 1..]
  }

  /** The message thrown when no remaining mod can be placed. */
  function CycleMessage<V, R>(remaining: seq<Mod<V, R>>): string {
    "Detected a dependency cycle, most likely in the following mods: " + Strings.Join(Ids(remaining), ", ")
  }

  function Ids<V, R>(mods: seq<Mod<V, R>>): (ids: seq<string>)
    ensures |ids| == |mods|
    ensures forall i :: 0 <= i < |mods| ==> ids[i] == mods[i].id
  {
    seq(|mods|, i requires 0 <= i < |mods| => mods[i].id)
  }

  /** `modHasUnsortedInstalledDependencies`. */
  method ModHasUnsortedInstalledDependencies<V, R>(mod: Mod<V, R>, sorted: OrderedMap<Mod<V, R>>,
                                                    installed: map<string, Mod<V, R>>)
    returns (r: bool)
    ensures r == WaitsOnDependency(mod, sorted, installed)
  {
    var remaining := mod.dependencies.Keys;
    while remaining != {}
      invariant remaining <= mod.dependencies.Keys
      invariant forall depId :: depId in mod.dependencies && depId !in remaining ==>
        depId in sorted.entries || depId !in installed
      decreases |remaining|
    {
      var depId :| depId in remaining;
      if depId !in sorted.entries && depId in installed {
        return true;
      }
      remaining := remaining - {depId};
    }
    return false;
  }

  /** Removing the `i`th mod from the sorted-by-id list keeps the others
      and their order. */
  lemma {:induction false} RemoveAtKeeps<V, R>(unsorted: seq<Mod<V, R>>, i: int)
    requires 0 <= i < |unsorted| && Ascending(unsorted)
    ensures Ascending(RemoveAt(unsorted, i))
    ensures forall x :: x in RemoveAt(unsorted, i) <==> x in unsorted && x != unsorted[i]
  {
    var r := RemoveAt(unsorted, i);
    forall x | x in unsorted && x != unsorted[i]
      ensures x in r
    {
      var j :| 0 <= j < |unsorted| && unsorted[j] == x;
      if j < i { assert r[j] == x; } else { assert r[j - 1] == x; }
    }
    forall j | 0 <= j < |r|
      ensures r[j] != unsorted[i]
    {
      Utils.CompareSame(unsorted[i].id);
    }
  }

  /** Placing a mod that waits on nothing keeps the load order built so
      far a valid prefix. */
  lemma {:induction false} PlaceSorted<V, R>(runtime: Mod<V, R>, installed: map<string, Mod<V, R>>,
                                             unsorted: seq<Mod<V, R>>, sorted: OrderedMap<Mod<V, R>>, i: int)
    requires Consistent(runtime, installed, unsorted, sorted)
    requires 0 <= i < |unsorted| && !WaitsOnDependency(unsorted[i], sorted, installed)
    ensures var next := Set(sorted, unsorted[i].id, unsorted[i]);
      && |next.keys| >= 1 && next.keys[0] == runtime.id
      && RuntimeEntry(runtime, next, installed)
      && DependenciesFirst(next, installed)
  {
    var m := unsorted[i];
    if m.id in sorted.entries {
      PlacedKeyIsFirst(runtime, installed, unsorted, sorted, i);
      SetReplacesFirst(sorted, installed, m);
    } else {
      SetAppendsLast(sorted, installed, m);
    }
  }

  /** A mod still to place can only share its id with the first entry. */
  lemma {:induction false} PlacedKeyIsFirst<V, R>(runtime: Mod<V, R>, installed: map<string, Mod<V, R>>,
                                                  unsorted: seq<Mod<V, R>>, sorted: OrderedMap<Mod<V, R>>, i: int)
    requires Consistent(runtime, installed, unsorted, sorted)
    requires 0 <= i < |unsorted| && unsorted[i].id in sorted.entries
    ensures unsorted[i].id == sorted.keys[0]
  {
    var p :| 0 <= p < |sorted.keys| && sorted.keys[p] == unsorted[i].id;
    if p >= 1 {
      assert false;
    }
  }

  /** Replacing the first entry keeps every later mod after its dependencies. */
  lemma {:induction false} SetReplacesFirst<V, R>(sorted: OrderedMap<Mod<V, R>>, installed: map<string, Mod<V, R>>, m: Mod<V, R>)
    requires WellFormed(sorted) && |sorted.keys| >= 1 && sorted.keys[0] == m.id
    requires DependenciesFirst(sorted, installed)
    ensures DependenciesFirst(Set(sorted, m.id, m), installed)
  {
    var next := Set(sorted, m.id, m);
    forall p, depId | 1 <= p < |next.keys| && depId in next.entries[next.keys[p]].dependencies && depId in installed
      ensures PlacedBefore(next.keys, depId, p)
    {
      assert next.entries[next.keys[p]] == sorted.entries[sorted.keys[p]];
    }
  }

  /** Appending a mod whose installed dependencies are all placed keeps
      every mod after its dependencies. */
  lemma {:induction false} SetAppendsLast<V, R>(sorted: OrderedMap<Mod<V, R>>, installed: map<string, Mod<V, R>>, m: Mod<V, R>)
    requires WellFormed(sorted) && m.id !in sorted.entries
    requires DependenciesFirst(sorted, installed) && !WaitsOnDependency(m, sorted, installed)
    ensures DependenciesFirst(Set(sorted, m.id, m), installed)
  {
    var next := Set(sorted, m.id, m);
    var n := |sorted.keys|;
    forall p, depId | 1 <= p < |next.keys| && depId in next.entries[next.keys[p]].dependencies && depId in installed
      ensures PlacedBefore(next.keys, depId, p)
    {
      if p == n {
        assert depId in sorted.keys;
        PlacedBeforeAppend(sorted.keys, m.id, depId, n);
      } else {
        assert next.entries[next.keys[p]] == sorted.entries[sorted.keys[p]];
        PlacedBeforeAppend(sorted.keys, m.id, depId, p);
      }
    }
  }

  /** Appending a key keeps the keys placed before a position. */
  lemma {:induction false} PlacedBeforeAppend(keys: seq<string>, k: string, depId: string, p: int)
    requires 0 <= p <= |keys|
    requires PlacedBefore(keys, depId, p) || (p == |keys| && depId in keys)
    ensures PlacedBefore(keys + [k], depId, p)
  {
    var q :| 0 <= q < |keys| && q < p && keys[q] == depId;
    assert (keys + [k])[q] == depId;
  }

  /** Placing a mod that waits on nothing keeps the split between the load
      order and the remaining list. */
  lemma {:induction false} PlaceStep<V, R>(runtime: Mod<V, R>, installed: map<string, Mod<V, R>>,
                                           unsorted: seq<Mod<V, R>>, sorted: OrderedMap<Mod<V, R>>, i: int)
    requires Consistent(runtime, installed, unsorted, sorted)
    requires 0 <= i < |unsorted| && !WaitsOnDependency(unsorted[i], sorted, installed)
    ensures Consistent(runtime, installed, RemoveAt(unsorted, i), Set(sorted, unsorted[i].id, unsorted[i]))
  {
    PlaceSorted(runtime, installed, unsorted, sorted, i);
    PlaceRest(runtime, installed, unsorted, sorted, i);
    PlaceSettled(runtime, installed, unsorted, sorted, i);
    PlaceComplete(runtime, installed, unsorted, sorted, i);
  }

  /** The list left after the splice is still sorted and installed. */
  lemma {:induction false} PlaceRest<V, R>(runtime: Mod<V, R>, installed: map<string, Mod<V, R>>,
                                           unsorted: seq<Mod<V, R>>, sorted: OrderedMap<Mod<V, R>>, i: int)
    requires Consistent(runtime, installed, unsorted, sorted)
    requires 0 <= i < |unsorted|
    ensures Ascending(RemoveAt(unsorted, i))
    ensures forall j :: 0 <= j < |RemoveAt(unsorted, i)| ==> Installed(RemoveAt(unsorted, i)[j], runtime, installed)
  {
    var rest := RemoveAt(unsorted, i);
    RemoveAtKeeps(unsorted, i);
    forall j | 0 <= j < |rest|
      ensures Installed(rest[j], runtime, installed)
    {
      if j < i { assert rest[j] == unsorted[j]; } else { assert rest[j] == unsorted[j + 1]; }
    }
  }

  /** Each placed mod after the first is an installed mod no longer in the list. */
  lemma {:induction false} PlaceSettled<V, R>(runtime: Mod<V, R>, installed: map<string, Mod<V, R>>,
                                              unsorted: seq<Mod<V, R>>, sorted: OrderedMap<Mod<V, R>>, i: int)
    requires Consistent(runtime, installed, unsorted, sorted)
    requires 0 <= i < |unsorted|
    ensures var next := Set(sorted, unsorted[i].id, unsorted[i]);
      forall p :: 1 <= p < |next.keys| ==>
        Settled(next.keys[p], next, installed) && installed[next.keys[p]] !in RemoveAt(unsorted, i)
  {
    var m := unsorted[i];
    var next := Set(sorted, m.id, m);
    var rest := RemoveAt(unsorted, i);
    RemoveAtKeeps(unsorted, i);
    forall p | 1 <= p < |next.keys|
      ensures Settled(next.keys[p], next, installed) && installed[next.keys[p]] !in rest
    {
      if next.keys[p] != m.id {
        assert p < |sorted.keys|;
        assert Settled(sorted.keys[p], sorted, installed);
      }
    }
  }

  /** Every installed mod but the runtime mod is still placed or listed. */
  lemma {:induction false} PlaceComplete<V, R>(runtime: Mod<V, R>, installed: map<string, Mod<V, R>>,
                                               unsorted: seq<Mod<V, R>>, sorted: OrderedMap<Mod<V, R>>, i: int)
    requires Consistent(runtime, installed, unsorted, sorted)
    requires 0 <= i < |unsorted|
    ensures var next := Set(sorted, unsorted[i].id, unsorted[i]);
      forall k :: k in installed && installed[k] != runtime ==>
        installed[k] in RemoveAt(unsorted, i) || Settled(k, next, installed)
  {
    var m := unsorted[i];
    var next := Set(sorted, m.id, m);
    var rest := RemoveAt(unsorted, i);
    RemoveAtKeeps(unsorted, i);
    forall k | k in installed && installed[k] != runtime
      ensures installed[k] in rest || Settled(k, next, installed)
    {
      if k != m.id && installed[k] !in rest {
        assert installed[k] != m;
        assert Settled(k, sorted, installed);
      }
    }
  }

  /** `unsortedModsList.splice(i, 1); sortedMods.set(mod.id, mod)`. */
  method Place<V, R>(runtime: Mod<V, R>, installed: map<string, Mod<V, R>>,
                     unsorted: seq<Mod<V, R>>, sorted: OrderedMap<Mod<V, R>>, i: int)
    returns (unsorted': seq<Mod<V, R>>, sorted': OrderedMap<Mod<V, R>>)
    requires Consistent(runtime, installed, unsorted, sorted)
    requires 0 <= i < |unsorted| && !WaitsOnDependency(unsorted[i], sorted, installed)
    ensures Consistent(runtime, installed, unsorted', sorted')
    ensures unsorted' == RemoveAt(unsorted, i) && sorted' == Set(sorted, unsorted[i].id, unsorted[i])
  {
    PlaceStep(runtime, installed, unsorted, sorted, i);
    var mod := unsorted[i];
    unsorted' := RemoveAt(unsorted, i);
    sorted' := Set(sorted, mod.id, mod);
  }

  /** The rest of a pass from position `i` on: a mod that waits on no
      unplaced installed dependency is spliced out of the list and placed,
      and the next mod moves into position `i`; a mod that waits is
      stepped over. */
  ghost function PassFrom<V, R>(installed: map<string, Mod<V, R>>, unsorted: seq<Mod<V, R>>,
                                sorted: OrderedMap<Mod<V, R>>, i: nat): (r: (seq<Mod<V, R>>, OrderedMap<Mod<V, R>>))
    requires i <= |unsorted| && WellFormed(sorted)
    ensures WellFormed(r.1)
    ensures |r.0| <= |unsorted|
    ensures |r.0| == |unsorted| ==> r == (unsorted, sorted)
    decreases |unsorted| - i
  {
    if i == |unsorted| then (unsorted, sorted)
    else if WaitsOnDependency(unsorted[i], sorted, installed) then PassFrom(installed, unsorted, sorted, i + 1)
    else PassFrom(installed, RemoveAt(unsorted, i), Set(sorted, unsorted[i].id, unsorted[i]), i)
  }

  /** The passes of `sortModsInLoadOrder` from a split between the load
      order and the list: the load order once the list is empty, the cycle
      message once a pass places nothing. */
  ghost function Passes<V, R>(installed: map<string, Mod<V, R>>, unsorted: seq<Mod<V, R>>,
                              sorted: OrderedMap<Mod<V, R>>): Result<OrderedMap<Mod<V, R>>, string>
    requires WellFormed(sorted)
    decreases |unsorted|
  {
    if |unsorted| == 0 then Ok(sorted)
    else
      var next := PassFrom(installed, unsorted, sorted, 0);
      if |next.0| == |unsorted| then Err(CycleMessage(unsorted))
      else Passes(installed, next.0, next.1)
  }

  /** What `sortModsInLoadOrder` returns or throws, as a function of its
      arguments: the passes over the installed mods but the runtime mod,
      sorted by id, starting from the runtime mod alone. */
  ghost function SortedLoadOrder<V, R>(runtime: Mod<V, R>, installed: map<string, Mod<V, R>>): Result<OrderedMap<Mod<V, R>>, string>
    requires KeyedById(installed)
  {
    Passes(installed, SortById(ModsUnder(runtime, installed, installed.Keys)),
           OrderedMap([runtime.id], map[runtime.id := runtime]))
  }

  /** One pass of the inner loop of `sortModsInLoadOrder`: each mod that
      waits on no unplaced installed dependency moves to the load order.
      `cycle` is `dependencyCyclesExist`: nothing moved, and then every
      remaining mod waits on one. */
  method PlacePass<V, R>(runtime: Mod<V, R>, installed: map<string, Mod<V, R>>,
                         unsorted0: seq<Mod<V, R>>, sorted0: OrderedMap<Mod<V, R>>)
    returns (unsorted: seq<Mod<V, R>>, sorted: OrderedMap<Mod<V, R>>, cycle: bool)
    requires Consistent(runtime, installed, unsorted0, sorted0)
    ensures Consistent(runtime, installed, unsorted, sorted)
    ensures (unsorted, sorted) == PassFrom(installed, unsorted0, sorted0, 0)
    ensures cycle <==> |unsorted| == |unsorted0|
    ensures cycle ==> forall j {:trigger WaitsOnDependency(unsorted[j], sorted, installed)} :: 0 <= j < |unsorted| ==> WaitsOnDependency(unsorted[j], sorted, installed)
  {
    unsorted, sorted := unsorted0, sorted0;
    cycle := true;
    var i := 0;
    while i < |unsorted|
      invariant 0 <= i <= |unsorted| <= |unsorted0|
      invariant Consistent(runtime, installed, unsorted, sorted)
      invariant PassFrom(installed, unsorted, sorted, i) == PassFrom(installed, unsorted0, sorted0, 0)
      invariant cycle ==> unsorted == unsorted0 && sorted == sorted0
      invariant !cycle ==> |unsorted| < |unsorted0|
      invariant cycle ==> forall j {:trigger WaitsOnDependency(unsorted0[j], sorted0, installed)} :: 0 <= j < i ==> WaitsOnDependency(unsorted0[j], sorted0, installed)
      decreases |unsorted| - i
    {
      var moved;
      unsorted, sorted, i, moved := PassStep(runtime, installed, unsorted, sorted, i);
      if moved {
        cycle := false;
      }
    }
  }

  /** The body of the inner loop of `sortModsInLoadOrder` at position `i`:
      the mod there is placed, or stepped over when it waits. */
  method PassStep<V, R>(runtime: Mod<V, R>, installed: map<string, Mod<V, R>>,
                        unsorted: seq<Mod<V, R>>, sorted: OrderedMap<Mod<V, R>>, i: nat)
    returns (unsorted': seq<Mod<V, R>>, sorted': OrderedMap<Mod<V, R>>, i': nat, moved: bool)
    requires Consistent(runtime, installed, unsorted, sorted) && i < |unsorted|
    ensures Consistent(runtime, installed, unsorted', sorted') && i' <= |unsorted'|
    ensures PassFrom(installed, unsorted', sorted', i') == PassFrom(installed, unsorted, sorted, i)
    ensures moved <==> !WaitsOnDependency(unsorted[i], sorted, installed)
    ensures moved ==> i' == i && unsorted' == RemoveAt(unsorted, i) && sorted' == Set(sorted, unsorted[i].id, unsorted[i])
    ensures !moved ==> i' == i + 1 && unsorted' == unsorted && sorted' == sorted
  {
    var mod := unsorted[i];
    var waits := ModHasUnsortedInstalledDependencies(mod, sorted, installed);
    if !waits {
      unsorted', sorted' := Place(runtime, installed, unsorted, sorted, i);
      i', moved := i, true;
    } else {
      unsorted', sorted', i', moved := unsorted, sorted, i + 1, false;
    }
  }

  /** `sortModsInLoadOrder`: the passes `SortedLoadOrder` describes. On
      success the result is a load order of all installed mods; on a cycle,
      the message names the mods left, each of which waits on an installed
      mod not yet placed. */
  method SortModsInLoadOrder<V, R>(runtime: Mod<V, R>, installed: map<string, Mod<V, R>>)
    returns (r: Result<OrderedMap<Mod<V, R>>, string>, ghost remaining: seq<Mod<V, R>>, ghost placed: OrderedMap<Mod<V, R>>)
    requires KeyedById(installed)
    ensures r == SortedLoadOrder(runtime, installed)
    ensures r.Ok? ==> LoadOrder(runtime, installed, r.value)
    ensures r.Err? ==> && |remaining| > 0 && r.error == CycleMessage(remaining)
                       && Consistent(runtime, installed, remaining, placed)
                       && forall j :: 0 <= j < |remaining| ==> WaitsOnDependency(remaining[j], placed, installed)
  {
    var list := UnsortedMods(runtime, installed);
    var unsorted := SortById(list);
    var sorted := OrderedMap([runtime.id], map[runtime.id := runtime]);
    StartConsistent(runtime, installed, list);
    SameModsSameOrder(runtime, installed, list, ModsUnder(runtime, installed, installed.Keys));
    while |unsorted| > 0
      invariant Consistent(runtime, installed, unsorted, sorted)
      invariant Passes(installed, unsorted, sorted) == SortedLoadOrder(runtime, installed)
      decreases |unsorted|
    {
      var cycle;
      unsorted, sorted, cycle := PlacePass(runtime, installed, unsorted, sorted);
      if cycle {
        return Err(CycleMessage(unsorted)), unsorted, sorted;
      }
    }
    DoneIsLoadOrder(runtime, installed, unsorted, sorted);
    return Ok(sorted), [], sorted;
  }

  /** A list of the installed mods but the runtime mod: each once, and
      nothing else. */
  ghost predicate ListsInstalled<V, R>(runtime: Mod<V, R>, installed: map<string, Mod<V, R>>, list: seq<Mod<V, R>>) {
    && DistinctIds(list)
    && (forall j :: 0 <= j < |list| ==> Installed(list[j], runtime, installed))
    && (forall k :: k in installed && installed[k] != runtime ==> installed[k] in list)
  }

  /** The installed mods but the runtime mod under the keys `keys`, in an
      order of no importance. */
  ghost function ModsUnder<V, R>(runtime: Mod<V, R>, installed: map<string, Mod<V, R>>, keys: set<string>): (mods: seq<Mod<V, R>>)
    requires KeyedById(installed) && keys <= installed.Keys
    ensures DistinctIds(mods)
    ensures forall j :: 0 <= j < |mods| ==> Installed(mods[j], runtime, installed) && mods[j].id in keys
    ensures forall k :: k in keys && installed[k] != runtime ==> installed[k] in mods
    decreases keys
  {
    if keys == {} then []
    else
      var k :| k in keys;
      var rest := ModsUnder(runtime, installed, keys - {k});
      if installed[k] == runtime then rest else rest + [installed[k]]
  }

  /** Sorting two lists of the installed mods gives the same list, so the
      order `installedMods.values()` visits them in does not matter. */
  lemma {:induction false} SameModsSameOrder<V, R>(runtime: Mod<V, R>, installed: map<string, Mod<V, R>>,
                                                   list1: seq<Mod<V, R>>, list2: seq<Mod<V, R>>)
    requires KeyedById(installed)
    requires ListsInstalled(runtime, installed, list1) && ListsInstalled(runtime, installed, list2)
    ensures SortById(list1) == SortById(list2)
  {
    SortByIdAscending(list1);
    SortByIdAscending(list2);
    SortByIdMembers(list1);
    SortByIdMembers(list2);
    forall x
      ensures x in SortById(list1) <==> x in SortById(list2)
    {
      if x in list1 {
        var j :| 0 <= j < |list1| && list1[j] == x;
        assert Installed(x, runtime, installed);
      }
      if x in list2 {
        var j :| 0 <= j < |list2| && list2[j] == x;
        assert Installed(x, runtime, installed);
      }
    }
    AscendingUnique(SortById(list1), SortById(list2));
  }

  /** Two lists sorted strictly by id with the same mods are the same list. */
  lemma {:induction false} AscendingUnique<V, R>(s: seq<Mod<V, R>>, t: seq<Mod<V, R>>)
    requires Ascending(s) && Ascending(t)
    requires forall x :: x in s <==> x in t
    ensures s == t
    decreases |s|
  {
    if |s| > 0 {
      SameFirst(s, t);
      forall x
        ensures x in s[1..] <==> x in t[1..]
      {
        NotFirst(s, x);
        NotFirst(t, x);
      }
      AscendingUnique(s[1..], t[1..]);
      assert s == [s[0]] + s[1..] && t == [t[0]] + t[1..];
    } else if |t| > 0 {
      SameFirst(t, s);
    }
  }

  /** Two lists sorted strictly by id with the same mods start alike. */
  lemma {:induction false} SameFirst<V, R>(s: seq<Mod<V, R>>, t: seq<Mod<V, R>>)
    requires Ascending(s) && Ascending(t) && |s| > 0
    requires forall x :: x in s <==> x in t
    ensures |t| > 0 && s[0] == t[0]
  {
    assert s[0] in s;
    if s[0] != t[0] {
      var k :| 0 <= k < |t| && t[k] == s[0];
      assert t[0] in t;
      var m :| 0 <= m < |s| && s[m] == t[0];
      assert Utils.Compare(t[0].id, s[0].id) < 0 && Utils.Compare(s[0].id, t[0].id) < 0;
      Utils.CompareSwap(s[0].id, t[0].id);
    }
  }

  /** In a list sorted strictly by id, the mods after the first are the
      others. */
  lemma {:induction false} NotFirst<V, R>(s: seq<Mod<V, R>>, x: Mod<V, R>)
    requires Ascending(s) && |s| > 0
    ensures x in s[1..] <==> x in s && x != s[0]
  {
    if x in s[1..] {
      var j :| 1 <= j < |s| && s[j] == x;
      if x == s[0] {
        assert Utils.Compare(s[0].id, s[j].id) < 0;
        Utils.CompareSame(x.id);
      }
    }
    if x in s && x != s[0] {
      var j :| 0 <= j < |s| && s[j] == x;
      assert s[1..][j - 1] == x;
    }
  }

  /** The `for ... of installedMods.values()` loop: every installed mod but
      the runtime mod, once each (in the map's order, which the sort then
      makes irrelevant). */
  method UnsortedMods<V, R>(runtime: Mod<V, R>, installed: map<string, Mod<V, R>>) returns (list: seq<Mod<V, R>>)
    requires KeyedById(installed)
    ensures DistinctIds(list)
    ensures forall j :: 0 <= j < |list| ==> Installed(list[j], runtime, installed)
    ensures forall k :: k in installed && installed[k] != runtime ==> installed[k] in list
  {
    list := [];
    var keys := installed.Keys;
    while keys != {}
      invariant keys <= installed.Keys
      invariant forall j :: 0 <= j < |list| ==> Installed(list[j], runtime, installed) && list[j].id !in keys
      invariant DistinctIds(list)
      invariant forall k :: k in installed && k !in keys && installed[k] != runtime ==> installed[k] in list
      decreases |keys|
    {
      var k :| k in keys;
      var mod := installed[k];
      if mod != runtime {
        list := list + [mod];
      }
      keys := keys - {k};
    }
  }

  /** Before the first pass only the runtime mod is placed. */
  lemma {:induction false} StartConsistent<V, R>(runtime: Mod<V, R>, installed: map<string, Mod<V, R>>, list: seq<Mod<V, R>>)
    requires KeyedById(installed) && DistinctIds(list)
    requires forall j :: 0 <= j < |list| ==> Installed(list[j], runtime, installed)
    requires forall k :: k in installed && installed[k] != runtime ==> installed[k] in list
    ensures Consistent(runtime, installed, SortById(list), OrderedMap([runtime.id], map[runtime.id := runtime]))
  {
    SortByIdAscending(list);
    SortByIdMembers(list);
  }

  /** Sorting neither adds nor drops a mod. */
  lemma {:induction false} SortByIdMembers<V, R>(list: seq<Mod<V, R>>)
    ensures forall x :: x in SortById(list) <==> x in list
    ensures forall j :: 0 <= j < |SortById(list)| ==> SortById(list)[j] in list
  {
    var unsorted := SortById(list);
    forall x
      ensures x in unsorted <==> x in list
    {
      assert x in unsorted <==> x in multiset(list);
    }
    forall j | 0 <= j < |unsorted|
      ensures unsorted[j] in list
    {
      assert unsorted[j] in multiset(unsorted);
    }
  }

  /** With nothing left to place, the order built is a load order. */
  lemma {:induction false} DoneIsLoadOrder<V, R>(runtime: Mod<V, R>, installed: map<string, Mod<V, R>>,
                                                 unsorted: seq<Mod<V, R>>, sorted: OrderedMap<Mod<V, R>>)
    requires Consistent(runtime, installed, unsorted, sorted) && |unsorted| == 0
    ensures LoadOrder(runtime, installed, sorted)
  {
  }

  /** Every mod the cycle message names depends on another mod it names:
      following those dependencies must come back round, so the remaining
      mods do contain a dependency cycle. */
  lemma {:induction false} CycleAmongRemaining<V, R>(runtime: Mod<V, R>, installed: map<string, Mod<V, R>>,
                                                     remaining: seq<Mod<V, R>>, placed: OrderedMap<Mod<V, R>>, j: int)
    requires Consistent(runtime, installed, remaining, placed)
    requires 0 <= j < |remaining| && WaitsOnDependency(remaining[j], placed, installed)
    ensures exists h :: 0 <= h < |remaining| && remaining[h].id in remaining[j].dependencies
  {
    var depId :| depId in remaining[j].dependencies && depId !in placed.entries && depId in installed;
    var dep := installed[depId];
    assert dep.id == depId;
    assert dep != runtime;
    var h :| 0 <= h < |remaining| && remaining[h] == dep;
  }

  // ---------------------------------------------------------------------
  // Dependency constraints
  // ---------------------------------------------------------------------

  /** What a dependency is checked against: the installed mods, the
      virtual packages (the game and the loader themselves), the mods that
      were loaded, the user's enabled flags, and the semver library's
      range test and string forms. */
  datatype Environment<!V, !R> = Environment(
    installed: map<string, Mod<V, R>>,
    virtualPackages: map<string, V>,
    loaded: map<string, Mod<V, R>>,
    isModEnabled: string -> bool,
    satisfies: (R, V) -> bool,
    versionText: V -> string,
    rangeText: R -> string)

  const SELF_DEPENDENCY := "a mod can't depend on itself"

  /** The version a dependency can be satisfied with, if any: a virtual
      package's, or that of an installed mod that is enabled and loaded. */
  function Available<V, R>(depId: string, env: Environment<V, R>): Option<V> {
    if depId in env.virtualPackages then Some(env.virtualPackages[depId])
    else if depId in env.installed && env.isModEnabled(depId) && depId in env.loaded then Some(env.installed[depId].version)
    else None
  }

  /** `checkDependencyConstraint`: no problem exactly when an available
      version is in range, or nothing is available and the dependency is
      optional; a version out of range is reported even for an optional
      dependency. */
  function CheckDependencyConstraint<V, R>(depId: string, dep: ModDependency<R>, env: Environment<V, R>): (r: Option<string>)
    ensures r.None? <==> match Available(depId, env)
                         case Some(v) => env.satisfies(dep.version, v)
                         case None => Truthy(dep.optional)
  {
    if depId in env.virtualPackages then
      InRange(depId, dep, env.virtualPackages[depId], env)
    else
      var title := "mod '" + depId + "'";
      var optional := Truthy(dep.optional);
      if depId !in env.installed then (if optional then None else Some(title + " is not installed"))
      else if !env.isModEnabled(depId) then (if optional then None else Some(title + " is disabled"))
      else if depId !in env.loaded then (if optional then None else Some(title + " is not loaded"))
      else InRange(title, dep, env.installed[depId].version, env)
  }

  /** The range check at the end of `checkDependencyConstraint`. */
  function InRange<V, R>(title: string, dep: ModDependency<R>, available: V, env: Environment<V, R>): (r: Option<string>)
    ensures r.None? <==> env.satisfies(dep.version, available)
    ensures r.Some? ==> r.value == "version of " + title + " (" + env.versionText(available) + ") is not in range '" + env.rangeText(dep.version) + "'"
  {
    if !env.satisfies(dep.version, available) then
      Some("version of " + title + " (" + env.versionText(available) + ") is not in range '" + env.rangeText(dep.version) + "'")
    else None
  }

  /** A required dependency that is neither a virtual package nor
      installed is reported as not installed. */
  lemma {:induction false} MissingRequiredDependency<V, R>(depId: string, dep: ModDependency<R>, env: Environment<V, R>)
    requires depId !in env.virtualPackages && depId !in env.installed && !Truthy(dep.optional)
    ensures CheckDependencyConstraint(depId, dep, env) == Some("mod '" + depId + "'" + " is not installed")
  {
  }

  /** A virtual package answers for its id whatever mod is installed
      under it. */
  lemma {:induction false} VirtualPackageFirst<V, R>(depId: string, dep: ModDependency<R>, env: Environment<V, R>, other: map<string, Mod<V, R>>)
    requires depId in env.virtualPackages
    ensures CheckDependencyConstraint(depId, dep, env) == CheckDependencyConstraint(depId, dep, env.(installed := other))
  {
  }

  /** The problem, if any, of one dependency of `mod`. */
  function DependencyProblem<V, R>(mod: Mod<V, R>, depId: string, env: Environment<V, R>): Option<string>
    requires depId in mod.dependencies
  {
    if depId == mod.id then Some(SELF_DEPENDENCY)
    else CheckDependencyConstraint(depId, mod.dependencies[depId], env)
  }

  /** The problem of each dependency, in the dependency map's order. */
  function DependencyChecks<V, R>(mod: Mod<V, R>, env: Environment<V, R>): (checks: seq<Option<string>>)
    requires mod.Valid()
    ensures |checks| == |mod.dependencyIds|
    ensures forall i :: 0 <= i < |checks| ==> checks[i] == DependencyProblem(mod, mod.dependencyIds[i], env)
  {
    seq(|mod.dependencyIds|, i requires 0 <= i < |mod.dependencyIds| => DependencyProblem(mod, mod.dependencyIds[i], env))
  }

  /** The problems found, in order. */
  function Problems(checks: seq<Option<string>>): seq<string> {
    if |checks| == 0 then []
    else Problems(checks[..|checks| - 1]) + (if checks[|checks| - 1].Some? then [checks[|checks| - 1].value] else [])
  }

  /** `verifyModDependencies`: the problems of the mod's dependencies, in
      the order the dependencies are listed. */
  method VerifyModDependencies<V, R>(mod: Mod<V, R>, env: Environment<V, R>) returns (problems: seq<string>)
    requires mod.Valid()
    ensures problems == Problems(DependencyChecks(mod, env))
  {
    ghost var checks := DependencyChecks(mod, env);
    problems := [];
    for i := 0 to |mod.dependencyIds|
      invariant problems == Problems(checks[..i])
    {
      var depId := mod.dependencyIds[i];
      var problem: Option<string>;
      if depId == mod.id {
        problem := Some(SELF_DEPENDENCY);
      } else {
        problem := CheckDependencyConstraint(depId, mod.dependencies[depId], env);
      }
      assert checks[..i + 1][..i] == checks[..i];
      if problem.Some? {
        problems := problems + [problem.value];
      }
    }
    assert checks[..|mod.dependencyIds|] == checks;
  }

  /** A problem is reported exactly when some dependency has one, and at
      most one per dependency. */
  lemma {:induction false} ProblemsContents(checks: seq<Option<string>>, x: string)
    ensures |Problems(checks)| <= |checks|
    ensures x in Problems(checks) <==> exists j :: 0 <= j < |checks| && checks[j] == Some(x)
  {
    if |checks| > 0 {
      var n := |checks| - 1;
      ProblemsContents(checks[..n], x);
      if x in Problems(checks[..n]) {
        var j :| 0 <= j < n && checks[..n][j] == Some(x);
        assert checks[j] == Some(x);
      }
      if exists j :: 0 <= j < |checks| && checks[j] == Some(x) {
        var j :| 0 <= j < |checks| && checks[j] == Some(x);
        if j < n {
          assert checks[..n][j] == Some(x);
        }
      }
    }
  }

  /** A mod that lists itself as a dependency is always reported. */
  lemma {:induction false} SelfDependencyReported<V, R>(mod: Mod<V, R>, env: Environment<V, R>)
    requires mod.Valid() && mod.id in mod.dependencies
    ensures SELF_DEPENDENCY in Problems(DependencyChecks(mod, env))
  {
    var checks := DependencyChecks(mod, env);
    var i :| 0 <= i < |mod.dependencyIds| && mod.dependencyIds[i] == mod.id;
    assert checks[i] == Some(SELF_DEPENDENCY);
    ProblemsContents(checks, SELF_DEPENDENCY);
  }

  /** No problem is reported exactly when every dependency other than the
      mod itself passes its constraint. */
  lemma {:induction false} NoProblems<V, R>(mod: Mod<V, R>, env: Environment<V, R>)
    requires mod.Valid()
    ensures Problems(DependencyChecks(mod, env)) == [] <==>
      forall depId :: depId in mod.dependencies ==>
        depId != mod.id && CheckDependencyConstraint(depId, mod.dependencies[depId], env).None?
  {
    var checks := DependencyChecks(mod, env);
    var problems := Problems(checks);
    if problems != [] {
      var x := problems[0];
      ProblemsContents(checks, x);
      var j :| 0 <= j < |checks| && checks[j] == Some(x);
      assert mod.dependencyIds[j] in mod.dependencies;
    } else {
      forall depId | depId in mod.dependencies
        ensures depId != mod.id && CheckDependencyConstraint(depId, mod.dependencies[depId], env).None?
      {
        var j :| 0 <= j < |mod.dependencyIds| && mod.dependencyIds[j] == depId;
        if checks[j].Some? {
          ProblemsContents(checks, checks[j].value);
        }
      }
    }
  }
}
