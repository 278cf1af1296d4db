/** The pieces a load order is made of: insertion-ordered maps (a
    JavaScript `Map`), mods sorted by id, and the relations between the
    installed mods and a partial load order. */
module ModOrder {
  import opened Mods
  import Utils

  // ---------------------------------------------------------------------
  // Insertion-ordered maps
  // ---------------------------------------------------------------------

  /** A `Map`: its keys in insertion order, and its entries. */
  datatype OrderedMap<T> = OrderedMap(keys: seq<string>, entries: map<string, T>)

  /** Each key is listed once, and the listed keys are the entries' keys. */
  ghost predicate WellFormed<T>(m: OrderedMap<T>) {
    && (forall i, j :: 0 <= i < j < |m.keys| ==> m.keys[i] != m.keys[j])
    && (forall k :: k in m.entries <==> k in m.keys)
  }

  /** `Map.prototype.set`: a new key goes last; a key already there keeps
      its place and only its entry changes. */
  function Set<T>(m: OrderedMap<T>, k: string, v: T): (r: OrderedMap<T>)
    requires WellFormed(m)
    ensures WellFormed(r)
    ensures r.entries == m.entries[k := v]
    ensures k in m.entries ==> r.keys == m.keys
    ensures k !in m.entries ==> r.keys == m.keys + [k]
  {
    if k in m.entries then m.(entries := m.entries[k := v])
    else OrderedMap(m.keys + [k], m.entries[k := v])
  }

  // ---------------------------------------------------------------------
  // Sorting mods by id
  // ---------------------------------------------------------------------

  /** The ids strictly increase along the list. */
  ghost predicate Ascending<V, R>(mods: seq<Mod<V, R>>) {
    forall i, j :: 0 <= i < j < |mods| ==> Utils.Compare(mods[i].id, mods[j].id) < 0
  }

  ghost predicate DistinctIds<V, R>(mods: seq<Mod<V, R>>) {
    forall i, j :: 0 <= i < j < |mods| ==> mods[i].id != mods[j].id
  }

  /** Places `m` into a list sorted by id, after the mods whose id is not
      greater (the comparison sort is stable). */
  function Insert<V, R>(m: Mod<V, R>, sorted: seq<Mod<V, R>>): (r: seq<Mod<V, R>>)
    ensures multiset(r) == multiset(sorted) + multiset{m}
  {
    if |sorted| == 0 then [m]
    else if Utils.Compare(sorted[|sorted| - 1].id, m.id) <= 0 then sorted + [m]
    else
      assert sorted == sorted[..|sorted| - 1] + [sorted[|sorted| - 1]];
      Insert(m, sorted[..|sorted| - 1]) + [sorted[|sorted| - 1]]
  }

  /** `mods.sort((mod1, mod2) => compare(mod1.id, mod2.id))`. */
  function SortById<V, R>(mods: seq<Mod<V, R>>): (r: seq<Mod<V, R>>)
    ensures multiset(r) == multiset(mods)
  {
    if |mods| == 0 then []
    else
      assert mods == mods[..|mods| - 1] + [mods[|mods| - 1]];
      Insert(mods[|mods| - 1], SortById(mods[..|mods| - 1]))
  }

  lemma {:induction false} InsertAscending<V, R>(m: Mod<V, R>, sorted: seq<Mod<V, R>>)
    requires Ascending(sorted)
    requires forall j :: 0 <= j < |sorted| ==> sorted[j].id != m.id
    ensures Ascending(Insert(m, sorted))
  {
    if |sorted| > 0 {
      var n := |sorted| - 1;
      if Utils.Compare(sorted[n].id, m.id) <= 0 {
        Utils.CompareZero(sorted[n].id, m.id);
        AppendAscending(m, sorted);
      } else {
        InsertAscending(m, sorted[..n]);
        Utils.CompareSwap(sorted[n].id, m.id);
        InsertBeforeLast(m, sorted);
      }
    }
  }

  /** A mod whose id is above the last one's goes at the end. */
  lemma {:induction false} AppendAscending<V, R>(m: Mod<V, R>, sorted: seq<Mod<V, R>>)
    requires Ascending(sorted) && |sorted| > 0
    requires Utils.Compare(sorted[|sorted| - 1].id, m.id) < 0
    ensures Ascending(sorted + [m])
  {
    var n := |sorted| - 1;
    forall i | 0 <= i < n
      ensures Utils.Compare(sorted[i].id, m.id) < 0
    {
      Utils.CompareTransitive(sorted[i].id, sorted[n].id, m.id);
    }
  }

  /** A mod whose id is below the last one's goes into the rest. */
  lemma {:induction false} InsertBeforeLast<V, R>(m: Mod<V, R>, sorted: seq<Mod<V, R>>)
    requires Ascending(sorted) && |sorted| > 0
    requires Utils.Compare(m.id, sorted[|sorted| - 1].id) < 0
    requires Ascending(Insert(m, sorted[..|sorted| - 1]))
    ensures Ascending(Insert(m, sorted[..|sorted| - 1]) + [sorted[|sorted| - 1]])
  {
    var n := |sorted| - 1;
    var front := sorted[..n];
    var inserted := Insert(m, front);
    forall i | 0 <= i < |inserted|
      ensures Utils.Compare(inserted[i].id, sorted[n].id) < 0
    {
      assert inserted[i] in multiset(inserted);
      if inserted[i] != m {
        assert inserted[i] in front;
      }
    }
  }

  /** Mods with distinct ids come out in strictly increasing id order. */
  lemma {:induction false} SortByIdAscending<V, R>(mods: seq<Mod<V, R>>)
    requires DistinctIds(mods)
    ensures Ascending(SortById(mods))
  {
    if |mods| > 0 {
      var n := |mods| - 1;
      var front := mods[..n];
      SortByIdAscending(front);
      var sorted := SortById(front);
      forall j | 0 <= j < |sorted|
        ensures sorted[j].id != mods[n].id
      {
        assert sorted[j] in multiset(front);
        var k :| 0 <= k < n && front[k] == sorted[j];
      }
      InsertAscending(mods[n], sorted);
    }
  }

  // ---------------------------------------------------------------------
  // The load order
  // ---------------------------------------------------------------------

  /** The installed mods are each stored under their own id. */
  ghost predicate KeyedById<V, R>(installed: map<string, Mod<V, R>>) {
    forall k :: k in installed ==> installed[k].id == k
  }

  /** `mod` is an installed mod other than the runtime mod. */
  ghost predicate Installed<V, R>(mod: Mod<V, R>, runtime: Mod<V, R>, installed: map<string, Mod<V, R>>) {
    mod != runtime && mod.id in installed && installed[mod.id] == mod
  }

  /** The installed mod `k` has its entry in the load order. */
  ghost predicate Settled<V, R>(k: string, sorted: OrderedMap<Mod<V, R>>, installed: map<string, Mod<V, R>>) {
    k in installed && k in sorted.entries && sorted.entries[k] == installed[k]
  }

  /** `modHasUnsortedInstalledDependencies`: the mod depends on an
      installed mod that is not in the load order yet. */
  ghost predicate WaitsOnDependency<V, R>(mod: Mod<V, R>, sorted: OrderedMap<Mod<V, R>>, installed: map<string, Mod<V, R>>) {
    exists depId :: depId in mod.dependencies && depId !in sorted.entries && depId in installed
  }

  /** `depId` is one of the first `p` keys. */
  ghost predicate PlacedBefore(keys: seq<string>, depId: string, p: int) {
    exists q :: 0 <= q < p && q < |keys| && keys[q] == depId
  }

  /** Every mod after the first is preceded by each of its dependencies
      that is installed. */
  ghost predicate DependenciesFirst<V, R>(sorted: OrderedMap<Mod<V, R>>, installed: map<string, Mod<V, R>>)
    requires WellFormed(sorted)
  {
    forall p, depId :: 1 <= p < |sorted.keys| && depId in sorted.entries[sorted.keys[p]].dependencies && depId in installed ==>
      PlacedBefore(sorted.keys, depId, p)
  }

  /** The runtime mod keeps its entry unless an installed mod other than
      it shares its id (that mod then replaces it, in first place). */
  ghost predicate RuntimeEntry<V, R>(runtime: Mod<V, R>, sorted: OrderedMap<Mod<V, R>>, installed: map<string, Mod<V, R>>) {
    runtime.id in sorted.entries &&
    (sorted.entries[runtime.id] == runtime || (runtime.id in installed && installed[runtime.id] != runtime))
  }
}
