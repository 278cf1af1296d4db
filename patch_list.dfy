/**
 * `PatchList` and `ResourcePatchList` of the runtime: patchers registered
 * either for one exact path or for every path a pattern matches. A pattern
 * (a `RegExp` in the program) is modelled by its test, a predicate on paths.
 */
module PatchList {
  import opened Wrappers
  import Utils

  /** Where a patcher applies: one exact path, or every path `test` accepts. */
  datatype Target = Path(path: string) | Pattern(test: string -> bool)

  /** The patchers, in registration order, of the first `n` pattern entries
      whose pattern matches `path`. */
  function MatchingPatchers<P>(patterns: seq<(string -> bool, P)>, path: string, n: nat): (r: seq<P>)
    requires n <= |patterns|
    ensures |r| <= n
  {
    if n == 0 then []
    else
      var (test, patcher) := patterns[n - 1];
      MatchingPatchers(patterns, path, n - 1) + (if test(path) then [patcher] else [])
  }

  class PatchList<P> {
    var patternPatchers: seq<(string -> bool, P)>
    var specificPatchers: map<string, seq<P>>

    constructor()
      ensures patternPatchers == [] && specificPatchers == map[]
    {
      patternPatchers := [];
      specificPatchers := map[];
    }

    /** What `forPath` returns: the matching pattern patchers, then the
        patchers of that exact path. */
    function PatchersFor(path: string): seq<P>
      reads this
    {
      MatchingPatchers(patternPatchers, path, |patternPatchers|) + Utils.ListAt(specificPatchers, path)
    }

    /** `forPath`: changes nothing. */
    method ForPath(path: string) returns (patchers: seq<P>)
      ensures patchers == PatchersFor(path)
    {
      patchers := [];
      var len := |patternPatchers|;
      for i := 0 to len
        invariant patchers == MatchingPatchers(patternPatchers, path, i)
      {
        var (pattern, patcher) := patternPatchers[i];
        if pattern(path) {
          patchers := patchers + [patcher];
        }
      }
      if path in specificPatchers {
        patchers := patchers + specificPatchers[path];
      }
    }

    /** `add`: a path gets the patcher appended to its own list (created
        empty when missing); a pattern is appended to the pattern list. */
    method Add(target: Target, patcher: P)
      modifies this
      ensures target.Path? ==>
        specificPatchers == Utils.Pushed(old(specificPatchers), target.path, patcher) &&
        patternPatchers == old(patternPatchers)
      ensures target.Pattern? ==>
        patternPatchers == old(patternPatchers) + [(target.test, patcher)] &&
        specificPatchers == old(specificPatchers)
    {
      match target
      case Path(path) =>
        var list := if path in specificPatchers then specificPatchers[path] else [];
        specificPatchers := specificPatchers[path := list + [patcher]];
      case Pattern(test) =>
        patternPatchers := patternPatchers + [(test, patcher)];
    }
  }

  /** Pattern patchers come back in registration order: registering one
      more pattern adds its patcher at the end exactly when it matches. */
  lemma {:induction false} MatchingAppend<P>(patterns: seq<(string -> bool, P)>, test: string -> bool, patcher: P, path: string)
    ensures MatchingPatchers(patterns + [(test, patcher)], path, |patterns| + 1) ==
      MatchingPatchers(patterns, path, |patterns|) + (if test(path) then [patcher] else [])
  {
    MatchingPrefix(patterns, [(test, patcher)], path, |patterns|);
  }

  /** Entries after the first `n` do not change what the first `n` give. */
  lemma {:induction false} MatchingPrefix<P>(patterns: seq<(string -> bool, P)>, more: seq<(string -> bool, P)>, path: string, n: nat)
    requires n <= |patterns|
    ensures MatchingPatchers(patterns + more, path, n) == MatchingPatchers(patterns, path, n)
  {
    if n > 0 {
      MatchingPrefix(patterns, more, path, n - 1);
      assert (patterns + more)[n - 1] == patterns[n - 1];
    }
  }

  /** Every patcher `forPath` returns from the pattern list was registered
      with a pattern that accepts the path. */
  lemma {:induction false} MatchingOnlyMatches<P>(patterns: seq<(string -> bool, P)>, path: string, n: nat, k: nat)
    requires n <= |patterns|
    requires k < |MatchingPatchers(patterns, path, n)|
    ensures exists j :: 0 <= j < n && patterns[j].0(path) && patterns[j].1 == MatchingPatchers(patterns, path, n)[k]
  {
    var (test, patcher) := patterns[n - 1];
    var before := MatchingPatchers(patterns, path, n - 1);
    if k < |before| {
      MatchingOnlyMatches(patterns, path, n - 1, k);
      var j :| 0 <= j < n - 1 && patterns[j].0(path) && patterns[j].1 == before[k];
      assert MatchingPatchers(patterns, path, n)[k] == before[k];
    } else {
      assert patterns[n - 1].0(path) && patterns[n - 1].1 == MatchingPatchers(patterns, path, n)[k];
    }
  }

  /** A resource patcher with its dependencies, as `ResourcePatchList`
      stores them. */
  datatype PatcherWithDeps<F, D> = PatcherWithDeps(patcher: F, dependencies: Option<D>)

  /** What `ResourcePatchList.add` accepts: a bare patcher function, or a
      patcher with dependencies. */
  datatype ResourcePatcher<F, D> = Simple(f: F) | WithDeps(details: PatcherWithDeps<F, D>)

  /** `typeof patcher === 'function'` wraps the function as `{ patcher }`. */
  function Wrapped<F, D>(patcher: ResourcePatcher<F, D>): (r: PatcherWithDeps<F, D>)
    ensures patcher.Simple? ==> r.patcher == patcher.f && r.dependencies.None?
    ensures patcher.WithDeps? ==> r == patcher.details
  {
    match patcher
    case Simple(f) => PatcherWithDeps(f, None)
    case WithDeps(details) => details
  }

  /** `ResourcePatchList`: a `PatchList` of patchers with dependencies. */
  class ResourcePatchList<F, D> {
    const list: PatchList<PatcherWithDeps<F, D>>

    constructor()
      ensures fresh(list) && list.patternPatchers == [] && list.specificPatchers == map[]
    {
      list := new PatchList();
    }

    /** `add`: wraps a bare patcher, then adds it as `PatchList.add` does. */
    method Add(target: Target, patcher: ResourcePatcher<F, D>)
      modifies list
      ensures target.Path? ==>
        list.specificPatchers ==
          Utils.Pushed(old(list.specificPatchers), target.path, Wrapped(patcher)) &&
        list.patternPatchers == old(list.patternPatchers)
      ensures target.Pattern? ==>
        list.patternPatchers == old(list.patternPatchers) + [(target.test, Wrapped(patcher))] &&
        list.specificPatchers == old(list.specificPatchers)
    {
      var wrapped := match patcher
        case Simple(f) => PatcherWithDeps(f, None)
        case WithDeps(details) => details;
      list.Add(target, wrapped);
    }
  }
}
