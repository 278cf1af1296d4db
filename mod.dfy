/**
 * A mod as the loader holds it: its parsed version, the map of its
 * dependencies built from the manifest, the paths it resolves under its own
 * directory, its asset list and the method and script it runs at each
 * loading stage. Semver parsing is a parameter (`parseVersion`,
 * `parseRange`, whose errors carry the library's message); importing and
 * running scripts and listing files on disk are left out, and the model
 * returns what would be imported.
 */
module Mods {
  import opened Wrappers
  import opened Manifest
  import Paths
  import Strings
  import UiUtils

  /** What `validateString` throws for a path that is not a string. */
  const TYPE_ERROR := "TypeError"

  // ---------------------------------------------------------------------
  // Dependencies
  // ---------------------------------------------------------------------

  /** A dependency of a mod: the semver range it accepts and whether it is
      optional (`dep.optional ?? false`, any JSON value, tested for
      truthiness by the dependency resolver). */
  datatype ModDependency<R> = ModDependency(version: R, optional: Json)

  /** `sanitizeDep`: a bare string is the version range of a dependency
      with no other details; details are kept as they are. */
  function SanitizeDep(dep: Json): (r: Json)
    ensures Field(r, "version") == if dep.Str? then dep else Field(dep, "version")
    ensures Field(r, "optional") == Field(dep, "optional")
    ensures !r.Str?
  {
    if dep.Str? then Object(map["version" := dep], ["version"]) else dep
  }

  /** Sanitizing twice is sanitizing once. */
  lemma {:induction false} SanitizeDepIdempotent(dep: Json)
    ensures SanitizeDep(SanitizeDep(dep)) == SanitizeDep(dep)
  {
  }

  /** `dep.optional ?? false`. */
  function OptionalFlag(dep: Json): (r: Json)
    ensures UiUtils.Nullish(Field(dep, "optional")) ==> r == Bool(false)
    ensures !UiUtils.Nullish(Field(dep, "optional")) ==> r == Field(dep, "optional")
  {
    var optional := Field(dep, "optional");
    if UiUtils.Nullish(optional) then Bool(false) else optional
  }

  /** The message a range that does not parse is reported with. */
  function RangeError(dep: Json, depId: string, message: string): string {
    "dependency version constraint '" + JsString(Field(dep, "version")) + "' for mod '" + depId +
    "' is not a valid semver range: " + message
  }

  /** The message a version that does not parse is reported with. */
  function VersionError(manifest: Json, message: string): string {
    "mod version '" + JsString(Field(manifest, "version")) + "' is not a valid semver version: " + message
  }

  /** The names `Object.keys` lists for the manifest's dependencies: none
      when there are none. */
  function DependencyIds(manifest: Json): seq<string> {
    var deps := Field(manifest, "dependencies");
    if deps.Object? then deps.keys else []
  }

  /** The dependency built for `depId`, or the message of its range. */
  function DependencyOf<R>(deps: Json, depId: string, parseRange: Json -> Result<R, string>): (r: Result<ModDependency<R>, string>)
  {
    var dep := SanitizeDep(Field(deps, depId));
    match parseRange(Field(dep, "version"))
    case Err(message) => Err(RangeError(dep, depId, message))
    case Ok(range) => Ok(ModDependency(range, OptionalFlag(dep)))
  }

  /** The dependency built for each listed id, in order. */
  function DependencyResults<R>(deps: Json, ids: seq<string>, parseRange: Json -> Result<R, string>)
    : (results: seq<Result<ModDependency<R>, string>>)
    ensures |results| == |ids|
    ensures forall i :: 0 <= i < |ids| ==> results[i] == DependencyOf(deps, ids[i], parseRange)
  {
    seq(|ids|, i requires 0 <= i < |ids| => DependencyOf(deps, ids[i], parseRange))
  }

  /** The dependency map after the first `n` ids, given what each id
      builds: each sets its own entry, and the first that fails stops the
      construction with its message. */
  function Dependencies<D>(ids: seq<string>, results: seq<Result<D, string>>, n: nat): Result<map<string, D>, string>
    requires n <= |ids| == |results|
  {
    if n == 0 then Ok(map[])
    else
      match Dependencies(ids, results, n - 1)
      case Err(message) => Err(message)
      case Ok(built) =>
        match results[n - 1]
        case Err(message) => Err(message)
        case Ok(dependency) => Ok(built[ids[n - 1] := dependency])
  }

  /** The dependency map the constructor builds from the manifest. */
  function ManifestDependencies<R>(manifest: Json, parseRange: Json -> Result<R, string>): Result<map<string, ModDependency<R>>, string> {
    var ids := DependencyIds(manifest);
    Dependencies(ids, DependencyResults(Field(manifest, "dependencies"), ids, parseRange), |ids|)
  }

  /** The loop of the constructor that fills the dependency map. */
  method BuildDependencies<R>(manifest: Json, parseRange: Json -> Result<R, string>)
    returns (r: Result<map<string, ModDependency<R>>, string>)
    ensures r == ManifestDependencies(manifest, parseRange)
  {
    var deps := Field(manifest, "dependencies");
    var ids := DependencyIds(manifest);
    var build := depId => DependencyOf(deps, depId, parseRange);
    r := BuildMap(ids, build);
    assert Built(ids, build) == DependencyResults(deps, ids, parseRange);
  }

  /** What building each listed id gives, in order. */
  function Built<D>(ids: seq<string>, build: string -> Result<D, string>): (results: seq<Result<D, string>>)
    ensures |results| == |ids|
    ensures forall i :: 0 <= i < |ids| ==> results[i] == build(ids[i])
  {
    seq(|ids|, i requires 0 <= i < |ids| => build(ids[i]))
  }

  /** Sets each listed id to what it builds, stopping at the first failure. */
  method BuildMap<D>(ids: seq<string>, build: string -> Result<D, string>) returns (r: Result<map<string, D>, string>)
    ensures r == Dependencies(ids, Built(ids, build), |ids|)
  {
    ghost var results := Built(ids, build);
    var dependencies: map<string, D> := map[];
    for i := 0 to |ids|
      invariant Dependencies(ids, results, i) == Ok(dependencies)
    {
      var depId := ids[i];
      var dependency := build(depId);
      if dependency.Err? {
        DependenciesStopAt(ids, results, i + 1, |ids|);
        return Err(dependency.error);
      }
      dependencies := dependencies[depId := dependency.value];
    }
    r := Ok(dependencies);
  }

  /** Once a dependency fails, the construction keeps its message. */
  lemma {:induction false} DependenciesStopAt<D>(ids: seq<string>, results: seq<Result<D, string>>, n: nat, m: nat)
    requires n <= m <= |ids| == |results|
    requires Dependencies(ids, results, n).Err?
    ensures Dependencies(ids, results, m) == Dependencies(ids, results, n)
    decreases m
  {
    if m > n {
      DependenciesStopAt(ids, results, n, m - 1);
    }
  }

  /** A built dependency map holds exactly the listed ids, each with the
      last dependency built for it. For the manifest, whose ids are
      distinct and each build only from the id, that is the dependency
      built for the id: its range and `optional`, `false` when the
      manifest gives none. */
  lemma {:induction false} DependenciesContents<D>(ids: seq<string>, results: seq<Result<D, string>>, n: nat, depId: string)
    requires n <= |ids| == |results|
    requires Dependencies(ids, results, n).Ok?
    ensures depId in Dependencies(ids, results, n).value <==> exists j :: 0 <= j < n && ids[j] == depId
    ensures depId in Dependencies(ids, results, n).value ==>
      exists j :: 0 <= j < n && ids[j] == depId && results[j] == Ok(Dependencies(ids, results, n).value[depId])
  {
    if n > 0 {
      DependenciesContents(ids, results, n - 1, depId);
    }
  }

  /** The construction fails exactly when some listed dependency fails,
      and then with the message of the first such one. */
  lemma {:induction false} DependenciesFailure<D>(ids: seq<string>, results: seq<Result<D, string>>, n: nat)
    requires n <= |ids| == |results|
    ensures Dependencies(ids, results, n).Err? <==> exists j :: 0 <= j < n && results[j].Err?
    ensures Dependencies(ids, results, n).Err? ==>
      exists j :: 0 <= j < n && results[j].Err?
        && Dependencies(ids, results, n).error == results[j].error
        && forall i :: 0 <= i < j ==> results[i].Ok?
  {
    if n > 0 {
      DependenciesFailure(ids, results, n - 1);
    }
  }

  /** For the manifest: the mod's dependencies are exactly those the
      manifest lists, each parsed from its own entry, with `optional`
      defaulting to `false`. */
  lemma {:induction false} ManifestDependenciesContents<R>(manifest: Json, parseRange: Json -> Result<R, string>, depId: string)
    requires ManifestDependencies(manifest, parseRange).Ok?
    ensures var built := ManifestDependencies(manifest, parseRange).value;
      && (depId in built <==> depId in DependencyIds(manifest))
      && (depId in built ==>
            && Ok(built[depId]) == DependencyOf(Field(manifest, "dependencies"), depId, parseRange)
            && built[depId].optional == OptionalFlag(SanitizeDep(Field(Field(manifest, "dependencies"), depId))))
  {
    var ids := DependencyIds(manifest);
    var results := DependencyResults(Field(manifest, "dependencies"), ids, parseRange);
    DependenciesContents(ids, results, |ids|, depId);
  }

  // ---------------------------------------------------------------------
  // Paths under the mod's directory
  // ---------------------------------------------------------------------

  /** `resolvePath`: the path joined onto `/` first, then onto the base
      directory. */
  function ResolvedPath(baseDirectory: string, path: string): string {
    Paths.JoinPathsSpec([baseDirectory, Paths.JoinPathsSpec(["/", path])])
  }

  /** What `join(a, b)` joins: the non-empty ones of the two, with a `/`
      between them when both are there. */
  lemma {:induction false} JoinTwo(a: string, b: string)
    ensures Paths.JoinedArgs([a, b]) ==
      if a == "" && b == "" then None
      else if a == "" then Some(b)
      else if b == "" then Some(a)
      else Some(a + "/" + b)
  {
    assert [a, b][..1] == [a];
    assert [a][..0] == [];
    assert Paths.JoinedArgs([a]) == if a == "" then None else Some(a);
  }

  /** What `join('/', path)` joins. */
  lemma {:induction false} RootedJoin(path: string)
    ensures Paths.JoinedArgs(["/", path]) == Some(if path == "" then "/" else "//" + path)
  {
    JoinTwo("/", path);
    assert "/" + "/" + path == "//" + path;
  }

  /** `//path`, or `/` for an empty path, resolves to the segments of
      `path` resolved without climbing above its start. */
  lemma {:induction false} RootedStack(path: string)
    ensures var rooted := if path == "" then "/" else "//" + path;
      Paths.NormalStack(rooted, false) == Paths.NormalStack(path, false)
  {
    BlankSegments([], false);
    RootSegments();
    if path == "" {
      Strings.SplitNoSeparator("", '/');
      assert Paths.Segments(path) == [""];
    } else {
      assert "//" + path == "/" + ("/" + path);
      Paths.SegmentsRooted("/" + path);
      Paths.SegmentsRooted(path);
      assert Paths.Segments("//" + path) == ["", ""] + Paths.Segments(path);
      Paths.FoldAppend([], ["", ""], Paths.Segments(path), false);
    }
  }

  /** The segments of `/`: two empty ones. */
  lemma {:induction false} RootSegments()
    ensures Paths.Segments("/") == ["", ""]
  {
    Paths.SegmentsRooted("");
    Strings.SplitNoSeparator("", '/');
  }

  /** Empty segments leave a stack as it is. */
  lemma {:induction false} BlankSegments(start: seq<string>, allowAboveRoot: bool)
    ensures Paths.Fold(start, [""], allowAboveRoot) == start
    ensures Paths.Fold(start, ["", ""], allowAboveRoot) == start
  {
    assert ["", ""][..1] == [""];
    assert [""][..0] == [];
  }

  /** `join('/', path)` is absolute, and its segments, put on top of any
      stack, add exactly the segments of `path` resolved without climbing
      above its start: no `..` of `path` reaches below. */
  lemma {:induction false} RootedSegments(path: string, start: seq<string>, allowAboveRoot: bool)
    ensures var inner := Paths.JoinPathsSpec(["/", path]);
      && Paths.IsAbsolute(inner)
      && Paths.Fold(start, Paths.Segments(inner), allowAboveRoot) == start + Paths.NormalStack(path, false)
  {
    RootedJoin(path);
    var rooted := if path == "" then "/" else "//" + path;
    RootedStack(path);
    Paths.NormalizeShape(rooted);
    if Paths.NormalStack(rooted, false) == [] {
      RootedToRoot(rooted, start, allowAboveRoot);
    } else {
      RootedBelowRoot(rooted, start, allowAboveRoot);
    }
  }

  /** An absolute path that resolves to nothing normalizes to `/`, whose
      segments add nothing. */
  lemma {:induction false} RootedToRoot(rooted: string, start: seq<string>, allowAboveRoot: bool)
    requires Paths.IsAbsolute(rooted) && Paths.NormalStack(rooted, false) == []
    ensures Paths.Fold(start, Paths.Segments(Paths.NormalizeSpec(rooted)), allowAboveRoot) == start
  {
    Paths.JoinEmpty([]);
    assert Paths.NormalizeSpec(rooted) == "/";
    RootSegments();
    BlankSegments(start, allowAboveRoot);
  }

  /** An absolute path that resolves to some segments normalizes to a
      path whose segments add exactly those. */
  lemma {:induction false} RootedBelowRoot(rooted: string, start: seq<string>, allowAboveRoot: bool)
    requires Paths.IsAbsolute(rooted) && Paths.NormalStack(rooted, false) != []
    ensures Paths.Fold(start, Paths.Segments(Paths.NormalizeSpec(rooted)), allowAboveRoot)
            == start + Paths.NormalStack(rooted, false)
  {
    var stack := Paths.NormalStack(rooted, false);
    Paths.NormalStackClean(rooted, false);
    Paths.NormalizeSegments(rooted);
    var tail: seq<string> := if rooted[|rooted| - 1] == '/' then [""] else [];
    assert Paths.Segments(Paths.NormalizeSpec(rooted)) == [""] + stack + tail;
    Paths.FoldAppend(start, [""] + stack, tail, allowAboveRoot);
    Paths.FoldAppend(start, [""], stack, allowAboveRoot);
    BlankSegments(start, allowAboveRoot);
    Paths.FoldPlain(start, stack, allowAboveRoot);
    BlankSegments(start + stack, allowAboveRoot);
  }

  /** Normalizing keeps what a non-empty path resolves to, and whether it
      is absolute. */
  lemma {:induction false} NormalizeKeepsStack(path: string)
    requires |path| > 0
    ensures var r := Paths.NormalizeSpec(path);
      && (Paths.IsAbsolute(r) <==> Paths.IsAbsolute(path))
      && Paths.NormalStack(r, !Paths.IsAbsolute(r)) == Paths.NormalStack(path, !Paths.IsAbsolute(path))
  {
    Paths.NormalizeShape(path);
    var hasRoot := path[0] == '/';
    var stack := Paths.NormalStack(path, !hasRoot);
    if stack != [] {
      Paths.NormalizeStackTwice(path);
    } else {
      Paths.JoinEmpty([]);
      var r := Paths.NormalizeSpec(path);
      if hasRoot {
        assert r == "/";
        RootSegments();
        BlankSegments([], false);
      } else {
        Strings.SplitNoSeparator(".", '/');
        Paths.SegmentsTrailing(".");
        assert Paths.Fold([], [".", ""], true) == [];
        assert Paths.Fold([], ["."], true) == [];
      }
    }
  }

  /** `resolvePath` never leaves the mod's directory: what it resolves to
      is what the base directory resolves to, followed by the segments of
      `path` resolved as if `path` were rooted, which hold no `..`. */
  lemma {:induction false} ResolvedUnderBase(baseDirectory: string, path: string)
    requires baseDirectory != ""
    ensures var r := ResolvedPath(baseDirectory, path);
      && |r| > 0
      && (Paths.IsAbsolute(r) <==> Paths.IsAbsolute(baseDirectory))
      && Paths.NormalStack(r, !Paths.IsAbsolute(r))
         == Paths.NormalStack(baseDirectory, !Paths.IsAbsolute(baseDirectory)) + Paths.NormalStack(path, false)
  {
    var inner := Paths.JoinPathsSpec(["/", path]);
    var allow := !Paths.IsAbsolute(baseDirectory);
    RootedSegments(path, Paths.NormalStack(baseDirectory, allow), allow);
    var joined := baseDirectory + "/" + inner;
    JoinTwo(baseDirectory, inner);
    assert joined == baseDirectory + ['/'] + inner;
    Strings.SplitConcat(baseDirectory, inner, '/');
    Paths.FoldAppend([], Paths.Segments(baseDirectory), Paths.Segments(inner), allow);
    assert Paths.NormalStack(joined, allow)
      == Paths.NormalStack(baseDirectory, allow) + Paths.NormalStack(path, false);
    NormalizeKeepsStack(joined);
  }

  /** With an empty base directory, `resolvePath` gives an absolute path
      that resolves to the segments of `path` resolved as if rooted. */
  lemma {:induction false} ResolvedUnderEmptyBase(path: string)
    ensures var r := ResolvedPath("", path);
      && Paths.IsAbsolute(r)
      && Paths.NormalStack(r, false) == Paths.NormalStack(path, false)
  {
    var inner := Paths.JoinPathsSpec(["/", path]);
    RootedSegments(path, [], false);
    JoinTwo("", inner);
    NormalizeKeepsStack(inner);
  }

  /** A `..` in a path the mod resolves never climbs: none of the
      segments it contributes is `..`. */
  lemma {:induction false} ResolvedSegmentsNoClimb(path: string)
    ensures forall k :: 0 <= k < |Paths.NormalStack(path, false)| ==> Paths.NormalStack(path, false)[k] != ".."
  {
    Paths.NormalStackClean(path, false);
  }

  /** A path given with a trailing `/`, such as the assets directory,
      resolves to a path with a trailing `/`. */
  lemma {:induction false} ResolvedKeepsTrailingSlash(baseDirectory: string, path: string)
    ensures var r := ResolvedPath(baseDirectory, path + "/"); |r| > 0 && r[|r| - 1] == '/'
  {
    var p := path + "/";
    RootedJoin(p);
    var rooted := "//" + p;
    assert rooted[|rooted| - 1] == '/';
    Paths.NormalizeShape(rooted);
    var inner := Paths.JoinPathsSpec(["/", p]);
    assert |inner| > 0 && inner[|inner| - 1] == '/';
    JoinTwo(baseDirectory, inner);
    if baseDirectory == "" {
      Paths.NormalizeShape(inner);
    } else {
      var joined := baseDirectory + "/" + inner;
      assert joined[|joined| - 1] == '/';
      Paths.NormalizeShape(joined);
    }
  }

  /** The directory the mod's assets are under:
      `resolvePath(`${manifest.assetsDir ?? 'assets'}/`)`. */
  function AssetsDirName(manifest: Json): string {
    var assetsDir := Field(manifest, "assetsDir");
    (if UiUtils.Nullish(assetsDir) then "assets" else JsString(assetsDir)) + "/"
  }

  /** An asset named in the manifest, as the mod lists it:
      `stripRoot(join('/', path))`. */
  function AssetPath(path: string): string {
    Paths.StripRoot(Paths.JoinPathsSpec(["/", path]))
  }

  /** A listed asset is relative: `join('/', path)` starts with exactly
      one `/`, which `stripRoot` removes. */
  lemma {:induction false} AssetPathRelative(path: string)
    ensures !Paths.IsAbsolute(AssetPath(path))
  {
    RootedJoin(path);
    var rooted := if path == "" then "/" else "//" + path;
    var stack := Paths.NormalStack(rooted, false);
    Paths.NormalStackClean(rooted, false);
    Paths.JoinEmpty(stack);
    if stack != [] {
      Paths.JoinEnds(stack);
      var s := Strings.Join(stack, "/");
      assert Paths.NormalizeSpec(rooted) == "/" + Paths.Decorate(s, false, rooted[|rooted| - 1] == '/');
    }
  }

  /** None of the segments of a listed asset is `..`. */
  lemma {:induction false} AssetPathNoClimb(path: string)
    ensures forall k :: 0 <= k < |Paths.Segments(AssetPath(path))| ==> Paths.Segments(AssetPath(path))[k] != ".."
  {
    RootedJoin(path);
    var rooted := if path == "" then "/" else "//" + path;
    Paths.NormalizeShape(rooted);
    Paths.NormalizeNoClimb(rooted);
    var inner := Paths.NormalizeSpec(rooted);
    var a := Paths.StripRoot(inner);
    Paths.SegmentsRooted(a);
    assert forall k :: 0 <= k < |Paths.Segments(a)| ==> Paths.Segments(a)[k] == Paths.Segments(inner)[k + 1];
  }

  // ---------------------------------------------------------------------
  // Loading stages
  // ---------------------------------------------------------------------

  /** A loading stage, named as the manifest field of its script. */
  datatype Stage = Preload | Postload | Prestart | Poststart

  function StageName(stage: Stage): string {
    match stage
    case Preload => "preload"
    case Postload => "postload"
    case Prestart => "prestart"
    case Poststart => "poststart"
  }

  /** The method of the mod's class run at `stage`: `main` for the
      `poststart` stage of a legacy mod, the stage's own name otherwise. */
  function StageMethodName(legacyMode: bool, stage: Stage): (name: string)
    ensures name == "main" <==> legacyMode && stage == Poststart
    ensures name != "main" ==> name == StageName(stage)
  {
    if legacyMode && stage == Poststart then "main" else StageName(stage)
  }

  // ---------------------------------------------------------------------
  // The mod
  // ---------------------------------------------------------------------

  class Mod<V, R> {
    /** The id the loader knows the mod by, the manifest's `id`. */
    const id: string
    const baseDirectory: string
    const manifest: Json
    const legacyMode: bool
    const version: V
    /** The dependency map, and the order it iterates in. */
    const dependencies: map<string, ModDependency<R>>
    const dependencyIds: seq<string>
    const assetsDir: string
    var assets: set<string>
    var shouldBeLoaded: bool

    /** The dependency map holds exactly the ids its iteration order lists. */
    ghost predicate Valid() {
      forall depId :: depId in dependencies <==> depId in dependencyIds
    }

    /** The state of a mod whose version and dependencies were parsed. */
    constructor(baseDirectory: string, manifest: Json, legacyMode: bool, version: V,
                dependencies: map<string, ModDependency<R>>)
      requires forall depId :: depId in dependencies <==> depId in DependencyIds(manifest)
      ensures Valid()
      ensures id == JsString(Field(manifest, "id"))
      ensures this.baseDirectory == baseDirectory && this.manifest == manifest && this.legacyMode == legacyMode
      ensures this.version == version && this.dependencies == dependencies
      ensures dependencyIds == DependencyIds(manifest)
      ensures assetsDir == ResolvedPath(baseDirectory, AssetsDirName(manifest))
      ensures assets == {} && shouldBeLoaded
    {
      id := JsString(Field(manifest, "id"));
      this.baseDirectory := baseDirectory;
      this.manifest := manifest;
      this.legacyMode := legacyMode;
      this.version := version;
      this.dependencies := dependencies;
      dependencyIds := DependencyIds(manifest);
      var root := Paths.JoinPaths(["/", AssetsDirName(manifest)]);
      var dir := Paths.JoinPaths([baseDirectory, root]);
      assetsDir := dir;
      assets := {};
      shouldBeLoaded := true;
    }

    /** `new Mod(...)`: the version is parsed first, then each dependency's
        range; the first that does not parse is reported, with the
        library's message. */
    static method New(baseDirectory: string, manifest: Json, legacyMode: bool,
                      parseVersion: Json -> Result<V, string>, parseRange: Json -> Result<R, string>)
      returns (r: Result<Mod<V, R>, string>)
      ensures parseVersion(Field(manifest, "version")).Err? ==>
        r == Err(VersionError(manifest, parseVersion(Field(manifest, "version")).error))
      ensures var built := ManifestDependencies(manifest, parseRange);
        parseVersion(Field(manifest, "version")).Ok? ==>
          (built.Err? ==> r == Err(built.error)) &&
          (built.Ok? ==>
             && r.Ok? && fresh(r.value)
             && r.value.id == JsString(Field(manifest, "id"))
             && r.value.baseDirectory == baseDirectory && r.value.manifest == manifest
             && r.value.legacyMode == legacyMode
             && r.value.version == parseVersion(Field(manifest, "version")).value
             && r.value.dependencies == built.value
             && r.value.dependencyIds == DependencyIds(manifest)
             && r.value.assetsDir == ResolvedPath(baseDirectory, AssetsDirName(manifest))
             && r.value.assets == {} && r.value.shouldBeLoaded && r.value.Valid())
    {
      var version := parseVersion(Field(manifest, "version"));
      if version.Err? {
        return Err(VersionError(manifest, version.error));
      }
      var dependencies := BuildDependencies(manifest, parseRange);
      if dependencies.Err? {
        return Err(dependencies.error);
      }
      forall depId {
        ManifestDependenciesContents(manifest, parseRange, depId);
      }
      var mod := new Mod(baseDirectory, manifest, legacyMode, version.value, dependencies.value);
      r := Ok(mod);
    }

    /** `resolvePath`. */
    method ResolvePath(path: string) returns (r: string)
      ensures r == ResolvedPath(baseDirectory, path)
    {
      var root := Paths.JoinPaths(["/", path]);
      r := Paths.JoinPaths([baseDirectory, root]);
    }

    /** `findAllAssets`: with an `assets` list in the manifest, its entries
        made relative to the mod; otherwise, on the desktop, the files found
        under the assets directory (`listing`, the result of the search);
        elsewhere nothing changes. A list that is not an array, or an entry
        that is not a string, is a `TypeError`. */
    method FindAllAssets(desktop: bool, listing: set<string>) returns (r: Result<(), string>)
      modifies this
      ensures r.Ok? <==> ListedAssets(Field(manifest, "assets")).Ok?
      ensures r.Err? ==> r.error == TYPE_ERROR && assets == old(assets)
      ensures var listed := ListedAssets(Field(manifest, "assets"));
        listed.Ok? ==> assets == (if Truthy(Field(manifest, "assets")) then listed.value
                                  else if desktop then listing else old(assets))
    {
      var list := Field(manifest, "assets");
      if Truthy(list) {
        if !list.Array? {
          return Err(TYPE_ERROR);
        }
        var found := Collected(list.items, |list.items|, AssetPath);
        if found.None? {
          return Err(TYPE_ERROR);
        }
        assets := found.value;
      } else if desktop {
        assets := listing;
      }
      r := Ok(());
    }

    /** The script imported at `stage`, as a path from the root, when the
        manifest names one: `/` followed by the resolved path. */
    function StageScript(stage: Stage): (r: Result<Option<string>, string>)
      ensures UiUtils.Nullish(Field(manifest, StageName(stage))) <==> r == Ok(None)
      ensures Field(manifest, StageName(stage)).Str? ==>
        r == Ok(Some("/" + ResolvedPath(baseDirectory, Field(manifest, StageName(stage)).s)))
      ensures r.Err? <==> !UiUtils.Nullish(Field(manifest, StageName(stage))) && !Field(manifest, StageName(stage)).Str?
    {
      var script := Field(manifest, StageName(stage));
      if UiUtils.Nullish(script) then Ok(None)
      else if !script.Str? then Err(TYPE_ERROR)
      else Ok(Some("/" + ResolvedPath(baseDirectory, script.s)))
    }
  }

  /** The asset set an `assets` list makes, or the `TypeError` of an entry
      that is not a string; falsy lists make none. */
  function ListedAssets(list: Json): Result<set<string>, string> {
    if !Truthy(list) then Ok({})
    else if !list.Array? then Err(TYPE_ERROR)
    else
      match Collected(list.items, |list.items|, AssetPath)
      case None => Err(TYPE_ERROR)
      case Some(found) => Ok(found)
  }

  /** The first `n` entries, each a string put through `f`, collected into
      a set; nothing when one of them is not a string. */
  function Collected(items: seq<Json>, n: nat, f: string -> string): Option<set<string>>
    requires n <= |items|
  {
    if n == 0 then Some({})
    else
      match Collected(items, n - 1, f)
      case None => None
      case Some(found) =>
        if items[n - 1].Str? then Some(found + {f(items[n - 1].s)}) else None
  }

  /** Once an entry fails, the collection stays failed. */
  lemma {:induction false} CollectedStopsAt(items: seq<Json>, n: nat, m: nat, f: string -> string)
    requires n <= m <= |items|
    requires Collected(items, n, f).None?
    ensures Collected(items, m, f).None?
    decreases m
  {
    if m > n {
      CollectedStopsAt(items, n, m - 1, f);
    }
  }

  /** The collection is built exactly when every entry is a string. */
  lemma {:induction false} CollectedBuilt(items: seq<Json>, n: nat, f: string -> string)
    requires n <= |items|
    ensures Collected(items, n, f).Some? <==> forall j :: 0 <= j < n ==> items[j].Str?
  {
    if n > 0 {
      CollectedBuilt(items, n - 1, f);
    }
  }

  /** A built collection holds exactly the images of the entries. */
  lemma {:induction false} CollectedContents(items: seq<Json>, n: nat, f: string -> string, x: string)
    requires n <= |items|
    requires Collected(items, n, f).Some?
    ensures x in Collected(items, n, f).value <==>
      exists j :: 0 <= j < n && items[j].Str? && x == f(items[j].s)
  {
    if n > 0 {
      CollectedContents(items, n - 1, f, x);
    }
  }

  /** Every asset the manifest lists is kept relative to the mod's
      directory, and none of its segments climbs with `..`. */
  lemma {:induction false} ListedAssetsRelative(list: Json, asset: string)
    requires ListedAssets(list).Ok? && asset in ListedAssets(list).value
    ensures !Paths.IsAbsolute(asset)
    ensures forall k :: 0 <= k < |Paths.Segments(asset)| ==> Paths.Segments(asset)[k] != ".."
  {
    CollectedContents(list.items, |list.items|, AssetPath, asset);
    var j :| 0 <= j < |list.items| && list.items[j].Str? && asset == AssetPath(list.items[j].s);
    AssetPathRelative(list.items[j].s);
    AssetPathNoClimb(list.items[j].s);
  }
}
