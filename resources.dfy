/** How the loader rewrites the URLs the game requests: `mod://` URLs name
    a file of a loaded mod, and an asset a loaded mod ships replaces the
    game's own file of the same path. */
module Resources {
  import opened Wrappers
  import opened Strings
  import opened Mods
  import opened ModOrder
  import opened DependencyResolver
  import Paths

  const MOD_PROTOCOL_PREFIX := "mod://"

  // ---------------------------------------------------------------------
  // `mod://` URLs
  // ---------------------------------------------------------------------

  /** Why a `mod://` URL is rejected. */
  datatype UrlProblem = EmptyUri | MissingSeparator | EmptyModId | EmptyFilePath | ModNotFound(modId: string)

  function ProblemText(p: UrlProblem): string {
    match p
    case EmptyUri => "the URI is empty"
    case MissingSeparator => "'/' after the mod ID is missing"
    case EmptyModId => "the mod ID is empty"
    case EmptyFilePath => "the file path is empty"
    case ModNotFound(modId) => "mod '" + modId + "' not found"
  }

  /** The message of the error `applyModUrlProtocol` throws. */
  function InvalidUrlMessage(fullUrl: string, p: UrlProblem): string {
    "Invalid 'mod://' URL '" + fullUrl + "': " + ProblemText(p)
  }

  /** Splits the text after `mod://` at its first `/` into the mod id and
      the file path, both of which must be non-empty. */
  function ParseModUri(uri: string): (r: Result<(string, string), UrlProblem>)
    ensures r.Ok? ==> && uri == r.value.0 + "/" + r.value.1
                      && r.value.0 != "" && '/' !in r.value.0 && r.value.1 != ""
    ensures r.Err? ==> !r.error.ModNotFound?
  {
    if |uri| == 0 then Err(EmptyUri)
    else
      var sep := IndexOf(uri, '/');
      IndexOfFirst(uri, '/');
      if sep < 0 then Err(MissingSeparator)
      else if sep == 0 then Err(EmptyModId)
      else if sep + 1 == |uri| then Err(EmptyFilePath)
      else
        assert uri == uri[..sep] + "/" + uri[sep + 1..];
        Ok((uri[..sep], uri[sep + 1..]))
  }

  /** Parsing undoes `modId + "/" + filePath` for every mod id without a
      slash and every non-empty file path. */
  lemma {:induction false} ParseModUriOfParts(modId: string, filePath: string)
    requires modId != "" && '/' !in modId && filePath != ""
    ensures ParseModUri(modId + "/" + filePath) == Ok((modId, filePath))
  {
    var uri := modId + "/" + filePath;
    IndexOfFirst(uri, '/');
    assert uri[|modId|] == '/';
    assert uri[..|modId|] == modId;
    assert uri[|modId| + 1..] == filePath;
  }

  /** Which malformed text is rejected with which problem. */
  lemma {:induction false} ParseModUriProblems(uri: string)
    ensures ParseModUri(uri) == Err(EmptyUri) <==> uri == ""
    ensures ParseModUri(uri) == Err(MissingSeparator) <==> uri != "" && '/' !in uri
    ensures ParseModUri(uri) == Err(EmptyModId) <==> uri != "" && uri[0] == '/'
    ensures ParseModUri(uri) == Err(EmptyFilePath) <==> uri != "" && uri[0] != '/' && IndexOf(uri, '/') == |uri| - 1
  {
    NotFound(uri, '/');
    IndexOfFirst(uri, '/');
  }

  /** `applyModUrlProtocol`: nothing for a URL without the `mod://`
      prefix; otherwise the file under the named loaded mod's directory,
      or the error thrown for a malformed URL or a mod that is not loaded. */
  function ApplyModUrlProtocol<V, R>(fullUrl: string, loaded: OrderedMap<Mod<V, R>>): (r: Option<Result<string, string>>)
    ensures r.None? <==> !StartsWith(fullUrl, MOD_PROTOCOL_PREFIX)
    ensures r.Some? && r.value.Err? ==>
      exists p :: r.value.error == InvalidUrlMessage(fullUrl, p)
    ensures r.Some? && r.value.Ok? ==> |r.value.value| > 0 && r.value.value[0] == '/'
  {
    if !StartsWith(fullUrl, MOD_PROTOCOL_PREFIX) then None
    else
      match ParseModUri(fullUrl[|MOD_PROTOCOL_PREFIX|..])
      case Err(p) => Some(Err(InvalidUrlMessage(fullUrl, p)))
      case Ok((modId, filePath)) =>
        if modId !in loaded.entries then Some(Err(InvalidUrlMessage(fullUrl, ModNotFound(modId))))
        else Some(Ok("/" + ResolvedPath(loaded.entries[modId].baseDirectory, filePath)))
  }

  /** A well-formed `mod://` URL of a loaded mod names that mod's file, and
      the file stays inside the mod's directory whatever `..` the path holds. */
  lemma {:induction false} ModUrlOfLoadedMod<V, R>(modId: string, filePath: string, loaded: OrderedMap<Mod<V, R>>)
    requires modId != "" && '/' !in modId && filePath != ""
    requires modId in loaded.entries && loaded.entries[modId].baseDirectory != ""
    ensures var base := loaded.entries[modId].baseDirectory;
      && ApplyModUrlProtocol(MOD_PROTOCOL_PREFIX + modId + "/" + filePath, loaded)
           == Some(Ok("/" + ResolvedPath(base, filePath)))
      && Paths.NormalStack(ResolvedPath(base, filePath), !Paths.IsAbsolute(base))
           == Paths.NormalStack(base, !Paths.IsAbsolute(base)) + Paths.NormalStack(filePath, false)
  {
    var url := MOD_PROTOCOL_PREFIX + modId + "/" + filePath;
    assert url[|MOD_PROTOCOL_PREFIX|..] == modId + "/" + filePath;
    ParseModUriOfParts(modId, filePath);
    ResolvedUnderBase(loaded.entries[modId].baseDirectory, filePath);
  }

  /** A well-formed `mod://` URL of a mod that is not loaded is rejected. */
  lemma {:induction false} ModUrlOfMissingMod<V, R>(modId: string, filePath: string, loaded: OrderedMap<Mod<V, R>>)
    requires modId != "" && '/' !in modId && filePath != "" && modId !in loaded.entries
    ensures ApplyModUrlProtocol(MOD_PROTOCOL_PREFIX + modId + "/" + filePath, loaded)
      == Some(Err(InvalidUrlMessage(MOD_PROTOCOL_PREFIX + modId + "/" + filePath, ModNotFound(modId))))
  {
    var url := MOD_PROTOCOL_PREFIX + modId + "/" + filePath;
    assert url[|MOD_PROTOCOL_PREFIX|..] == modId + "/" + filePath;
    ParseModUriOfParts(modId, filePath);
  }

  // ---------------------------------------------------------------------
  // Asset overrides
  // ---------------------------------------------------------------------

  /** The loaded mods, in the map's iteration order. */
  function Values<V, R>(loaded: OrderedMap<Mod<V, R>>): (mods: seq<Mod<V, R>>)
    requires WellFormed(loaded)
    ensures |mods| == |loaded.keys|
    ensures forall i :: 0 <= i < |mods| ==> mods[i] == loaded.entries[loaded.keys[i]]
  {
    seq(|loaded.keys|, i requires 0 <= i < |loaded.keys| && loaded.keys[i] in loaded.entries => loaded.entries[loaded.keys[i]])
  }

  /** The override of each mod that ships the asset, in order. */
  function Overrides<V, R>(asset: string, mods: seq<Mod<V, R>>): seq<string>
    reads mods
  {
    if |mods| == 0 then []
    else
      var last := mods[|mods| - 1];
      Overrides(asset, mods[..|mods| - 1]) + (if asset in last.assets then [last.assetsDir + asset] else [])
  }

  /** What `applyAssetOverrides` answers for a URL. */
  function AssetOverride<V, R>(igRoot: string, url: string, mods: seq<Mod<V, R>>): Option<string>
    reads mods
  {
    if !StartsWith(url, igRoot) then None
    else
      var overrides := Overrides(url[|igRoot|..], mods);
      if |overrides| == 0 then None else Some("/" + overrides[0])
  }

  /** The overrides come from exactly the mods that ship the asset, the
      first of them first. */
  lemma {:induction false} OverridesFirst<V, R>(asset: string, mods: seq<Mod<V, R>>, j: int)
    requires 0 <= j < |mods| && asset in mods[j].assets
    requires forall h :: 0 <= h < j ==> asset !in mods[h].assets
    ensures |Overrides(asset, mods)| > 0 && Overrides(asset, mods)[0] == mods[j].assetsDir + asset
  {
    var n := |mods| - 1;
    if j < n {
      OverridesFirst(asset, mods[..n], j);
    } else {
      OverridesNone(asset, mods[..n]);
    }
  }

  /** No mod ships the asset exactly when there is no override. */
  lemma {:induction false} OverridesNone<V, R>(asset: string, mods: seq<Mod<V, R>>)
    ensures |Overrides(asset, mods)| == 0 <==> forall h :: 0 <= h < |mods| ==> asset !in mods[h].assets
  {
    if |mods| > 0 {
      var n := |mods| - 1;
      OverridesNone(asset, mods[..n]);
      if forall h :: 0 <= h < n ==> asset !in mods[..n][h].assets {
        assert forall h :: 0 <= h < n ==> asset !in mods[h].assets;
      } else {
        var h :| 0 <= h < n && asset in mods[..n][h].assets;
        assert asset in mods[h].assets;
      }
    }
  }

  /** The URL is taken over by the first loaded mod that ships the path
      below the game's root, and by no mod if none ships it. */
  lemma {:induction false} AssetOverrideChoice<V, R>(igRoot: string, url: string, mods: seq<Mod<V, R>>)
    ensures !StartsWith(url, igRoot) ==> AssetOverride(igRoot, url, mods).None?
    ensures StartsWith(url, igRoot) ==>
      (AssetOverride(igRoot, url, mods).None? <==>
         forall h :: 0 <= h < |mods| ==> url[|igRoot|..] !in mods[h].assets)
    ensures StartsWith(url, igRoot) ==>
      forall j :: 0 <= j < |mods| && url[|igRoot|..] in mods[j].assets &&
                  (forall h :: 0 <= h < j ==> url[|igRoot|..] !in mods[h].assets) ==>
        AssetOverride(igRoot, url, mods) == Some("/" + mods[j].assetsDir + url[|igRoot|..])
  {
    if StartsWith(url, igRoot) {
      var asset := url[|igRoot|..];
      OverridesNone(asset, mods);
      forall j | 0 <= j < |mods| && asset in mods[j].assets && (forall h :: 0 <= h < j ==> asset !in mods[h].assets)
        ensures AssetOverride(igRoot, url, mods) == Some("/" + mods[j].assetsDir + asset)
      {
        OverridesFirst(asset, mods, j);
        assert "/" + (mods[j].assetsDir + asset) == "/" + mods[j].assetsDir + asset;
      }
    }
  }

  /** `applyAssetOverrides`: the loop over the loaded mods collecting the
      overrides of the requested path. */
  method ApplyAssetOverrides<V, R>(igRoot: string, url: string, loaded: OrderedMap<Mod<V, R>>) returns (r: Option<string>)
    requires WellFormed(loaded)
    ensures r == AssetOverride(igRoot, url, Values(loaded))
  {
    if !StartsWith(url, igRoot) {
      return None;
    }
    var asset := url[|igRoot|..];
    ghost var mods := Values(loaded);
    var overrides: seq<string> := [];
    for i := 0 to |loaded.keys|
      invariant overrides == Overrides(asset, mods[..i])
    {
      var mod := loaded.entries[loaded.keys[i]];
      assert mods[..i + 1][..i] == mods[..i];
      if asset in mod.assets {
        overrides := overrides + [mod.assetsDir + asset];
      }
    }
    assert mods[..|loaded.keys|] == mods;
    if |overrides| == 0 {
      return None;
    }
    return Some("/" + overrides[0]);
  }

  /** `transformUrl`: a `mod://` URL is resolved (or its error thrown),
      any other URL is replaced by its asset override, or kept. */
  method TransformUrl<V, R>(igRoot: string, url: string, loaded: OrderedMap<Mod<V, R>>) returns (r: Result<string, string>)
    requires WellFormed(loaded)
    ensures StartsWith(url, MOD_PROTOCOL_PREFIX) ==> Some(r) == ApplyModUrlProtocol(url, loaded)
    ensures !StartsWith(url, MOD_PROTOCOL_PREFIX) ==>
      r == Ok(match AssetOverride(igRoot, url, Values(loaded)) case Some(o) => o case None => url)
  {
    var modUrl := ApplyModUrlProtocol(url, loaded);
    if modUrl.Some? {
      return modUrl.value;
    }
    var overridden := ApplyAssetOverrides(igRoot, url, loaded);
    if overridden.Some? {
      return Ok(overridden.value);
    }
    return Ok(url);
  }
}
