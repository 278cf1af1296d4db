/**
 * The `ManifestUtil` class of `manifest.ts`: the validators that walk a
 * parsed manifest and collect the messages of what they find wrong in
 * `_problems`. Every method is proved to record exactly the problems the
 * matching function of `Manifest` lists, so the properties proved there
 * (accepts exactly the well-formed manifests, reports every bad entry) hold
 * of the class.
 */
module ManifestValidator {
  import opened Manifest
  import Strings

  /** The outcome of `validate`: it returns, throws a
      `ManifestValidationError` with the problems, or throws the `TypeError`
      of reading a property of `null` or `undefined`. */
  datatype Validation = Passed | ValidationError(problems: seq<string>) | TypeError

  /** The message of a `ManifestValidationError`: a line break, then one
      `- problem` line each; problems without line breaks of their own can
      be read back line by line. */
  function ErrorMessage(problems: seq<string>): (m: string)
    ensures |m| >= 1 && m[0] == '\n'
    ensures |problems| == 0 ==> m == "\n"
    ensures |problems| == 1 ==> m == "\n- " + problems[0]
    ensures |problems| >= 1 && (forall k :: 0 <= k < |problems| ==> '\n' !in problems[k]) ==>
      Strings.Split(m[1..], '\n') == seq(|problems|, i requires 0 <= i < |problems| => "- " + problems[i])
  {
    var lines := seq(|problems|, i requires 0 <= i < |problems| => "- " + problems[i]);
    var m := "\n" + Strings.Join(lines, "\n");
    assert m[1..] == Strings.Join(lines, "\n");
    if |problems| >= 1 && (forall k :: 0 <= k < |problems| ==> '\n' !in problems[k]) then
      assert forall k :: 0 <= k < |lines| ==> '\n' !in lines[k] by {
        forall k | 0 <= k < |lines|
          ensures '\n' !in lines[k]
        {
          assert lines[k] == "- " + problems[k];
        }
      }
      Strings.SplitJoin(lines, '\n');
      m
    else m
  }

  lemma {:induction false} AppendAssoc(a: seq<Problem>, b: seq<Problem>, c: seq<Problem>)
    ensures a + b + c == a + (b + c)
  {
  }

  class ManifestUtil {
    /** `_problems`: the messages recorded since the last reset. */
    var problems: seq<string>
    /** The problems behind those messages. */
    ghost var recorded: seq<Problem>

    ghost predicate Valid()
      reads this
    {
      |problems| == |recorded| &&
      forall i :: 0 <= i < |problems| ==> problems[i] == Message(recorded[i])
    }

    constructor()
      ensures Valid() && recorded == []
    {
      problems := [];
      recorded := [];
    }

    /** `_assertType`: records a problem unless `value` has one of `types`
        (or is missing and `optional`), and says whether it had. */
    method AssertType(path: seq<PathKey>, value: Json, types: seq<Type>, optional: bool) returns (ok: bool)
      requires Valid()
      modifies this
      ensures Valid()
      ensures ok == TypeOk(value, types, optional)
      ensures recorded == old(recorded) + TypeProblems(path, value, types, optional)
    {
      if optional && value == Undefined {
        return true;
      }
      if GetType(value) !in types {
        var pathStr := JsonPathToString(path);
        var typesStr := TypesString(types);
        problems := problems + ["expected type of '" + pathStr + "' to be '" + typesStr + "'"];
        recorded := recorded + [WrongType(path, types)];
        return false;
      }
      return true;
    }

    /** The `Object.entries(value).reduce` of `_assertLocalizedString` and
        `_assertDependencies`: every property must be a string, and every
        one that is not is recorded. */
    method AssertEntryStrings(path: seq<PathKey>, value: Json) returns (valid: bool)
      requires Valid() && value.Object?
      modifies this
      ensures Valid()
      ensures valid == AllStrings(value)
      ensures recorded == old(recorded) + EntryProblems(path, value, |value.keys|)
    {
      valid := true;
      for i := 0 to |value.keys|
        invariant Valid()
        invariant recorded == old(recorded) + EntryProblems(path, value, i)
        invariant valid == (|recorded| == |old(recorded)|)
      {
        var key := value.keys[i];
        var ok := AssertType(path + [Key(key)], Field(value, key), [TString], false);
        AppendAssoc(old(recorded), EntryProblems(path, value, i), TypeProblems(path + [Key(key)], Field(value, key), [TString], false));
        valid := ok && valid;
      }
    }

    /** The `reduce` of `_assertAssets`: every item must be a string. */
    method AssertItemStrings(path: seq<PathKey>, items: seq<Json>) returns (valid: bool)
      requires Valid()
      modifies this
      ensures Valid()
      ensures valid <==> forall k :: 0 <= k < |items| ==> items[k].Str?
      ensures recorded == old(recorded) + ItemProblems(path, items, |items|)
    {
      valid := true;
      for i := 0 to |items|
        invariant Valid()
        invariant recorded == old(recorded) + ItemProblems(path, items, i)
        invariant valid == (|recorded| == |old(recorded)|)
      {
        var ok := AssertType(path + [Index(i)], items[i], [TString], false);
        AppendAssoc(old(recorded), ItemProblems(path, items, i), TypeProblems(path + [Index(i)], items[i], [TString], false));
        valid := ok && valid;
      }
    }

    /** `_assertLocalizedString` */
    method AssertLocalizedString(path: seq<PathKey>, value: Json, optional: bool) returns (ok: bool)
      requires Valid()
      modifies this
      ensures Valid()
      ensures ok == LocalizedOk(value, optional)
      ensures recorded == old(recorded) + LocalizedProblems(path, value, optional)
    {
      if optional && value == Undefined {
        return true;
      }
      ok := AssertType(path, value, [TObject, TString], false);
      if !ok {
        return false;
      }
      assert recorded == old(recorded);
      if GetType(value) == TString {
        return true;
      }
      ok := AssertEntryStrings(path, value);
    }

    /** The `reduce` over the keywords in `validate`. */
    method AssertKeywordItems(path: seq<PathKey>, items: seq<Json>) returns (valid: bool)
      requires Valid()
      modifies this
      ensures Valid()
      ensures valid <==> forall k :: 0 <= k < |items| ==> IsLocalized(items[k])
      ensures recorded == old(recorded) + EachItemProblems(path, items, |items|, KeywordProblems)
    {
      valid := true;
      for i := 0 to |items|
        invariant Valid()
        invariant recorded == old(recorded) + EachItemProblems(path, items, i, KeywordProblems)
        invariant valid == (|recorded| == |old(recorded)|)
      {
        var ok := AssertLocalizedString(path + [Index(i)], items[i], false);
        AppendAssoc(old(recorded), EachItemProblems(path, items, i, KeywordProblems), KeywordProblems(path + [Index(i)], items[i]));
        valid := ok && valid;
      }
      EachItemClean(path, items, |items|, KeywordProblems, IsLocalized);
    }

    /** `_assertPerson` */
    method AssertPerson(path: seq<PathKey>, value: Json) returns (valid: bool)
      requires Valid()
      modifies this
      ensures Valid()
      ensures valid == IsPerson(value)
      ensures recorded == old(recorded) + PersonProblems(path, value)
    {
      var ok := AssertType(path, value, [TObject, TString], false);
      if !ok {
        return false;
      }
      if GetType(value) == TString {
        return true;
      }
      valid := true;
      for i := 0 to |PERSON_KEYS|
        invariant Valid()
        invariant recorded == old(recorded) + PersonFieldProblems(path, value, i)
        invariant valid == (|recorded| == |old(recorded)|)
      {
        var key := PERSON_KEYS[i];
        ok := AssertLocalizedString(path + [Key(key)], Field(value, key), key != "name");
        AppendAssoc(old(recorded), PersonFieldProblems(path, value, i), LocalizedProblems(path + [Key(key)], Field(value, key), key != "name"));
        valid := ok && valid;
      }
    }

    /** `_assertPeople` */
    method AssertPeople(path: seq<PathKey>, value: Json) returns (valid: bool)
      requires Valid()
      modifies this
      ensures Valid()
      ensures valid == IsPeople(value)
      ensures recorded == old(recorded) + PeopleProblems(path, value)
    {
      if value == Undefined {
        return true;
      }
      var ok := AssertType(path, value, [TArray], false);
      if !ok {
        return false;
      }
      valid := AssertPeopleItems(path, value.items);
    }

    /** The loop over the people in `_assertPeople`. */
    method AssertPeopleItems(path: seq<PathKey>, items: seq<Json>) returns (valid: bool)
      requires Valid()
      modifies this
      ensures Valid()
      ensures valid <==> forall k :: 0 <= k < |items| ==> IsPerson(items[k])
      ensures recorded == old(recorded) + EachItemProblems(path, items, |items|, PersonProblems)
    {
      valid := true;
      for i := 0 to |items|
        invariant Valid()
        invariant recorded == old(recorded) + EachItemProblems(path, items, i, PersonProblems)
        invariant valid == (|recorded| == |old(recorded)|)
      {
        var ok := AssertPerson(path + [Index(i)], items[i]);
        AppendAssoc(old(recorded), EachItemProblems(path, items, i, PersonProblems), PersonProblems(path + [Index(i)], items[i]));
        valid := ok && valid;
      }
      EachItemClean(path, items, |items|, PersonProblems, IsPerson);
    }

    /** The check of `keywords` in `validate`. */
    method AssertKeywords(path: seq<PathKey>, value: Json) returns (valid: bool)
      requires Valid()
      modifies this
      ensures Valid()
      ensures valid == IsKeywords(value)
      ensures recorded == old(recorded) + KeywordsProblems(path, value)
    {
      if value == Undefined {
        return true;
      }
      var ok := AssertType(path, value, [TArray], false);
      if !ok {
        return false;
      }
      valid := AssertKeywordItems(path, value.items);
    }

    /** `_assertDependencies` */
    method AssertDependencies(path: seq<PathKey>, value: Json) returns (valid: bool)
      requires Valid()
      modifies this
      ensures Valid()
      ensures valid == IsDependencies(value)
      ensures recorded == old(recorded) + DependenciesProblems(path, value)
    {
      if value == Undefined {
        return true;
      }
      var ok := AssertType(path, value, [TObject], false);
      if !ok {
        return false;
      }
      assert recorded == old(recorded);
      valid := AssertEntryStrings(path, value);
    }

    /** `_assertAssets` */
    method AssertAssets(path: seq<PathKey>, value: Json) returns (valid: bool)
      requires Valid()
      modifies this
      ensures Valid()
      ensures valid == IsAssets(value)
      ensures recorded == old(recorded) + AssetsProblems(path, value)
    {
      if value == Undefined {
        return true;
      }
      var ok := AssertType(path, value, [TArray], false);
      if !ok {
        return false;
      }
      valid := AssertItemStrings(path, value.items);
    }

    /** The `id` pattern check of `validate`. */
    method AssertId(id: Json, legacyRelaxedChecks: bool)
      requires Valid()
      modifies this
      ensures Valid()
      ensures recorded == old(recorded) + IdProblems(id, legacyRelaxedChecks)
    {
      if !legacyRelaxedChecks && id != Undefined && !IsModId(JsString(id)) {
        problems := problems + [ID_PROBLEM];
        recorded := recorded + [InvalidId];
      }
    }

    /** `validate`: resets the problems, checks every field, and throws when
        it found any. The problems found are those `ValidateProblems` lists,
        so it passes exactly the well-formed manifests. */
    method Validate(data: Json, legacyRelaxedChecks: bool) returns (outcome: Validation)
      requires Valid()
      modifies this
      ensures Valid()
      ensures data.Null? || data.Undefined? ==>
        outcome == TypeError && recorded == [WrongType([], [TObject])]
      ensures !data.Null? && !data.Undefined? ==>
        recorded == ValidateProblems(data, legacyRelaxedChecks) &&
        (outcome == Passed <==> WellFormedManifest(data, legacyRelaxedChecks)) &&
        (outcome != Passed ==> outcome == ValidationError(problems))
    {
      problems := [];
      recorded := [];
      var ok := AssertType([], data, [TObject], false);
      assert recorded == TypeProblems([], data, [TObject], false);
      if data == Null || data == Undefined {
        return TypeError;
      }
      ValidateIdentity(data, legacyRelaxedChecks);
      ValidateContent(data, legacyRelaxedChecks);
      ValidateAcceptsExactly(data, legacyRelaxedChecks);
      if |problems| > 0 {
        return ValidationError(problems);
      }
      return Passed;
    }

    /** The checks of `id`, `version`, `license` and the localized texts. */
    method ValidateIdentity(data: Json, legacyRelaxedChecks: bool)
      requires Valid() && recorded == TypeProblems([], data, [TObject], false)
      modifies this
      ensures Valid()
      ensures recorded == IdentityProblems(data, legacyRelaxedChecks)
    {
      var ok := AssertType([Key("id")], Field(data, "id"), [TString], false);
      AssertId(Field(data, "id"), legacyRelaxedChecks);
      ok := AssertType([Key("version")], Field(data, "version"), [TString], false);
      ok := AssertType([Key("license")], Field(data, "license"), [TString], true);
      ok := AssertLocalizedString([Key("title")], Field(data, "title"), true);
      ok := AssertLocalizedString([Key("description")], Field(data, "description"), true);
      ok := AssertLocalizedString([Key("homepage")], Field(data, "homepage"), true);
    }

    /** The checks of the keywords, people, dependencies, assets and entry
        points. */
    method ValidateContent(data: Json, legacyRelaxedChecks: bool)
      requires Valid() && recorded == IdentityProblems(data, legacyRelaxedChecks)
      modifies this
      ensures Valid()
      ensures recorded == ValidateProblems(data, legacyRelaxedChecks)
    {
      var ok := AssertKeywords([Key("keywords")], Field(data, "keywords"));
      ok := AssertPeople([Key("authors")], Field(data, "authors"));
      ok := AssertDependencies([Key("dependencies")], Field(data, "dependencies"));
      ok := AssertAssets([Key("assets")], Field(data, "assets"));
      ok := AssertType([Key("assetsDir")], Field(data, "assetsDir"), [TString], true);
      ok := AssertType([Key("main")], Field(data, "main"), [TString], true);
      ok := AssertType([Key("preload")], Field(data, "preload"), [TString], true);
      ok := AssertType([Key("postload")], Field(data, "postload"), [TString], true);
      ok := AssertType([Key("prestart")], Field(data, "prestart"), [TString], true);
      ok := AssertType([Key("poststart")], Field(data, "poststart"), [TString], true);
    }

    /** `validateLegacy`, with the same outcomes as `validate`. */
    method ValidateLegacy(data: Json) returns (outcome: Validation)
      requires Valid()
      modifies this
      ensures Valid()
      ensures data.Null? || data.Undefined? ==>
        outcome == TypeError && recorded == [WrongType([], [TObject])]
      ensures !data.Null? && !data.Undefined? ==>
        recorded == LegacyProblems(data) &&
        (outcome == Passed <==> WellFormedLegacy(data)) &&
        (outcome != Passed ==> outcome == ValidationError(problems))
    {
      problems := [];
      recorded := [];
      var ok := AssertType([], data, [TObject], false);
      assert recorded == TypeProblems([], data, [TObject], false);
      if data == Null || data == Undefined {
        return TypeError;
      }
      ValidateLegacyHead(data);
      ValidateLegacyRest(data);
      LegacyAcceptsExactly(data);
      if |problems| > 0 {
        return ValidationError(problems);
      }
      return Passed;
    }

    /** The checks of the root and the plain string fields of a legacy
        manifest. */
    method ValidateLegacyHead(data: Json)
      requires Valid() && recorded == TypeProblems([], data, [TObject], false)
      modifies this
      ensures Valid()
      ensures recorded == LegacyHeadProblems(data)
    {
      var ok := AssertType([Key("name")], Field(data, "name"), [TString], false);
      ok := AssertType([Key("version")], Field(data, "version"), [TString], false);
      ok := AssertType([Key("license")], Field(data, "license"), [TString], true);
      ok := AssertType([Key("ccmodHumanName")], Field(data, "ccmodHumanName"), [TString], true);
      ok := AssertType([Key("description")], Field(data, "description"), [TString], true);
      ok := AssertType([Key("homepage")], Field(data, "homepage"), [TString], true);
    }

    /** The checks of the dependencies, assets and entry points of a legacy
        manifest. */
    method ValidateLegacyRest(data: Json)
      requires Valid() && recorded == LegacyHeadProblems(data)
      modifies this
      ensures Valid()
      ensures recorded == LegacyProblems(data)
    {
      var ok := AssertDependencies([Key("ccmodDependencies")], Field(data, "ccmodDependencies"));
      ok := AssertDependencies([Key("dependencies")], Field(data, "dependencies"));
      ok := AssertAssets([Key("assets")], Field(data, "assets"));
      ok := AssertType([Key("module")], Field(data, "module"), [TBoolean], true);
      ok := AssertType([Key("main")], Field(data, "main"), [TString], true);
      ok := AssertType([Key("plugin")], Field(data, "plugin"), [TString], true);
      ok := AssertType([Key("preload")], Field(data, "preload"), [TString], true);
      ok := AssertType([Key("postload")], Field(data, "postload"), [TString], true);
      ok := AssertType([Key("prestart")], Field(data, "prestart"), [TString], true);
    }
  }
}
