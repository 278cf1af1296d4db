/**
 * The localized-string helpers of the options menu: picking the text for
 * the game's current language out of a manifest's localized string, and a
 * mod's display title. The current language (`ig.currentLang`) is a
 * parameter.
 */
module UiUtils {
  import opened Manifest

  /** JavaScript's `x == null`: `null` or `undefined`. */
  predicate Nullish(v: Json) {
    v.Null? || v.Undefined?
  }

  /** Every property an object holds is among the names it lists. */
  predicate KeysListed(v: Json)
    requires v.Object?
  {
    forall k :: k in v.props ==> k in v.keys
  }

  /** `getLocalizedString`: `null`, `undefined` and plain strings come back
      as they are; a map of locales gives its entry for the current language
      unless that is `null` or `undefined`, and then its `en_US` entry. */
  function GetLocalizedString(str: Json, currentLang: string): (r: Json)
    ensures Nullish(str) || str.Str? ==> r == str
    ensures str.Object? && !Nullish(Field(str, currentLang)) ==> r == Field(str, currentLang)
    ensures str.Object? && Nullish(Field(str, currentLang)) ==> r == Field(str, "en_US")
  {
    if Nullish(str) || TypeOf(str) == "string" then str
    else
      var inLang := Field(str, currentLang);
      if !Nullish(inLang) then inLang else Field(str, "en_US")
  }

  /** `getModTitle`: the localized title when the manifest has one and it
      resolves to something other than `null` or `undefined`; the id
      otherwise. */
  function GetModTitle(manifest: Json, currentLang: string): (r: Json)
    ensures Nullish(Field(manifest, "title")) ==> r == Field(manifest, "id")
    ensures (!Nullish(Field(manifest, "title")) &&
             !Nullish(GetLocalizedString(Field(manifest, "title"), currentLang))) ==>
      r == GetLocalizedString(Field(manifest, "title"), currentLang)
    ensures (!Nullish(Field(manifest, "title")) &&
             Nullish(GetLocalizedString(Field(manifest, "title"), currentLang))) ==>
      r == Field(manifest, "id")
  {
    var title := Field(manifest, "title");
    var localized := if !Nullish(title) then GetLocalizedString(title, currentLang) else Null;
    if !Nullish(localized) then localized else Field(manifest, "id")
  }

  /** A localized string the manifest validator accepts, whose listed
      locales are all it holds, gives a string or nothing, in any language. */
  lemma {:induction false} LocalizedOfValid(str: Json, currentLang: string)
    requires IsLocalized(str)
    requires str.Object? ==> KeysListed(str)
    ensures GetLocalizedString(str, currentLang).Str? || GetLocalizedString(str, currentLang).Undefined?
  {
    if str.Object? {
      LocalizedField(str, currentLang);
      LocalizedField(str, "en_US");
    }
  }

  /** A property of a listed-keys object of strings is a string or absent. */
  lemma {:induction false} LocalizedField(str: Json, key: string)
    requires str.Object? && AllStrings(str) && KeysListed(str)
    ensures Field(str, key).Str? || Field(str, key).Undefined?
  {
    if key in str.props {
      var k :| 0 <= k < |str.keys| && str.keys[k] == key;
    }
  }

  /** For a manifest `validate` accepts (whose title, if it is a map of
      locales, lists all it holds), the title shown is always a string:
      the localized title, or else the id. */
  lemma {:induction false} TitleOfValidManifest(manifest: Json, legacyRelaxedChecks: bool, currentLang: string)
    requires WellFormedManifest(manifest, legacyRelaxedChecks)
    requires Field(manifest, "title").Object? ==> KeysListed(Field(manifest, "title"))
    ensures GetModTitle(manifest, currentLang).Str?
  {
    var title := Field(manifest, "title");
    if !title.Undefined? {
      LocalizedOfValid(title, currentLang);
    }
  }

  /** The title of a converted legacy manifest, in any language, is its
      human-readable name, or its package name when it has none; when that
      is `null` the package name is shown as the id. */
  lemma {:induction false} TitleOfConvertedLegacy(data: Json, currentLang: string)
    ensures var humanName := Field(data, "ccmodHumanName");
      var name := if humanName != Undefined then humanName else Field(data, "name");
      GetModTitle(ConvertFromLegacy(data), currentLang) == if !Nullish(name) then name else Field(data, "name")
  {
    ConvertedTitle(data);
    ConvertedId(data);
  }
}
