/** Manifest validation: a type checker over the parsed `ccmod.json` (or the
    legacy `package.json`) that collects one message per problem, the
    mapping from the legacy manifest shape to the current one, and the
    printer of JSON paths used in the messages. */
module Manifest {
  import opened Wrappers
  import Strings

  /** A parsed JSON value as the validator sees it. `Undefined` is a
      property that is not there. A number keeps only its text as
      `String(n)` writes it, which is all the validator ever looks at. An
      array holds its elements in `items` and in `named` the properties an
      assignment such as `array.enabled = true` gave it (`JSON.parse`
      makes none). An object holds its properties in `props` and lists
      their names once each in `keys`, in the order `Object.entries` visits
      them. */
  datatype Json =
    | Undefined
    | Null
    | Bool(b: bool)
    | Number(text: string)
    | Str(s: string)
    | Array(items: seq<Json>, named: map<string, Json>)
    | Object(props: map<string, Json>, keys: seq<string>)

  /** JavaScript's `typeof`. */
  function TypeOf(v: Json): string {
    match v
    case Undefined => "undefined"
    case Null => "object"
    case Bool(_) => "boolean"
    case Number(_) => "number"
    case Str(_) => "string"
    case Array(_, _) => "object"
    case Object(_, _) => "object"
  }

  /** The value of property `key`, or `Undefined`. Values other than
      objects and arrays have none of the properties read here, and an
      array only those assigned to it. */
  function Field(v: Json, key: string): (r: Json)
    ensures !v.Object? && !v.Array? ==> r == Undefined
    ensures v.Array? && key !in v.named ==> r == Undefined
  {
    if v.Object? && key in v.props then v.props[key]
    else if v.Array? && key in v.named then v.named[key]
    else Undefined
  }

  datatype Type = TString | TArray | TObject | TBoolean | TNull | TUnknown

  function TypeName(t: Type): string {
    match t
    case TString => "string"
    case TArray => "array"
    case TObject => "object"
    case TBoolean => "boolean"
    case TNull => "null"
    case TUnknown => "unknown"
  }

  /** `getType`: `null` and arrays are told apart before the test for
      `typeof value === 'object'`, so only plain objects are objects. */
  function GetType(v: Json): (t: Type)
    ensures t == TNull <==> v.Null?
    ensures t == TString <==> v.Str?
    ensures t == TBoolean <==> v.Bool?
    ensures t == TArray <==> v.Array?
    ensures t == TObject <==> v.Object?
    ensures t == TUnknown <==> v.Undefined? || v.Number?
  {
    if v == Null then TNull
    else if TypeOf(v) == "string" then TString
    else if TypeOf(v) == "boolean" then TBoolean
    else if v.Array? then TArray
    else if TypeOf(v) == "object" then TObject
    else TUnknown
  }

  /** JavaScript's `String(v)`, which `RegExp.prototype.test` applies to its
      argument. */
  function JsString(v: Json): string
    decreases v, 1
  {
    match v
    case Undefined => "undefined"
    case Null => "null"
    case Bool(b) => if b then "true" else "false"
    case Number(text) => text
    case Str(s) => s
    case Array(items, _) => JoinElements(v, items, |items|)
    case Object(_, _) => "[object Object]"
  }

  /** `items[..n].join(',')`, where `null` and `undefined` elements print as
      nothing. */
  function JoinElements(v: Json, items: seq<Json>, n: nat): string
    requires v.Array? && v.items == items && n <= |items|
    decreases v, 0, n
  {
    if n == 0 then ""
    else
      var item := items[n - 1];
      var text := if item.Null? || item.Undefined? then "" else JsString(item);
      if n == 1 then text else JoinElements(v, items, n - 1) + "," + text
  }

  /** A key of a JSON path: an array index or a property name. */
  datatype PathKey = Index(n: nat) | Key(s: string)

  predicate IsIdentifierStart(c: char) {
    ('a' <= c <= 'z') || ('A' <= c <= 'Z') || c == '_' || c == '$'
  }

  predicate IsIdentifierPart(c: char) {
    IsIdentifierStart(c) || ('0' <= c <= '9')
  }

  /** `/^[a-zA-Z_$][a-zA-Z0-9_$]*$/` */
  predicate IsIdentifier(s: string) {
    |s| >= 1 && IsIdentifierStart(s[0]) && forall i :: 1 <= i < |s| ==> IsIdentifierPart(s[i])
  }

  function HexDigit(n: nat): char
    requires n < 16
  {
    if n < 10 then ('0' as int + n) as char else ('a' as int + n - 10) as char
  }

  /** How `JSON.stringify` writes one character inside a string literal. */
  function EscapeChar(c: char): string {
    if c == '"' then "\\\""
    else if c == '\\' then "\\\\"
    else if c as int == 8 then "\\b"
    else if c == '\t' then "\\t"
    else if c == '\n' then "\\n"
    else if c as int == 12 then "\\f"
    else if c == '\r' then "\\r"
    else if c as int < 0x20 then "\\u00" + [HexDigit(c as int / 16), HexDigit(c as int % 16)]
    else [c]
  }

  function Escaped(s: string): string {
    if |s| == 0 then "" else Escaped(s[..|s| - 1]) + EscapeChar(s[|s| - 1])
  }

  /** `JSON.stringify` of a string. */
  function JsonQuote(s: string): string {
    "\"" + Escaped(s) + "\""
  }

  /** What key `key` at position `i` adds to the printed path. */
  function PathPiece(key: PathKey, i: nat): string {
    match key
    case Index(n) => "[" + Strings.NatToString(n) + "]"
    case Key(s) =>
      if IsIdentifier(s) then (if i > 0 then "." else "") + s
      else "[" + JsonQuote(s) + "]"
  }

  /** The pieces of the first `n` keys of `path`. */
  function PathPieces(path: seq<PathKey>, n: nat): string
    requires n <= |path|
  {
    if n == 0 then "" else PathPieces(path, n - 1) + PathPiece(path[n - 1], n - 1)
  }

  /** `jsonPathToString`, specified. */
  function PathToString(path: seq<PathKey>): string {
    if |path| == 0 then "<document>" else PathPieces(path, |path|)
  }

  /** `jsonPathToString` */
  method JsonPathToString(path: seq<PathKey>) returns (str: string)
    ensures str == PathToString(path)
  {
    if |path| == 0 {
      return "<document>";
    }
    str := AppendKeys(path);
  }

  /** The loop of `jsonPathToString` over a non-empty path. */
  method AppendKeys(path: seq<PathKey>) returns (str: string)
    ensures str == PathPieces(path, |path|)
  {
    str := "";
    for i := 0 to |path|
      invariant str == PathPieces(path, i)
    {
      str := AppendKey(str, path[i], i);
    }
  }

  /** One turn of the loop of `jsonPathToString`: `[n]` for an index, the
      key after a dot (none at the start) for an identifier, and the quoted
      key in brackets for any other key. */
  method AppendKey(str: string, key: PathKey, i: nat) returns (r: string)
    ensures r == str + PathPiece(key, i)
  {
    r := str;
    if key.Index? {
      r := r + ("[" + Strings.NatToString(key.n) + "]");
    } else if IsIdentifier(key.s) {
      if i > 0 {
        r := r + ".";
      }
      r := r + key.s;
      assert r == str + ((if i > 0 then "." else "") + key.s);
    } else {
      r := r + ("[" + JsonQuote(key.s) + "]");
    }
  }

  /** A path of identifier keys prints as the keys joined with dots. */
  lemma {:induction false} PathOfIdentifiers(keys: seq<string>)
    requires |keys| >= 1
    requires forall k :: 0 <= k < |keys| ==> IsIdentifier(keys[k])
    ensures PathToString(seq(|keys|, k requires 0 <= k < |keys| => Key(keys[k]))) == Strings.Join(keys, ".")
  {
    var path := seq(|keys|, k requires 0 <= k < |keys| => Key(keys[k]));
    IdentifierPieces(keys, path, |keys|);
    assert keys[..|keys|] == keys;
  }

  lemma {:induction false} IdentifierPieces(keys: seq<string>, path: seq<PathKey>, n: nat)
    requires 1 <= n <= |keys| == |path|
    requires forall k :: 0 <= k < |keys| ==> IsIdentifier(keys[k]) && path[k] == Key(keys[k])
    ensures PathPieces(path, n) == Strings.Join(keys[..n], ".")
  {
    if n == 1 {
      assert PathPieces(path, 0) == "";
    } else {
      IdentifierPieces(keys, path, n - 1);
      assert keys[..n][..n - 1] == keys[..n - 1];
    }
  }

  /** An index prints as `[n]` wherever it is. */
  lemma {:induction false} PathOfIndex(path: seq<PathKey>, n: nat)
    requires |path| >= 1
    ensures PathToString(path + [Index(n)]) == PathToString(path) + ("[" + Strings.NatToString(n) + "]")
  {
    var p := path + [Index(n)];
    assert PathToString(p) == PathPieces(p, |path| + 1);
    PiecesOfAppend(path, Index(n));
    assert PathPiece(Index(n), |path|) == "[" + Strings.NatToString(n) + "]";
  }

  /** Appending a key appends its piece. */
  lemma {:induction false} PiecesOfAppend(path: seq<PathKey>, key: PathKey)
    ensures PathPieces(path + [key], |path| + 1) == PathPieces(path, |path|) + PathPiece(key, |path|)
  {
    var p := path + [key];
    PiecesOfPrefix(path, p, |path|);
    assert p[|path|] == key;
  }

  /** Extending a path leaves the pieces of its prefix alone. */
  lemma {:induction false} PiecesOfPrefix(path: seq<PathKey>, longer: seq<PathKey>, n: nat)
    requires n <= |path| <= |longer| && path == longer[..|path|]
    ensures PathPieces(longer, n) == PathPieces(path, n)
  {
    if n > 0 {
      PiecesOfPrefix(path, longer, n - 1);
      assert longer[n - 1] == path[n - 1];
    }
  }

  // ----- What the checks accept -----

  predicate IsModIdChar(c: char) {
    ('a' <= c <= 'z') || ('A' <= c <= 'Z') || ('0' <= c <= '9') || c == '_' || c == '-'
  }

  /** `/^[a-zA-Z0-9_\-]+$/` */
  predicate IsModId(s: string) {
    |s| >= 1 && forall i :: 0 <= i < |s| ==> IsModIdChar(s[i])
  }

  predicate OptionalString(v: Json) {
    v.Undefined? || v.Str?
  }

  /** Every property of object `v` is a string. */
  predicate AllStrings(v: Json)
    requires v.Object?
  {
    forall k :: 0 <= k < |v.keys| ==> Field(v, v.keys[k]).Str?
  }

  /** A localized string: a string, or an object of strings keyed by locale. */
  predicate IsLocalized(v: Json) {
    v.Str? || (v.Object? && AllStrings(v))
  }

  predicate LocalizedOk(v: Json, optional: bool) {
    (optional && v.Undefined?) || IsLocalized(v)
  }

  const PERSON_KEYS: seq<string> := ["name", "email", "url", "comment"]

  /** A person: a string, or an object whose `name` is a localized string and
      whose `email`, `url` and `comment` are localized strings when present. */
  predicate IsPerson(v: Json) {
    v.Str? || (v.Object? && PersonFieldsOk(v, |PERSON_KEYS|))
  }

  /** The first `n` fields of a person object are fine; only `name`, the
      first, is required. */
  predicate PersonFieldsOk(v: Json, n: nat)
    requires n <= |PERSON_KEYS|
  {
    forall i :: 0 <= i < n ==> LocalizedOk(Field(v, PERSON_KEYS[i]), i != 0)
  }

  predicate IsKeywords(v: Json) {
    v.Undefined? || (v.Array? && forall k :: 0 <= k < |v.items| ==> IsLocalized(v.items[k]))
  }

  predicate IsPeople(v: Json) {
    v.Undefined? || (v.Array? && forall k :: 0 <= k < |v.items| ==> IsPerson(v.items[k]))
  }

  predicate IsDependencies(v: Json) {
    v.Undefined? || (v.Object? && AllStrings(v))
  }

  predicate IsAssets(v: Json) {
    v.Undefined? || (v.Array? && forall k :: 0 <= k < |v.items| ==> v.items[k].Str?)
  }

  /** A manifest `validate` accepts, stated field by field. */
  predicate WellFormedManifest(data: Json, legacyRelaxedChecks: bool) {
    WellFormedIdentity(data, legacyRelaxedChecks) && WellFormedContent(data)
  }

  predicate WellFormedIdentity(data: Json, legacyRelaxedChecks: bool) {
    data.Object? &&
    Field(data, "id").Str? && (legacyRelaxedChecks || IsModId(Field(data, "id").s)) &&
    Field(data, "version").Str? &&
    OptionalString(Field(data, "license")) &&
    LocalizedOk(Field(data, "title"), true) &&
    LocalizedOk(Field(data, "description"), true) &&
    LocalizedOk(Field(data, "homepage"), true)
  }

  predicate WellFormedContent(data: Json) {
    IsKeywords(Field(data, "keywords")) &&
    IsPeople(Field(data, "authors")) &&
    IsDependencies(Field(data, "dependencies")) &&
    IsAssets(Field(data, "assets")) &&
    OptionalString(Field(data, "assetsDir")) &&
    OptionalString(Field(data, "main")) &&
    OptionalString(Field(data, "preload")) &&
    OptionalString(Field(data, "postload")) &&
    OptionalString(Field(data, "prestart")) &&
    OptionalString(Field(data, "poststart"))
  }

  /** A legacy manifest `validateLegacy` accepts, stated field by field. */
  predicate WellFormedLegacy(data: Json) {
    data.Object? &&
    Field(data, "name").Str? &&
    Field(data, "version").Str? &&
    OptionalString(Field(data, "license")) &&
    OptionalString(Field(data, "ccmodHumanName")) &&
    OptionalString(Field(data, "description")) &&
    OptionalString(Field(data, "homepage")) &&
    IsDependencies(Field(data, "ccmodDependencies")) &&
    IsDependencies(Field(data, "dependencies")) &&
    IsAssets(Field(data, "assets")) &&
    (Field(data, "module").Undefined? || Field(data, "module").Bool?) &&
    OptionalString(Field(data, "main")) &&
    OptionalString(Field(data, "plugin")) &&
    OptionalString(Field(data, "preload")) &&
    OptionalString(Field(data, "postload")) &&
    OptionalString(Field(data, "prestart"))
  }

  // ----- The problems each check records -----

  /** `expectedTypes.join(' or ')` */
  function TypesString(types: seq<Type>): string {
    Strings.Join(seq(|types|, i requires 0 <= i < |types| => TypeName(types[i])), " or ")
  }

  /** A problem the checks record: a value of the wrong type, or an id that
      does not match its pattern. */
  datatype Problem = WrongType(path: seq<PathKey>, types: seq<Type>) | InvalidId

  const ID_PROBLEM := "id must consist only of one or more alphanumberic characters, hyphens or underscores"

  /** The message recorded for a problem. */
  function Message(p: Problem): string {
    match p
    case WrongType(path, types) =>
      "expected type of '" + PathToString(path) + "' to be '" + TypesString(types) + "'"
    case InvalidId => ID_PROBLEM
  }

  /** The messages of `ps`, in order. */
  function Messages(ps: seq<Problem>): (ms: seq<string>)
    ensures |ms| == |ps|
    ensures forall i :: 0 <= i < |ms| ==> ms[i] == Message(ps[i])
  {
    if |ps| == 0 then [] else [Message(ps[0])] + Messages(ps[1..])
  }

  predicate TypeOk(value: Json, types: seq<Type>, optional: bool) {
    (optional && value.Undefined?) || GetType(value) in types
  }

  /** What `_assertType` records. */
  function TypeProblems(path: seq<PathKey>, value: Json, types: seq<Type>, optional: bool): seq<Problem> {
    if TypeOk(value, types, optional) then [] else [WrongType(path, types)]
  }

  /** What checking that the first `n` properties of object `v` are strings
      records. */
  function EntryProblems(path: seq<PathKey>, v: Json, n: nat): (ps: seq<Problem>)
    requires v.Object? && n <= |v.keys|
    ensures ps == [] <==> forall k :: 0 <= k < n ==> Field(v, v.keys[k]).Str?
  {
    if n == 0 then []
    else
      var key := v.keys[n - 1];
      EntryProblems(path, v, n - 1) + TypeProblems(path + [Key(key)], Field(v, key), [TString], false)
  }

  /** What checking that the first `n` items are strings records. */
  function ItemProblems(path: seq<PathKey>, items: seq<Json>, n: nat): (ps: seq<Problem>)
    requires n <= |items|
    ensures ps == [] <==> forall k :: 0 <= k < n ==> items[k].Str?
  {
    if n == 0 then []
    else ItemProblems(path, items, n - 1) + TypeProblems(path + [Index(n - 1)], items[n - 1], [TString], false)
  }

  /** What `_assertLocalizedString` records. */
  function LocalizedProblems(path: seq<PathKey>, value: Json, optional: bool): (ps: seq<Problem>)
    ensures ps == [] <==> LocalizedOk(value, optional)
  {
    if optional && value.Undefined? then []
    else if !TypeOk(value, [TObject, TString], false) then [WrongType(path, [TObject, TString])]
    else if value.Str? then []
    else EntryProblems(path, value, |value.keys|)
  }

  /** What checking the first `n` items of an array one by one with `check`
      records: the problems of each item, in order. */
  function EachItemProblems(path: seq<PathKey>, items: seq<Json>, n: nat, check: (seq<PathKey>, Json) -> seq<Problem>): seq<Problem>
    requires n <= |items|
  {
    if n == 0 then []
    else EachItemProblems(path, items, n - 1, check) + check(path + [Index(n - 1)], items[n - 1])
  }

  /** Nothing is recorded for the first `n` items exactly when each of them
      passes the check. */
  lemma {:induction false} EachItemClean(path: seq<PathKey>, items: seq<Json>, n: nat, check: (seq<PathKey>, Json) -> seq<Problem>, ok: Json -> bool)
    requires n <= |items|
    requires forall p, v :: check(p, v) == [] <==> ok(v)
    ensures EachItemProblems(path, items, n, check) == [] <==> forall k :: 0 <= k < n ==> ok(items[k])
  {
    if n > 0 {
      EachItemClean(path, items, n - 1, check, ok);
      var earlier := EachItemProblems(path, items, n - 1, check);
      var last := check(path + [Index(n - 1)], items[n - 1]);
      assert |earlier + last| == |earlier| + |last|;
    }
  }

  /** The problems of each of the first `n` items are all recorded. */
  lemma {:induction false} EachItemReported(path: seq<PathKey>, items: seq<Json>, n: nat, k: nat, check: (seq<PathKey>, Json) -> seq<Problem>)
    requires k < n <= |items|
    ensures multiset(check(path + [Index(k)], items[k])) <= multiset(EachItemProblems(path, items, n, check))
  {
    if k < n - 1 {
      EachItemReported(path, items, n - 1, k, check);
    }
  }

  /** What the keywords check records for one keyword. */
  function KeywordProblems(path: seq<PathKey>, value: Json): (ps: seq<Problem>)
    ensures ps == [] <==> IsLocalized(value)
  {
    LocalizedProblems(path, value, false)
  }

  /** What checking the first `n` fields of a person object records. */
  function PersonFieldProblems(path: seq<PathKey>, person: Json, n: nat): (ps: seq<Problem>)
    requires n <= |PERSON_KEYS|
    ensures ps == [] <==> PersonFieldsOk(person, n)
  {
    if n == 0 then []
    else
      var key := PERSON_KEYS[n - 1];
      assert (key != "name") == (n != 1);
      PersonFieldProblems(path, person, n - 1) + LocalizedProblems(path + [Key(key)], Field(person, key), key != "name")
  }

  /** What `_assertPerson` records. */
  function PersonProblems(path: seq<PathKey>, value: Json): (ps: seq<Problem>)
    ensures ps == [] <==> IsPerson(value)
  {
    if !TypeOk(value, [TObject, TString], false) then [WrongType(path, [TObject, TString])]
    else if value.Str? then []
    else PersonFieldProblems(path, value, |PERSON_KEYS|)
  }

  /** What the check of `keywords` in `validate` records. */
  function KeywordsProblems(path: seq<PathKey>, value: Json): (ps: seq<Problem>)
    ensures ps == [] <==> IsKeywords(value)
  {
    if value.Undefined? then []
    else if !value.Array? then [WrongType(path, [TArray])]
    else
      EachItemClean(path, value.items, |value.items|, KeywordProblems, IsLocalized);
      EachItemProblems(path, value.items, |value.items|, KeywordProblems)
  }

  /** What `_assertPeople` records. */
  function PeopleProblems(path: seq<PathKey>, value: Json): (ps: seq<Problem>)
    ensures ps == [] <==> IsPeople(value)
  {
    if value.Undefined? then []
    else if !value.Array? then [WrongType(path, [TArray])]
    else
      EachItemClean(path, value.items, |value.items|, PersonProblems, IsPerson);
      EachItemProblems(path, value.items, |value.items|, PersonProblems)
  }

  /** What `_assertDependencies` records. */
  function DependenciesProblems(path: seq<PathKey>, value: Json): (ps: seq<Problem>)
    ensures ps == [] <==> IsDependencies(value)
  {
    if value.Undefined? then []
    else if !value.Object? then [WrongType(path, [TObject])]
    else EntryProblems(path, value, |value.keys|)
  }

  /** What `_assertAssets` records. */
  function AssetsProblems(path: seq<PathKey>, value: Json): (ps: seq<Problem>)
    ensures ps == [] <==> IsAssets(value)
  {
    if value.Undefined? then []
    else if !value.Array? then [WrongType(path, [TArray])]
    else ItemProblems(path, value.items, |value.items|)
  }

  /** What the `id` pattern check records. The pattern is tested against
      `String(id)`, so a non-string `id` can pass it. */
  function IdProblems(id: Json, legacyRelaxedChecks: bool): seq<Problem> {
    if !legacyRelaxedChecks && !id.Undefined? && !IsModId(JsString(id)) then [InvalidId] else []
  }

  function StringFieldProblems(data: Json, key: string, optional: bool): seq<Problem> {
    TypeProblems([Key(key)], Field(data, key), [TString], optional)
  }

  /** The problems `validate` records for a value it can read properties of,
      in the order it records them. */
  function ValidateProblems(data: Json, legacyRelaxedChecks: bool): seq<Problem> {
    IdentityProblems(data, legacyRelaxedChecks) +
    KeywordsProblems([Key("keywords")], Field(data, "keywords")) +
    PeopleProblems([Key("authors")], Field(data, "authors")) +
    DependenciesProblems([Key("dependencies")], Field(data, "dependencies")) +
    AssetsProblems([Key("assets")], Field(data, "assets")) +
    StringFieldProblems(data, "assetsDir", true) +
    StringFieldProblems(data, "main", true) +
    StringFieldProblems(data, "preload", true) +
    StringFieldProblems(data, "postload", true) +
    StringFieldProblems(data, "prestart", true) +
    StringFieldProblems(data, "poststart", true)
  }

  /** The problems of the root, `id`, `version`, `license` and the
      localized texts. */
  function IdentityProblems(data: Json, legacyRelaxedChecks: bool): seq<Problem> {
    TypeProblems([], data, [TObject], false) +
    StringFieldProblems(data, "id", false) +
    IdProblems(Field(data, "id"), legacyRelaxedChecks) +
    StringFieldProblems(data, "version", false) +
    StringFieldProblems(data, "license", true) +
    LocalizedProblems([Key("title")], Field(data, "title"), true) +
    LocalizedProblems([Key("description")], Field(data, "description"), true) +
    LocalizedProblems([Key("homepage")], Field(data, "homepage"), true)
  }

  /** The problems `validateLegacy` records, in order. */
  function LegacyProblems(data: Json): seq<Problem> {
    LegacyHeadProblems(data) +
    DependenciesProblems([Key("ccmodDependencies")], Field(data, "ccmodDependencies")) +
    DependenciesProblems([Key("dependencies")], Field(data, "dependencies")) +
    AssetsProblems([Key("assets")], Field(data, "assets")) +
    TypeProblems([Key("module")], Field(data, "module"), [TBoolean], true) +
    StringFieldProblems(data, "main", true) +
    StringFieldProblems(data, "plugin", true) +
    StringFieldProblems(data, "preload", true) +
    StringFieldProblems(data, "postload", true) +
    StringFieldProblems(data, "prestart", true)
  }

  /** The problems of the root and the plain string fields of a legacy
      manifest. */
  function LegacyHeadProblems(data: Json): seq<Problem> {
    TypeProblems([], data, [TObject], false) +
    StringFieldProblems(data, "name", false) +
    StringFieldProblems(data, "version", false) +
    StringFieldProblems(data, "license", true) +
    StringFieldProblems(data, "ccmodHumanName", true) +
    StringFieldProblems(data, "description", true) +
    StringFieldProblems(data, "homepage", true)
  }

  // ----- Properties of the checks -----

  /** `validate` records no problem exactly for a well-formed manifest. */
  lemma {:induction false} ValidateAcceptsExactly(data: Json, legacyRelaxedChecks: bool)
    ensures ValidateProblems(data, legacyRelaxedChecks) == [] <==> WellFormedManifest(data, legacyRelaxedChecks)
  {
    IdentityAcceptsExactly(data, legacyRelaxedChecks);
  }

  lemma {:induction false} IdentityAcceptsExactly(data: Json, legacyRelaxedChecks: bool)
    ensures IdentityProblems(data, legacyRelaxedChecks) == [] <==> WellFormedIdentity(data, legacyRelaxedChecks)
  {
    var id := Field(data, "id");
    assert TypeProblems([], data, [TObject], false) == [] <==> data.Object?;
    StringFieldClean(data, "id", false);
    StringFieldClean(data, "version", false);
    StringFieldClean(data, "license", true);
    if id.Str? {
      assert JsString(id) == id.s;
    }
    var parts := [TypeProblems([], data, [TObject], false), StringFieldProblems(data, "id", false),
                  IdProblems(id, legacyRelaxedChecks), StringFieldProblems(data, "version", false),
                  StringFieldProblems(data, "license", true),
                  LocalizedProblems([Key("title")], Field(data, "title"), true),
                  LocalizedProblems([Key("description")], Field(data, "description"), true),
                  LocalizedProblems([Key("homepage")], Field(data, "homepage"), true)];
    assert IdentityProblems(data, legacyRelaxedChecks) ==
      parts[0] + parts[1] + parts[2] + parts[3] + parts[4] + parts[5] + parts[6] + parts[7];
  }

  /** A string field has no problem exactly when it is a string, or missing
      where it is optional. */
  lemma {:induction false} StringFieldClean(data: Json, key: string, optional: bool)
    ensures StringFieldProblems(data, key, optional) == [] <==>
      Field(data, key).Str? || (optional && Field(data, key).Undefined?)
  {
  }

  /** `validateLegacy` records no problem exactly for a well-formed legacy
      manifest. */
  lemma {:induction false} LegacyAcceptsExactly(data: Json)
    ensures LegacyProblems(data) == [] <==> WellFormedLegacy(data)
  {
    LegacyHeadAcceptsExactly(data);
  }

  lemma {:induction false} LegacyHeadAcceptsExactly(data: Json)
    ensures LegacyHeadProblems(data) == [] <==>
      data.Object? &&
      Field(data, "name").Str? &&
      Field(data, "version").Str? &&
      OptionalString(Field(data, "license")) &&
      OptionalString(Field(data, "ccmodHumanName")) &&
      OptionalString(Field(data, "description")) &&
      OptionalString(Field(data, "homepage"))
  {
  }

  /** Unless the relaxed checks are asked for, a string `id` outside
      `[a-zA-Z0-9_-]+` draws the id problem; with them it draws none. */
  lemma {:induction false} IdRule(data: Json, legacyRelaxedChecks: bool)
    requires Field(data, "id").Str?
    ensures !legacyRelaxedChecks && !IsModId(Field(data, "id").s) ==>
      InvalidId in ValidateProblems(data, legacyRelaxedChecks)
    ensures IdProblems(Field(data, "id"), legacyRelaxedChecks) == [] <==>
      legacyRelaxedChecks || IsModId(Field(data, "id").s)
  {
    var id := Field(data, "id");
    assert JsString(id) == id.s;
    var ps := ValidateProblems(data, legacyRelaxedChecks);
    var before := TypeProblems([], data, [TObject], false) + StringFieldProblems(data, "id", false);
    if !legacyRelaxedChecks && !IsModId(id.s) {
      assert IdentityProblems(data, legacyRelaxedChecks)[|before|] == InvalidId;
      assert ps[|before|] == InvalidId;
    }
  }

  /** Every entry that is not a string has its own problem: the checks go on
      past the first bad entry. */
  lemma {:induction false} EveryBadEntryReported(path: seq<PathKey>, v: Json, n: nat, k: nat)
    requires v.Object? && k < n <= |v.keys| && !Field(v, v.keys[k]).Str?
    ensures WrongType(path + [Key(v.keys[k])], [TString]) in EntryProblems(path, v, n)
  {
    if k < n - 1 {
      EveryBadEntryReported(path, v, n - 1, k);
    }
  }

  /** Every item that is not a string has its own problem. */
  lemma {:induction false} EveryBadItemReported(path: seq<PathKey>, items: seq<Json>, n: nat, k: nat)
    requires k < n <= |items| && !items[k].Str?
    ensures WrongType(path + [Index(k)], [TString]) in ItemProblems(path, items, n)
  {
    if k < n - 1 {
      EveryBadItemReported(path, items, n - 1, k);
    }
  }

  /** Every keyword that is not a localized string has problems of its own. */
  lemma {:induction false} EveryBadKeywordReported(path: seq<PathKey>, items: seq<Json>, n: nat, k: nat)
    requires k < n <= |items| && !IsLocalized(items[k])
    ensures LocalizedProblems(path + [Index(k)], items[k], false) != []
    ensures multiset(LocalizedProblems(path + [Index(k)], items[k], false)) <= multiset(EachItemProblems(path, items, n, KeywordProblems))
  {
    EachItemReported(path, items, n, k, KeywordProblems);
  }

  /** In a person object `name` is required and `email`, `url` and `comment`
      are optional. */
  lemma {:induction false} PersonFields(v: Json)
    requires v.Object?
    ensures IsPerson(v) <==>
      IsLocalized(Field(v, "name")) && LocalizedOk(Field(v, "email"), true) &&
      LocalizedOk(Field(v, "url"), true) && LocalizedOk(Field(v, "comment"), true)
  {
    assert PERSON_KEYS[0] == "name" && PERSON_KEYS[1] == "email";
    assert PERSON_KEYS[2] == "url" && PERSON_KEYS[3] == "comment";
  }

  // ----- Conversion from the legacy manifest -----

  /** JavaScript truthiness. `String(-0)` is `"0"`, so the falsy numbers
      print as `0` or `NaN`. */
  predicate Truthy(v: Json) {
    match v
    case Undefined => false
    case Null => false
    case Bool(b) => b
    case Number(text) => text != "0" && text != "NaN"
    case Str(s) => s != ""
    case Array(_, _) => true
    case Object(_, _) => true
  }

  /** `{ en_US: value }` */
  function English(value: Json): Json {
    Object(map["en_US" := value], ["en_US"])
  }

  /** `value !== undefined ? { en_US: value } : undefined` */
  function InEnglish(value: Json): Json {
    if value != Undefined then English(value) else Undefined
  }

  /** `convertFromLegacy`: an object literal whose id is the legacy `name`;
      its other fields are stated by the lemmas below. */
  function ConvertFromLegacy(data: Json): (r: Json)
    ensures r.Object?
  {
    var humanName := Field(data, "ccmodHumanName");
    var ccmodDependencies := Field(data, "ccmodDependencies");
    Object(
      map[
        "id" := Field(data, "name"),
        "version" := Field(data, "version"),
        "license" := Field(data, "license"),
        "title" := English(if humanName != Undefined then humanName else Field(data, "name")),
        "description" := InEnglish(Field(data, "description")),
        "homepage" := InEnglish(Field(data, "homepage")),
        "dependencies" := if ccmodDependencies != Undefined then ccmodDependencies else Field(data, "dependencies"),
        "assets" := Field(data, "assets"),
        "legacyLoadAsScript" := Bool(!Truthy(Field(data, "module"))),
        "main" := Field(data, "plugin"),
        "preload" := Field(data, "preload"),
        "postload" := Field(data, "postload"),
        "prestart" := Field(data, "prestart"),
        "poststart" := Field(data, "main")
      ],
      ["id", "version", "license", "title", "description", "homepage", "dependencies",
       "assets", "legacyLoadAsScript", "main", "preload", "postload", "prestart", "poststart"])
  }

  // One lemma per converted property: reading a property back out of the
  // map display is cheapest one key at a time.

  lemma {:induction false} ConvertedId(data: Json)
    ensures Field(ConvertFromLegacy(data), "id") == Field(data, "name")
  {
  }

  lemma {:induction false} ConvertedVersion(data: Json)
    ensures Field(ConvertFromLegacy(data), "version") == Field(data, "version")
  {
  }

  lemma {:induction false} ConvertedLicense(data: Json)
    ensures Field(ConvertFromLegacy(data), "license") == Field(data, "license")
  {
  }

  lemma {:induction false} ConvertedTitle(data: Json)
    ensures Field(ConvertFromLegacy(data), "title") == English(if Field(data, "ccmodHumanName") != Undefined then Field(data, "ccmodHumanName") else Field(data, "name"))
  {
  }

  lemma {:induction false} ConvertedDescription(data: Json)
    ensures Field(ConvertFromLegacy(data), "description") == InEnglish(Field(data, "description"))
  {
  }

  lemma {:induction false} ConvertedHomepage(data: Json)
    ensures Field(ConvertFromLegacy(data), "homepage") == InEnglish(Field(data, "homepage"))
  {
  }

  lemma {:induction false} ConvertedDependencies(data: Json)
    ensures Field(ConvertFromLegacy(data), "dependencies") == if Field(data, "ccmodDependencies") != Undefined then Field(data, "ccmodDependencies") else Field(data, "dependencies")
  {
  }

  lemma {:induction false} ConvertedAssets(data: Json)
    ensures Field(ConvertFromLegacy(data), "assets") == Field(data, "assets")
  {
  }

  lemma {:induction false} ConvertedLoadAsScript(data: Json)
    ensures Field(ConvertFromLegacy(data), "legacyLoadAsScript") == Bool(!Truthy(Field(data, "module")))
  {
  }

  lemma {:induction false} ConvertedMain(data: Json)
    ensures Field(ConvertFromLegacy(data), "main") == Field(data, "plugin")
  {
  }

  lemma {:induction false} ConvertedPreload(data: Json)
    ensures Field(ConvertFromLegacy(data), "preload") == Field(data, "preload")
  {
  }

  lemma {:induction false} ConvertedPostload(data: Json)
    ensures Field(ConvertFromLegacy(data), "postload") == Field(data, "postload")
  {
  }

  lemma {:induction false} ConvertedPrestart(data: Json)
    ensures Field(ConvertFromLegacy(data), "prestart") == Field(data, "prestart")
  {
  }

  lemma {:induction false} ConvertedPoststart(data: Json)
    ensures Field(ConvertFromLegacy(data), "poststart") == Field(data, "main")
  {
  }

  lemma {:induction false} ConvertedAbsent(data: Json)
    ensures var r := ConvertFromLegacy(data);
      Field(r, "keywords") == Undefined && Field(r, "authors") == Undefined && Field(r, "assetsDir") == Undefined
  {
  }

  /** The fields of the converted manifest, read back: the title falls back
      to the name, `ccmodDependencies` wins over `dependencies`, `plugin`
      becomes `main`, the legacy `main` becomes `poststart`, a legacy mod
      loads as a script unless `module` is set, and no keywords, authors or
      assets directory are made up. */
  lemma {:induction false} ConvertFromLegacyFields(data: Json)
    ensures var r := ConvertFromLegacy(data);
      Field(r, "id") == Field(data, "name") &&
      Field(Field(r, "title"), "en_US") ==
        (if Field(data, "ccmodHumanName") != Undefined then Field(data, "ccmodHumanName") else Field(data, "name")) &&
      Field(r, "dependencies") ==
        (if Field(data, "ccmodDependencies") != Undefined then Field(data, "ccmodDependencies") else Field(data, "dependencies")) &&
      Field(r, "legacyLoadAsScript") == Bool(!Truthy(Field(data, "module"))) &&
      Field(r, "main") == Field(data, "plugin") &&
      Field(r, "poststart") == Field(data, "main") &&
      Field(r, "keywords") == Undefined && Field(r, "authors") == Undefined && Field(r, "assetsDir") == Undefined
  {
    ConvertedId(data);
    ConvertedTitle(data);
    ConvertedDependencies(data);
    ConvertedLoadAsScript(data);
    ConvertedMain(data);
    ConvertedPoststart(data);
    ConvertedAbsent(data);
  }

  /** A legacy manifest that `validateLegacy` accepts converts to a manifest
      that `validate` accepts with the relaxed checks (a legacy `name` need
      not be a valid id). */
  lemma {:induction false} ConvertedLegacyIsValid(data: Json)
    requires WellFormedLegacy(data)
    ensures WellFormedManifest(ConvertFromLegacy(data), true)
  {
    ConvertedIdentity(data);
    ConvertedContent(data);
  }

  lemma {:induction false} ConvertedIdentity(data: Json)
    requires WellFormedLegacy(data)
    ensures WellFormedIdentity(ConvertFromLegacy(data), true)
  {
    ConvertedId(data);
    ConvertedVersion(data);
    ConvertedLicense(data);
    ConvertedTitle(data);
    ConvertedDescription(data);
    ConvertedHomepage(data);
  }

  lemma {:induction false} ConvertedContent(data: Json)
    requires WellFormedLegacy(data)
    ensures WellFormedContent(ConvertFromLegacy(data))
  {
    ConvertedAbsent(data);
    ConvertedDependencies(data);
    ConvertedAssets(data);
    ConvertedMain(data);
    ConvertedPreload(data);
    ConvertedPostload(data);
    ConvertedPrestart(data);
    ConvertedPoststart(data);
  }
}
