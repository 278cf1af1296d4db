# ccloader3 core, modelled in Dafny

ccloader3 loads mods into the game CrossCode. This project models the core of
the loader and proves properties of that model:

- its POSIX path library: `normalize`, `join`, `resolve`, `relative`,
  `dirname`, `basename` and `extname`;
- the manifest validator, for modern and legacy manifests, and the
  conversion of a legacy manifest;
- the `Mod` object: its dependency map, its resolved paths, its asset list
  and the script it imports at each loading stage;
- the dependency resolver: the load order and the dependency constraint
  checks;
- the store of enabled flags, read from and written to a settings file or
  local storage;
- the console's log-level bit flags and the options menu that edits them;
- the runtime's resource hooks:
  - the `mod://` URL protocol and asset overrides;
  - patch lists and dynamically generated JSON files;
  - module-definition hooks;
  - the deobfuscation table;
  - the file names printed by the patch-step debugger;
- the UI helpers that pick a mod's localized title.

Modules follow the source files:

| Module | Source |
|---|---|
| `Paths` | `common/src/paths.ts` |
| `Manifest` | `src/manifest.ts`: the rules of a valid manifest, as functions on `Json` |
| `ManifestValidator` | `src/manifest.ts`: the class that records problems, with `ManifestUtil`'s `recorded` field standing for its `problems` array |
| `Mods` | `src/mod.ts` |
| `ModOrder` | `src/dependency-resolver.ts`: the insertion-ordered `Map` and the sort by id the resolver relies on |
| `DependencyResolver` | `src/dependency-resolver.ts`: the resolver itself |
| `ModDataStorage` | `src/mod-data-storage.ts` |
| `Console` | `common/src/console.ts` |
| `OptionsValues` | `runtime/src/ui/options-values.ts` |
| `Resources` | `runtime/src/resources.ts` |
| `PatchList` | `runtime/src/patch-list.ts` |
| `DynamicJsonFiles` | `runtime/src/dynamic-json-files.ts` |
| `ImpactModuleHooks` | `runtime/src/impact-module-hooks.ts` |
| `Deobf` | `src/deobf.ts` |
| `DebugState` | `runtime/src/patch-steps-debug-state.ts` |
| `UiUtils` | `runtime/src/ui/utils.ts` |
| `Utils` | `common/src/utils.ts`, plus `mapGetOrInsert` as its callers use it |

Four supporting modules model the JavaScript built-ins the core relies on:

- `Strings`: `indexOf`, `lastIndexOf`, `split`, `join`, `String(n)` and `parseInt`.
- `JsBits`: the 32-bit bitwise operators `|`, `&`, `~`, `<<` and `>>`, on unbounded integers.
- `LocalStorage`: `localStorage`, as a class over a map of strings.
- `Wrappers`: `Option` and `Result`.

Where the source updates state in place, the model keeps the same shape:

- loops are methods with loop invariants;
- objects whose fields change are classes with `modifies` clauses;
- each method is proved against a function that specifies it.

JSON values are the `Json` datatype: `undefined`, `null`, booleans, numbers
(kept as their text), strings, arrays (their elements, and the named
properties assigned to them), and objects (properties together with their
key order). Version parsing and range tests, which the loader leaves to
the `semver` library, are parameters of the members that use them.

## Model

| member | source | states |
|---|---|---|
| Utils.Compare | common/src/utils.ts:14-16 | the comparison gives -1, 0 or 1, ordering strings by their UTF-16 code units as JavaScript's `<` does |
| Utils.CodeUnits | common/src/utils.ts:14-16 | a character below U+10000 is one code unit, any other a high surrogate followed by a low one |
| Utils.Utf16Injective | common/src/utils.ts:14-16 | distinct strings have distinct UTF-16 encodings |
| Utils.SurrogatesBeforeHighBmp | common/src/utils.ts:14-16 | U+10000 sorts before U+FF61 although its code point is larger |
| Utils.CompareSame | common/src/utils.ts:14-16 | a string compares equal to itself |
| Utils.CompareZero | common/src/utils.ts:14-16 | compare is 0 exactly on equal strings |
| Utils.CompareSwap | common/src/utils.ts:14-16 | swapping the arguments negates the result |
| Utils.CompareTransitive | common/src/utils.ts:14-16 | compare orders transitively; with the two lemmas above it is a total order, a valid sort comparator |
| Utils.ListAt | runtime/src/patch-list.ts:29 | the list stored under a key, or the empty list mapGetOrInsert would insert |
| Utils.Pushed | runtime/src/patch-list.ts:29-30 | get-or-insert then push: the key's list gains the value at its end, and no other list changes |
| Utils.RegisteredUnder | runtime/src/impact-module-hooks.ts:5-12 | the values registered under a key are at most as many as the registrations |
| Utils.RegisteredInOrder | runtime/src/impact-module-hooks.ts:5-12 | after any registrations, each key's list holds exactly the values registered under it, in order |
| Strings.IndexOf | src/deobf.ts:26 | indexOf gives -1 or an index holding the character |
| Strings.IndexOfFirst | runtime/src/resources.ts:75 | no occurrence comes before the index indexOf finds |
| Strings.LastIndexOf | common/src/paths.ts:37 | lastIndexOf gives -1 or an index holding the character |
| Strings.LastIndexOfLast | common/src/paths.ts:37 | no occurrence comes after the index lastIndexOf finds |
| Strings.NotFound | common/src/paths.ts:37 | both searches give -1 exactly when the character does not occur |
| Strings.Split | src/deobf.ts:23 | split gives at least one piece |
| Strings.SplitPieces | src/deobf.ts:23 | no piece holds the separator |
| Strings.SplitConcat | runtime/src/patch-steps-debug-state.ts:10 | splitting at a separator splits each side independently |
| Strings.SplitJoin | src/deobf.ts:23 | splitting a join of separator-free pieces gives the pieces back |
| Strings.DigitsParse | common/src/console.ts:43 | parseInt of a string of digits is its decimal value |
| Strings.ParseIntOfIntToString | common/src/console.ts:43 | parseInt(String(i), 10) gives i back for every integer, the round trip the stored log flags rely on |
| JsBits.BitsOfInt32 | common/src/console.ts:26 | the bits of a 32-bit integer are the ones it was built from |
| JsBits.NumberOf | runtime/src/ui/options-values.ts:5 | the Number parseInt gives: exact within 2^53, rounded symmetrically about 0, infinite past the largest double |
| JsBits.RoundMagnitudeNearest | runtime/src/ui/options-values.ts:5 | from 2^53 on, a finite rounding is a multiple of the spacing of doubles there, at most half a spacing away, and even on a tie |
| JsBits.RoundAbove53 | runtime/src/ui/options-values.ts:5 | between 2^53 and 2^54 even integers are kept and odd ones go to the neighbour with an even half |
| JsBits.FirstInexact | runtime/src/ui/options-values.ts:5 | 2^53 + 1 is read as 2^53 |
| JsBits.Operand | runtime/src/ui/options-values.ts:17 | a bitwise operator takes a finite Number as it is and an infinity as 0 |
| JsBits.Int32IsNumber | runtime/src/ui/options-values.ts:27 | a 32-bit integer is a Number exactly |
| JsBits.BitsOfShiftedOne | common/src/console.ts:35 | 1 << k has exactly bit k mod 32 set |
| JsBits.MaskedBit | common/src/console.ts:35 | x & (1 << k) is nonzero exactly when bit k of x is set |
| JsBits.BitsOfOps | runtime/src/ui/options-values.ts:23-25 | the bits of x or y, x and y, and not x, bit by bit |
| JsBits.ShiftRightAndOne | runtime/src/ui/options-values.ts:17 | (x >> i) & 1 is 1 when bit i is set and 0 otherwise |
| LocalStorage.Storage.GetItem | common/src/console.ts:41 | getItem gives a value exactly for a key that was set |
| LocalStorage.Storage.SetItem | common/src/console.ts:52 | setItem changes that key's value and no other |
| Paths.NormalizeString | common/src/paths.ts:15-74 | the one-pass scan gives the resolved segments joined by slashes |
| Paths.NormalStackClean | common/src/paths.ts:15-74 | the result has no empty or dot segment, puts dot-dot only at its start, and has none when it may not climb above the root |
| Paths.CloseSegment | common/src/paths.ts:26-66 | the loop's work at a separator applies exactly one segment |
| Paths.ApplySegment | common/src/paths.ts:27-64 | an empty or dot segment is dropped, dot-dot closes the last segment, any other is appended |
| Paths.CloseDotDot | common/src/paths.ts:29-59 | dot-dot drops the last real segment, or is kept when there is none and climbing is allowed |
| Paths.ClosesAboveDotDot | common/src/paths.ts:30-35 | the length and last-two-characters test is true exactly when the last segment is not itself dot-dot |
| Paths.PopJoin | common/src/paths.ts:36-44 | cutting at the last slash yields the shorter stack and the length of its last segment |
| Paths.ResolvedStep | common/src/paths.ts:21-72 | the loop state at each separator follows from the previous one by one segment step |
| Paths.ResolvedAtEnd | common/src/paths.ts:21-72 | the state at the end of the input holds the whole result |
| Paths.DotCountMeaning | common/src/paths.ts:21-72 | the dots counter is the segment's length when the segment is all dots, else -1 |
| Paths.TrailingSlash | common/src/paths.ts:21-72 | a trailing separator adds no segment |
| Paths.IsAbsolute | common/src/paths.ts:123-126 | a path is absolute exactly when it is a slash followed by the rest |
| Paths.StripRoot | common/src/paths.ts:129-135 | stripRoot removes exactly one leading slash |
| Paths.Normalize | common/src/paths.ts:103-121 | normalize gives the resolved segments, keeping the root and a trailing slash, and gives a dot for nothing |
| Paths.NormalizeShape | common/src/paths.ts:103-121 | the result is non-empty, absolute exactly when the input is, and ends with a slash exactly when the input does (or it is the root) |
| Paths.NormalizeSegments | common/src/paths.ts:103-121 | the segments of the result are the root's empty segment, the resolved stack, and an empty segment for a trailing slash |
| Paths.NormalizeNoClimb | common/src/paths.ts:103-121 | an absolute path never climbs above the root: no segment of its normal form is dot-dot |
| Paths.NormalizeKeepsLeadingDotDot | common/src/paths.ts:103-121 | a relative path keeps a leading dot-dot that nothing resolves |
| Paths.NormalizeIdempotent | common/src/paths.ts:103-121 | normalizing twice is normalizing once |
| Paths.NormalizeRoot | common/src/paths.ts:103-121 | the root normalizes to itself |
| Paths.NormalizeDot | common/src/paths.ts:103-121 | the empty path normalizes to a dot |
| Paths.NormalizeStackTwice | common/src/paths.ts:103-121 | a normal form resolves to the same segments as the path it came from |
| Paths.NonEmpty | common/src/paths.ts:143 | the non-empty arguments are kept, in order |
| Paths.JoinedArgsMeaning | common/src/paths.ts:139-147 | the accumulated text is the non-empty arguments joined by slashes, and is absent exactly when all are empty |
| Paths.JoinPaths | common/src/paths.ts:137-150 | join gives a dot for nothing to join, otherwise the normalized join |
| Paths.JoinPathsResult | common/src/paths.ts:137-150 | join of empty arguments is a dot; otherwise it is the normal form of the joined arguments, itself normalized |
| Paths.GatheredStep | common/src/paths.ts:80-90 | each argument taken in prepends itself and a slash, and an absolute one stops the walk |
| Paths.Resolve | common/src/paths.ts:76-101 | resolve walks the arguments from the last, then the working directory, and normalizes what it gathered |
| Paths.ResolveAbsolute | common/src/paths.ts:76-101 | with an absolute working directory the result is absolute and never climbs above the root |
| Paths.ResolveLastAbsolute | common/src/paths.ts:76-101 | an absolute last argument decides the result alone, without its trailing slash |
| Paths.Relative | common/src/paths.ts:152-216 | relative resolves both paths and then climbs from one to the other |
| Paths.RelativeResolved | common/src/paths.ts:164-215 | the two loops compute the climb from from to the last shared separator, then the rest of to |
| Paths.CommonPrefix | common/src/paths.ts:171-178 | the first loop finds the length of the common text and the last separator in it |
| Paths.AfterPrefix | common/src/paths.ts:179-202 | the early returns for a base or root from, and the adjustment of the last shared separator |
| Paths.Climb | common/src/paths.ts:204-215 | the result is the climb followed by the rest of to |
| Paths.UpSteps | common/src/paths.ts:207-211 | one dot-dot per separator of from after the shared part, and one for its end |
| Paths.RelativeSame | common/src/paths.ts:156-162 | two paths resolving to the same place give the empty path |
| Paths.RelativeChild | common/src/paths.ts:179-185 | from a directory to something below it gives the part after the directory |
| Paths.RelativeParent | common/src/paths.ts:204-215 | from below a directory back to it gives one dot-dot per separator below, plus one |
| Paths.TrimEnd | common/src/paths.ts:224-234 | the end index with trailing separators dropped |
| Paths.CompStart | common/src/paths.ts:291-305 | the last component starts after the last separator, or at the start |
| Paths.Dirname | common/src/paths.ts:218-239 | dirname gives everything before the separator that precedes the last component |
| Paths.DirnameBasename | common/src/paths.ts:218-239 | dirname and basename split dir/name into dir and name |
| Paths.DirnameOfJoin | common/src/paths.ts:218-239 | a path built as dir/name has dirname dir |
| Paths.BasenameOf | common/src/paths.ts:291-308 | basename without an extension gives the last component, ignoring trailing separators |
| Paths.BasenameTrailing | common/src/paths.ts:291-308 | a trailing separator does not change the base name |
| Paths.BasenameOfJoin | common/src/paths.ts:291-308 | a path built as dir/name has base name name |
| Paths.Basename | common/src/paths.ts:241-309 | basename runs the extension scan when an extension no longer than the path is given, and the plain scan otherwise |
| Paths.BasenameWithExt | common/src/paths.ts:249-290 | the scan strips a matching extension, following the code as written |
| Paths.MatchExtChar | common/src/paths.ts:269-283 | one character compared with the extension from the right |
| Paths.ExtScanResult | common/src/paths.ts:287-289 | the end of the scan yields the component, cut before a fully matched extension |
| Paths.MatchCountMeaning | common/src/paths.ts:269-283 | the extension is fully matched exactly when it ends the text, and partly matched exactly when the text is a shorter tail of it |
| Paths.BasenameAsIntended | common/src/paths.ts:241-309 | without trailing separators, basename is the component without an extension that ends it |
| Paths.BasenameTrailingSlashQuirk | common/src/paths.ts:249-289 | basename of b/ with extension ab gives b/, not b |
| Paths.BasenameIntended | common/src/paths.ts:241-309 | the intended base name holds no separator and is the last component, that component without the extension, or empty |
| Paths.Extname | common/src/paths.ts:311-359 | extname gives the text from the last dot of the last component, or nothing |
| Paths.ScanDot | common/src/paths.ts:337-345 | one character of the component updates the last dot and the state before it |
| Paths.ExtResult | common/src/paths.ts:348-358 | no extension without a dot, for a leading only dot, or for a dot-dot component |
| Paths.ExtnameShape | common/src/paths.ts:311-359 | an extension is empty or starts with its only dot, holds no separator, and ends the base name |
| Manifest.Field | src/manifest.ts:133-181 | a value that is not an object has none of the properties the validator reads |
| Manifest.GetType | src/manifest.ts:87-95 | each JSON kind maps to its own type, and a number or undefined to unknown |
| Manifest.JsonPathToString | src/manifest.ts:108-126 | the printed path is the pieces of its keys, in order |
| Manifest.AppendKeys | src/manifest.ts:113-123 | the loop prints the pieces of every key |
| Manifest.AppendKey | src/manifest.ts:114-122 | an index prints as [n], an identifier after a dot (none at the start), any other key quoted in brackets |
| Manifest.PathOfIdentifiers | src/manifest.ts:117-119 | a path of identifiers prints as the keys joined with dots |
| Manifest.PathOfIndex | src/manifest.ts:115-116 | an index prints as [n] wherever it is |
| Manifest.Messages | src/manifest.ts:264-267 | the message of each problem, in order |
| Manifest.EntryProblems | src/manifest.ts:288-292 | nothing is recorded exactly when every checked property is a string |
| Manifest.ItemProblems | src/manifest.ts:349-353 | nothing is recorded exactly when every checked item is a string |
| Manifest.LocalizedProblems | src/manifest.ts:274-293 | nothing is recorded exactly for a string, an object of strings, or an allowed absent value |
| Manifest.EachItemClean | src/manifest.ts:157-161 | checking items one by one records nothing exactly when each passes |
| Manifest.EachItemReported | src/manifest.ts:301-305 | the problems of every item are all recorded |
| Manifest.KeywordProblems | src/manifest.ts:159 | a keyword draws no problem exactly when it is a localized string |
| Manifest.PersonFieldProblems | src/manifest.ts:316-324 | the person's fields draw no problem exactly when name is localized and the others are localized or absent |
| Manifest.PersonProblems | src/manifest.ts:308-325 | a person draws no problem exactly when it is a string or a valid person object |
| Manifest.KeywordsProblems | src/manifest.ts:155-163 | keywords draw no problem exactly when absent or an array of localized strings |
| Manifest.PeopleProblems | src/manifest.ts:295-306 | people draw no problem exactly when absent or an array of persons |
| Manifest.DependenciesProblems | src/manifest.ts:327-341 | dependencies draw no problem exactly when absent or an object of strings |
| Manifest.AssetsProblems | src/manifest.ts:343-354 | assets draw no problem exactly when absent or an array of strings |
| Manifest.ValidateAcceptsExactly | src/manifest.ts:133-181 | validate records no problem exactly for a well-formed manifest |
| Manifest.IdentityAcceptsExactly | src/manifest.ts:134-154 | the checks of id, version, license and the texts pass exactly on well-formed fields |
| Manifest.LegacyAcceptsExactly | src/manifest.ts:187-221 | validateLegacy records no problem exactly for a well-formed legacy manifest |
| Manifest.LegacyHeadAcceptsExactly | src/manifest.ts:188-203 | the legacy head passes exactly when name and version are strings and the other texts are strings or absent |
| Manifest.IdRule | src/manifest.ts:139-147 | a string id outside the id pattern is reported unless the relaxed checks are asked for |
| Manifest.EveryBadEntryReported | src/manifest.ts:288-292 | every property that is not a string has its own problem |
| Manifest.EveryBadItemReported | src/manifest.ts:349-353 | every asset that is not a string has its own problem |
| Manifest.EveryBadKeywordReported | src/manifest.ts:157-161 | every bad keyword has problems of its own, all recorded |
| Manifest.PersonFields | src/manifest.ts:316-324 | in a person object, name is required and email, url and comment are optional |
| Manifest.ConvertedId | src/manifest.ts:225 | the id is the legacy name |
| Manifest.ConvertedVersion | src/manifest.ts:226 | the version is kept |
| Manifest.ConvertedLicense | src/manifest.ts:227 | the license is kept |
| Manifest.ConvertedTitle | src/manifest.ts:229-232 | the title is the human-readable name in English, or the name when there is none |
| Manifest.ConvertedDescription | src/manifest.ts:233-236 | the description is put in English when present |
| Manifest.ConvertedHomepage | src/manifest.ts:237-238 | the homepage is put in English when present |
| Manifest.ConvertedDependencies | src/manifest.ts:240-243 | ccmodDependencies wins over dependencies |
| Manifest.ConvertedAssets | src/manifest.ts:245 | the assets are kept |
| Manifest.ConvertedLoadAsScript | src/manifest.ts:247 | a legacy mod loads as a script unless module is truthy |
| Manifest.ConvertedMain | src/manifest.ts:248 | plugin becomes main |
| Manifest.ConvertedPreload | src/manifest.ts:249 | preload is kept |
| Manifest.ConvertedPostload | src/manifest.ts:250 | postload is kept |
| Manifest.ConvertedPrestart | src/manifest.ts:251 | prestart is kept |
| Manifest.ConvertedPoststart | src/manifest.ts:252 | the legacy main becomes poststart |
| Manifest.ConvertedAbsent | src/manifest.ts:223-254 | keywords, authors and assetsDir are absent after conversion |
| Manifest.ConvertFromLegacy | src/manifest.ts:223-254 | an object literal of the current manifest shape; its fields are stated by the Converted lemmas |
| Manifest.ConvertFromLegacyFields | src/manifest.ts:223-254 | the converted fields, read back, all together |
| Manifest.ConvertedLegacyIsValid | src/manifest.ts:187-254 | a legacy manifest that validateLegacy accepts converts to one that validate accepts with the relaxed checks |
| Manifest.ConvertedIdentity | src/manifest.ts:187-254 | the converted id, version, license and texts are well formed |
| Manifest.ConvertedContent | src/manifest.ts:187-254 | the converted dependencies, assets and entry points are well formed |
| ManifestValidator.ErrorMessage | src/manifest.ts:97-101 | a line break, then one `- p` line per problem: no problem gives the line break alone, and problems without line breaks split back into those lines |
| ManifestValidator.ManifestUtil.constructor | src/manifest.ts:131 | the validator starts with no problem recorded |
| ManifestValidator.ManifestUtil.AssertType | src/manifest.ts:256-272 | answers whether the value has an allowed type and records the type problem otherwise |
| ManifestValidator.ManifestUtil.AssertEntryStrings | src/manifest.ts:288-292 | true exactly when every property is a string, recording each one that is not |
| ManifestValidator.ManifestUtil.AssertItemStrings | src/manifest.ts:349-353 | true exactly when every item is a string, recording each one that is not |
| ManifestValidator.ManifestUtil.AssertLocalizedString | src/manifest.ts:274-293 | true exactly for a valid localized string, recording its problems |
| ManifestValidator.ManifestUtil.AssertKeywordItems | src/manifest.ts:157-161 | true exactly when every keyword is localized, recording each one's problems |
| ManifestValidator.ManifestUtil.AssertKeywords | src/manifest.ts:155-163 | true exactly for valid keywords |
| ManifestValidator.ManifestUtil.AssertPerson | src/manifest.ts:308-325 | true exactly for a valid person |
| ManifestValidator.ManifestUtil.AssertPeople | src/manifest.ts:295-306 | true exactly for a valid list of people |
| ManifestValidator.ManifestUtil.AssertPeopleItems | src/manifest.ts:301-305 | true exactly when every item is a person |
| ManifestValidator.ManifestUtil.AssertDependencies | src/manifest.ts:327-341 | true exactly for valid dependencies |
| ManifestValidator.ManifestUtil.AssertAssets | src/manifest.ts:343-354 | true exactly for a valid asset list |
| ManifestValidator.ManifestUtil.AssertId | src/manifest.ts:139-147 | records the id problem that the id rule gives |
| ManifestValidator.ManifestUtil.Validate | src/manifest.ts:133-181 | null or undefined throws a TypeError; otherwise it passes exactly a well-formed manifest and throws the recorded problems |
| ManifestValidator.ManifestUtil.ValidateIdentity | src/manifest.ts:134-154 | records the problems of the root, id, version, license and texts |
| ManifestValidator.ManifestUtil.ValidateContent | src/manifest.ts:155-180 | records all the problems of the manifest |
| ManifestValidator.ManifestUtil.ValidateLegacy | src/manifest.ts:187-221 | null or undefined throws a TypeError; otherwise it passes exactly a well-formed legacy manifest |
| ManifestValidator.ManifestUtil.ValidateLegacyHead | src/manifest.ts:188-203 | records the problems of the root and the plain string fields |
| ManifestValidator.ManifestUtil.ValidateLegacyRest | src/manifest.ts:205-220 | records all the problems of a legacy manifest |
| UiUtils.GetLocalizedString | runtime/src/ui/utils.ts:4-9 | null, undefined and strings are kept; a map gives the current language, else en_US |
| UiUtils.GetModTitle | runtime/src/ui/utils.ts:11-17 | the localized title unless it is missing or resolves to nothing, else the id |
| UiUtils.LocalizedOfValid | runtime/src/ui/utils.ts:4-9 | a valid localized string gives a string or nothing, in any language |
| UiUtils.TitleOfValidManifest | runtime/src/ui/utils.ts:11-17 | a valid manifest always shows a string title |
| UiUtils.TitleOfConvertedLegacy | runtime/src/ui/utils.ts:11-17 | a converted legacy mod shows its human-readable name, else its package name |
| Mods.SanitizeDep | src/mod.ts:127-132 | a bare string becomes the version of a dependency; details are kept |
| Mods.SanitizeDepIdempotent | src/mod.ts:127-132 | sanitizing twice is sanitizing once |
| Mods.OptionalFlag | src/mod.ts:35 | optional defaults to false only when null or undefined |
| Mods.DependencyResults | src/mod.ts:27-45 | each listed id builds its own dependency |
| Mods.BuildDependencies | src/mod.ts:27-45 | the constructor's loop builds the dependency map of the manifest |
| Mods.BuildMap | src/mod.ts:27-45 | sets each id to what it builds, stopping at the first failure |
| Mods.DependenciesStopAt | src/mod.ts:32-42 | once a dependency fails, the construction keeps its message |
| Mods.DependenciesFailure | src/mod.ts:32-42 | construction fails exactly when some dependency fails, with the first failure's message |
| Mods.DependenciesContents | src/mod.ts:27-45 | the map holds exactly the listed ids, each with a dependency built for it |
| Mods.ManifestDependenciesContents | src/mod.ts:27-45 | the mod's dependencies are exactly the manifest's, each parsed from its own entry, optional defaulting to false |
| Mods.Mod.New | src/mod.ts:16-48 | a bad version or range gives its message; otherwise a fresh mod with the parsed version, the dependency map and the assets directory |
| Mods.Mod.constructor | src/mod.ts:16-48 | the mod's fields, from already parsed values |
| Mods.Mod.ResolvePath | src/mod.ts:123-125 | the path joined onto the root, then onto the base directory |
| Mods.JoinTwo | src/mod.ts:124 | join of two arguments joins the non-empty ones |
| Mods.RootedJoin | src/mod.ts:124 | join of the root and a path is the path behind two slashes |
| Mods.RootedSegments | src/mod.ts:124 | the rooted path adds exactly its own segments, resolved without climbing |
| Mods.ResolvedUnderBase | src/mod.ts:123-125 | a resolved path is the base directory's segments followed by the path's, with no dot-dot reaching below |
| Mods.ResolvedUnderEmptyBase | src/mod.ts:123-125 | with an empty base directory the result is absolute |
| Mods.ResolvedSegmentsNoClimb | src/mod.ts:123-125 | no segment a resolved path contributes is dot-dot |
| Mods.ResolvedKeepsTrailingSlash | src/mod.ts:47 | the assets directory keeps its trailing slash |
| Mods.AssetPathRelative | src/mod.ts:51-53 | a listed asset is relative |
| Mods.AssetPathNoClimb | src/mod.ts:51-53 | no segment of a listed asset is dot-dot |
| Mods.CollectedStopsAt | src/mod.ts:52 | once an entry is not a string, the collection stays failed |
| Mods.CollectedBuilt | src/mod.ts:52 | the asset set is built exactly when every entry is a string |
| Mods.CollectedContents | src/mod.ts:52 | the set holds exactly the images of the entries |
| Mods.ListedAssetsRelative | src/mod.ts:51-53 | every listed asset is relative and never climbs |
| Mods.Mod.FindAllAssets | src/mod.ts:50-57 | a listed manifest sets the assets from the list, else the desktop takes the search listing, else nothing changes; a non-string entry throws |
| Mods.StageMethodName | src/mod.ts:92-95 | main exactly for the poststart stage of a legacy mod, the stage's name otherwise |
| Mods.Mod.StageScript | src/mod.ts:107-111 | nothing for a missing script, the rooted resolved path for a string, an error otherwise |
| ModOrder.Set | src/dependency-resolver.ts:32 | Map.set: a new key goes last, an existing key keeps its place |
| ModOrder.Insert | src/dependency-resolver.ts:21 | insertion adds exactly the one mod |
| ModOrder.SortById | src/dependency-resolver.ts:21 | the sort is a permutation |
| ModOrder.InsertAscending | src/dependency-resolver.ts:21 | insertion keeps ids ascending |
| ModOrder.SortByIdAscending | src/dependency-resolver.ts:21 | mods with distinct ids come out in strictly increasing id order |
| DependencyResolver.RemoveAt | src/dependency-resolver.ts:31 | splice removes one element and keeps the others in order |
| DependencyResolver.RemoveAtKeeps | src/dependency-resolver.ts:31 | the list stays sorted and loses only the removed mod |
| DependencyResolver.Ids | src/dependency-resolver.ts:46-48 | the ids of the mods, in order |
| DependencyResolver.ModHasUnsortedInstalledDependencies | src/dependency-resolver.ts:56-65 | true exactly when the mod depends on an installed mod not yet placed |
| DependencyResolver.PlaceStep | src/dependency-resolver.ts:28-37 | placing a mod that waits on nothing keeps the split between order and remaining list |
| DependencyResolver.Place | src/dependency-resolver.ts:31-33 | splice the mod out, set it in the load order |
| DependencyResolver.PlacePass | src/dependency-resolver.ts:26-37 | one pass gives the list and order the pass definition gives, placing mods left to right; it either shrinks the list or finds a cycle, in which every remaining mod waits on an unplaced one |
| DependencyResolver.SortModsInLoadOrder | src/dependency-resolver.ts:11-54 | the result is the one the passes over the id-sorted list give, whatever order the installed mods come in; success is a load order of all installed mods, runtime first and each after its dependencies; a cycle names the remaining mods |
| DependencyResolver.PassStep | src/dependency-resolver.ts:28-36 | one turn of a pass: a mod that waits is stepped over; any other is spliced out and placed, and the pass goes on at the same index |
| DependencyResolver.SameModsSameOrder | src/dependency-resolver.ts:17-21 | any two listings of the installed mods sort to the same list |
| DependencyResolver.AscendingUnique | src/dependency-resolver.ts:21 | two lists sorted strictly by id with the same mods are the same list |
| DependencyResolver.UnsortedMods | src/dependency-resolver.ts:17-20 | every installed mod but the runtime mod, once each |
| DependencyResolver.StartConsistent | src/dependency-resolver.ts:13-21 | before the first pass only the runtime mod is placed |
| DependencyResolver.SortByIdMembers | src/dependency-resolver.ts:21 | sorting neither adds nor drops a mod |
| DependencyResolver.DoneIsLoadOrder | src/dependency-resolver.ts:23-53 | with nothing left, the order built is a load order |
| DependencyResolver.CycleAmongRemaining | src/dependency-resolver.ts:39-50 | every mod the cycle message names depends on another one it names |
| DependencyResolver.CheckDependencyConstraint | src/dependency-resolver.ts:93-136 | no problem exactly when an available version is in range, or nothing is available and the dependency is optional |
| DependencyResolver.InRange | src/dependency-resolver.ts:131-133 | a version out of range gives the range message |
| DependencyResolver.MissingRequiredDependency | src/dependency-resolver.ts:111-114 | a required dependency that is not installed is reported as such |
| DependencyResolver.VirtualPackageFirst | src/dependency-resolver.ts:103-105 | a virtual package answers for its id whatever mod is installed |
| DependencyResolver.DependencyChecks | src/dependency-resolver.ts:75-88 | one check per dependency, in order |
| DependencyResolver.VerifyModDependencies | src/dependency-resolver.ts:67-91 | the problems of the dependencies, in the order they are listed |
| DependencyResolver.ProblemsContents | src/dependency-resolver.ts:73-90 | a problem is reported exactly when a dependency has it, at most one per dependency |
| DependencyResolver.SelfDependencyReported | src/dependency-resolver.ts:76-77 | a mod that depends on itself is always reported |
| DependencyResolver.NoProblems | src/dependency-resolver.ts:67-91 | no problem exactly when every dependency other than the mod itself passes |
| ModDataStorage.ModIdOfKey | src/mod-data-storage.ts:106-108 | a captured id is non-empty, has no line terminator, and the key is its prefix plus it |
| ModDataStorage.KeyOfModId | src/mod-data-storage.ts:106-109 | the key of a capturable id gives the id back |
| ModDataStorage.KeyInjective | src/mod-data-storage.ts:125 | two ids with the same key are the same |
| ModDataStorage.EnabledIn | src/mod-data-storage.ts:129-131 | a mod without an entry is enabled |
| ModDataStorage.EnabledOfEntry | src/mod-data-storage.ts:129-135 | an entry made from enabled reads back as enabled |
| ModDataStorage.WithEnabled | src/mod-data-storage.ts:133-135 | get-or-insert then assign: a new entry, or the object or array with enabled set and its other properties kept; the assignment throws exactly on null and on primitives |
| ModDataStorage.Entries | src/mod-data-storage.ts:99 | Object.entries lists an object's properties in order, and throws on null and undefined |
| ModDataStorage.SetAllOrdered | src/mod-data-storage.ts:99-101 | setting entries keeps each key listed once |
| ModDataStorage.ModDataStorage.constructor | src/mod-data-storage.ts:36 | the store starts empty |
| ModDataStorage.ModDataStorage.Clear | src/mod-data-storage.ts:42 | clear empties the store |
| ModDataStorage.ModDataStorage.Set | src/mod-data-storage.ts:100 | set changes one entry, appending a new key |
| ModDataStorage.ModDataStorage.SetModEnabled | src/mod-data-storage.ts:133-135 | sets the enabled of a new, object or array entry, failing where the assignment throws; a new id goes last |
| ModDataStorage.ModDataStorage.Deserialize | src/mod-data-storage.ts:93-102 | a bad file gives its message and changes nothing; otherwise each entry is set in turn |
| ModDataStorage.ModDataStorage.SetEntries | src/mod-data-storage.ts:99-101 | the loop sets every entry in order |
| ModDataStorage.ModDataStorage.ReadFromLocalStorage | src/mod-data-storage.ts:104-112 | each modEnabled key sets its mod's entry from its value |
| ModDataStorage.ModDataStorage.ReadKey | src/mod-data-storage.ts:105-111 | a key that does not match changes nothing; a matching one sets its mod's entry to enabled exactly when the value is 1 |
| ModDataStorage.ModDataStorage.IsModEnabled | src/mod-data-storage.ts:129-131 | the entry's enabled, or true with no entry or a nullish enabled; never nullish |
| ModDataStorage.ModDataStorage.WriteToLocalStorage | src/mod-data-storage.ts:123-127 | each mod's key is set to 1 or 0 |
| ModDataStorage.ModDataStorage.Serialize | src/mod-data-storage.ts:114-121 | the file data: version 1 and the entries as a plain object lists them, array indices first, with no `__proto__` entry and arrays without their named properties |
| ModDataStorage.ModDataStorage.ReadImmediately | src/mod-data-storage.ts:41-56 | reads the settings file, or local storage when there is none; a missing file leaves the store empty |
| ModDataStorage.ModDataStorage.WriteImmediately | src/mod-data-storage.ts:58-65 | writes the file data where there is a file, else local storage |
| ModDataStorage.ReadEntry | src/mod-data-storage.ts:104-112 | a mod has an entry exactly when its key is stored, enabled exactly when the value is 1 |
| ModDataStorage.WrittenEntry | src/mod-data-storage.ts:123-127 | each mod's key holds 1 or 0 as enabled is truthy or not |
| ModDataStorage.LocalStorageRoundTrip | src/mod-data-storage.ts:104-127 | writing to local storage and reading back keeps whether each mod is enabled |
| ModDataStorage.OptionTrueReadsDisabled | src/mod-data-storage.ts:109 | a mod whose option stored true reads back as disabled |
| ModDataStorage.FileEntries | src/mod-data-storage.ts:93-102 | null throws, a version other than 1 is refused, otherwise the entries of data |
| ModDataStorage.FileRoundTrip | src/mod-data-storage.ts:93-121 | deserializing what serialize wrote into an empty store gives the saved entries, in the property order of a plain object |
| ModDataStorage.SavedEnabled | src/mod-data-storage.ts:114-135 | after the round trip each mod reads as enabled or not as before, except a `__proto__` mod and a mod whose entry is an array, which read as enabled |
| ModDataStorage.Saved | src/mod-data-storage.ts:120 | JSON.stringify keeps an array's elements and drops its named properties, and keeps any other entry |
| ModDataStorage.SavedEntries | src/mod-data-storage.ts:114-120 | the saved entries are those of every mod but `__proto__` |
| ModDataStorage.AddProperty | src/mod-data-storage.ts:117 | assigning a property adds exactly that key |
| ModDataStorage.PropertyOrderKeys | src/mod-data-storage.ts:115-118 | the object lists each assigned key but `__proto__`, once |
| ModDataStorage.PropertyOrderSorted | src/mod-data-storage.ts:115-118 | the object lists the array indices first, in increasing order |
| ModDataStorage.PropertyOrderNamed | src/mod-data-storage.ts:115-118 | the keys that are not array indices keep the order they were first assigned in |
| ModDataStorage.NumericIdsFirst | src/mod-data-storage.ts:115-118 | mods b, 10, a, 2 are written as 2, 10, b, a |
| ModDataStorage.RebuildEntries | src/mod-data-storage.ts:99-101 | setting a listing of the store into an empty store rebuilds it |
| ModDataStorage.SetThenIsEnabled | src/mod-data-storage.ts:129-135 | after setModEnabled on a mod with no entry or an object or array entry, isModEnabled gives the value set, and other mods are untouched |
| Console.LevelBit | common/src/console.ts:5-9 | each level has a bit below 3 |
| Console.LogLevelsToBitFlags | common/src/console.ts:22-29 | the loop ors in each shown level's bit |
| Console.AddLevelBit | common/src/console.ts:26 | one turn ors in exactly the next level's bit |
| Console.AllLevelBits | common/src/console.ts:22-29 | LOG sets bit 2, WARN bit 1, ERROR bit 0 |
| Console.LogLevelsFromBitFlags | common/src/console.ts:31-38 | each level is shown exactly when its bit is set |
| Console.BitFlagsLayout | common/src/console.ts:22-29 | the flags hold each level's bit and nothing above bit 2 |
| Console.BitFlagsRange | common/src/console.ts:22-29 | the flags are between 0 and 7 |
| Console.BitFlagsRoundTrip | common/src/console.ts:22-38 | reading the flags back gives the levels they came from |
| Console.LevelsOfRoundTrip | common/src/console.ts:22-38 | packing read levels keeps exactly the three low bits |
| Console.StoredLevels | common/src/console.ts:40-49 | missing or unparsable text gives the defaults; a safe integer gives the levels of its bits |
| Console.GetLogLevels | common/src/console.ts:40-49 | getLogLevels reads the stored levels |
| Console.SetLogLevels | common/src/console.ts:51-53 | stores the flags as decimal text and changes no other key |
| Console.SetThenGetLogLevels | common/src/console.ts:40-53 | setting the levels and reading them back gives the same levels |
| OptionsValues.StoredBitset | runtime/src/ui/options-values.ts:3-10 | missing, empty or unparsable text gives the default bitset; an integer within 2^53 is read exactly |
| OptionsValues.StoredPastPrecision | runtime/src/ui/options-values.ts:3-18 | the stored integer 2^53 + 1 is read as 2^53, so flag 0 reads as clear |
| OptionsValues.StoredWithFlag | runtime/src/ui/options-values.ts:12-28 | what setLogFlag stores reads back exactly |
| OptionsValues.GetLogFlagsBitset | runtime/src/ui/options-values.ts:3-10 | reads the stored bitset |
| OptionsValues.SetLogFlagsBitset | runtime/src/ui/options-values.ts:12-14 | stores the bitset as decimal text |
| OptionsValues.GetLogFlag | runtime/src/ui/options-values.ts:16-18 | gives the bit at the index mod 32 of the Number read, an infinity counting as 0 |
| OptionsValues.SetLogFlag | runtime/src/ui/options-values.ts:20-28 | stores the bitset with one flag set or cleared |
| OptionsValues.SetBitOps | runtime/src/ui/options-values.ts:22-26 | the or and and-not updates set exactly the one bit |
| OptionsValues.GetAfterSetLogFlag | runtime/src/ui/options-values.ts:16-28 | after setting a flag, getting it gives the value set |
| OptionsValues.SetLogFlagKeepsOthers | runtime/src/ui/options-values.ts:20-28 | setting a flag leaves every other flag as it was |
| OptionsValues.SetLogFlagIdempotent | runtime/src/ui/options-values.ts:20-28 | setting the same flag twice stores what once does |
| OptionsValues.LogOptionsMatchConsole | runtime/src/ui/options-values.ts:30-43 | each log option reads the console's bit of its level, and the default bitset is the console's default levels |
| OptionsValues.DefineModOptions | runtime/src/ui/options-values.ts:45-59 | the loop defines one option per installed mod but the runtime mod |
| OptionsValues.ModOptionIdsExactly | runtime/src/ui/options-values.ts:45-49 | an option exists exactly for the installed mods other than the runtime mod |
| OptionsValues.SetModEnabledOption | runtime/src/ui/options-values.ts:55-57 | stores true or false under the option id |
| OptionsValues.ModEnabledOptionRoundTrip | runtime/src/ui/options-values.ts:51-58 | reading an option after setting it gives the value set, and other options are untouched |
| Resources.ParseModUri | runtime/src/resources.ts:72-84 | a parsed URI is a slash-free non-empty mod id, a slash, and a non-empty path |
| Resources.ParseModUriOfParts | runtime/src/resources.ts:72-84 | parsing undoes id plus slash plus path |
| Resources.ParseModUriProblems | runtime/src/resources.ts:73-84 | which malformed text is rejected with which problem |
| Resources.ApplyModUrlProtocol | runtime/src/resources.ts:68-96 | nothing without the mod prefix; otherwise a rooted path or the thrown message |
| Resources.ModUrlOfLoadedMod | runtime/src/resources.ts:86-89 | a loaded mod's URL names its file, inside its directory whatever dot-dot it holds |
| Resources.ModUrlOfMissingMod | runtime/src/resources.ts:86-87 | a URL of a mod that is not loaded is rejected |
| Resources.Values | runtime/src/resources.ts:47 | the loaded mods in the map's order |
| Resources.OverridesFirst | runtime/src/resources.ts:46-53 | the first override comes from the first mod that ships the asset |
| Resources.OverridesNone | runtime/src/resources.ts:46-53 | no override exactly when no mod ships the asset |
| Resources.AssetOverrideChoice | runtime/src/resources.ts:42-64 | the URL is taken over by the first loaded mod that ships it, and by none if none does |
| Resources.ApplyAssetOverrides | runtime/src/resources.ts:42-64 | the loop collects the overrides and answers with the first |
| Resources.TransformUrl | runtime/src/resources.ts:38-40 | a mod URL is resolved, any other URL is overridden or kept |
| PatchList.MatchingPatchers | runtime/src/patch-list.ts:16-19 | at most one patcher per pattern entry |
| PatchList.PatchList.constructor | runtime/src/patch-list.ts:10-11 | both lists start empty |
| PatchList.PatchList.ForPath | runtime/src/patch-list.ts:13-25 | the matching pattern patchers, then the path's own |
| PatchList.PatchList.Add | runtime/src/patch-list.ts:27-34 | a path appends to its own list, a pattern to the pattern list |
| PatchList.MatchingAppend | runtime/src/patch-list.ts:16-19 | a new pattern adds its patcher at the end exactly when it matches |
| PatchList.MatchingOnlyMatches | runtime/src/patch-list.ts:16-19 | every pattern patcher returned was registered with a matching pattern |
| PatchList.Wrapped | runtime/src/patch-list.ts:44 | a bare function is wrapped with no dependencies |
| PatchList.ResourcePatchList.constructor | runtime/src/patch-list.ts:37-39 | a fresh empty list |
| PatchList.ResourcePatchList.Add | runtime/src/patch-list.ts:40-46 | wraps the patcher and adds it |
| DynamicJsonFiles.DynamicJsonFiles.constructor | runtime/src/dynamic-json-files.ts:4 | no generator registered |
| DynamicJsonFiles.DynamicJsonFiles.ForPath | runtime/src/dynamic-json-files.ts:6-16 | the generated value exactly for a registered path |
| DynamicJsonFiles.DynamicJsonFiles.Add | runtime/src/dynamic-json-files.ts:18-20 | registers the generator, replacing an earlier one |
| DynamicJsonFiles.AddThenForPath | runtime/src/dynamic-json-files.ts:6-20 | after add, the path gives the new generator's value and others answer as before |
| ImpactModuleHooks.FiringOrder | runtime/src/impact-module-hooks.ts:20-25 | the body runs first, then the module's callbacks in order |
| ImpactModuleHooks.Hooks.constructor | runtime/src/impact-module-hooks.ts:3 | no hook registered |
| ImpactModuleHooks.Hooks.Add | runtime/src/impact-module-hooks.ts:5-12 | the callback goes to the end of the module's list, and no other list changes |
| ImpactModuleHooks.Hooks.RunDefinition | runtime/src/impact-module-hooks.ts:17-25 | an unnamed module runs its body alone; a named one runs its body, then its callbacks |
| ImpactModuleHooks.FiresRegisteredInOrder | runtime/src/impact-module-hooks.ts:5-25 | after any adds, a module's definition runs its body, then exactly its callbacks in order |
| Deobf.TableName | src/deobf.ts:15-18 | the table is final exactly from version 1.1.0 on |
| Deobf.ParseLine | src/deobf.ts:26-31 | an entry's key is non-empty |
| Deobf.ParseLineSplits | src/deobf.ts:26-31 | a line is skipped exactly without a colon or starting with one; otherwise it is key, colon, value with a colon-free key |
| Deobf.Deobf.constructor | src/deobf.ts:9 | an empty table |
| Deobf.Deobf.Load | src/deobf.ts:11-34 | the table is the one made from the lines of the version's file |
| Deobf.Deobf.AddLines | src/deobf.ts:24-33 | the loop adds every line in turn |
| Deobf.Deobf.AddLine | src/deobf.ts:25-32 | a parsed line sets its key, any other changes nothing |
| Deobf.LineRoundTrip | src/deobf.ts:26-32 | a key, a colon and a value give back that key and value |
| Deobf.KeysOfTable | src/deobf.ts:24-33 | a key is in the table exactly when some line defines it |
| Deobf.LastLineWins | src/deobf.ts:32 | the last line that defines a key decides its value |
| DebugState.DebugState.constructor | runtime/src/patch-steps-debug-state.ts:4-6 | keeps the current mod's base directory |
| DebugState.DebugState.PrintFileInfo | runtime/src/patch-steps-debug-state.ts:8-21 | the printed path is resolved and the stack kept |
| DebugState.ModAddress | runtime/src/patch-steps-debug-state.ts:13-14 | a mod address is printed under the base directory |
| DebugState.GameAddress | runtime/src/patch-steps-debug-state.ts:16-17 | a game address is printed under assets |
| DebugState.NoColon | runtime/src/patch-steps-debug-state.ts:10-19 | a path without a colon is printed as it is, except mod and game, which print undefined after their base |
| DebugState.OtherProtocol | runtime/src/patch-steps-debug-state.ts:12-19 | any other protocol is printed as it is |
| DebugState.ThirdPieceDropped | runtime/src/patch-steps-debug-state.ts:10 | text after a second colon is dropped |

## Left out

- The console's output side (common/src/console.ts:55-194) is not modelled: DOM output, injecting into the console, `log` and `formatMessage`. It is I/O.
- The `Image` and `XMLHttpRequest` hooks of runtime/src/resources.ts:11-36 are not modelled; only the URL transformation they call is.
- The `console.warn` on conflicting asset overrides (runtime/src/resources.ts:55-61) is not modelled, since it is output only; the first override is still chosen.
- The asynchronous `write()` queue of src/mod-data-storage.ts:67-91 is not modelled. It is concurrency over the same writes `WriteImmediately` makes.
- The settings-file path computed in src/mod-data-storage.ts:16-34 is a parameter.
- File contents are the parsed JSON value. Text, encoding and `JSON.stringify` formatting are left out.
- `initClass` and the dynamic `import()` in `executeStage` (src/mod.ts:59-121) are not modelled. The model gives the class method name and the script path instead.
- Error objects are reduced to their message text. `errorHasMessage` and the rewriting of `err.message` show up only as the text they produce.
- Semver parsing, ranges, `satisfies` and version formatting are parameters: `parseVersion`, `parseRange`, `satisfies`, `versionText` and `rangeText`.
- `isModEnabled` inside `checkDependencyConstraint` is a parameter of the environment.
- The `depMod.version == null` branch of src/dependency-resolver.ts:116-118 is not modelled, because every installed mod has a version.
- The iteration order of `installedMods.values()` is not modelled, since the sort by id that follows makes it irrelevant.
- `IG_ROOT` and `process.cwd()` are parameters.
- A mod's id is the manifest's `id`.
- JSON numbers arrive as the text `String(n)` gives them, and no arithmetic is done on them.
- String lengths and indices in `Strings` and `Paths` count code points, not UTF-16 code units, and a lone surrogate cannot be represented. Only `Utils.Compare` works on the UTF-16 encoding, because there the difference changes the result.
- ModDataStorage.Entries: a string entry is listed one property per code point, where `Object.entries` lists one per UTF-16 code unit.
- ModDataStorage.Entries: an array's named properties are not listed, since an array made by `JSON.parse` has none.
- ModDataStorage.ModDataStorage.WriteToLocalStorage: a null or undefined entry is written as 0, where the source throws; in local-storage mode every entry comes from readFromLocalStorage or setModEnabled and is an object.
- Deobf.Deobf.AddLine: the table is a plain object, so in the source a line with the key `__proto__` sets no property; the model records it.
- ModDataStorage.Serialize: the prototype an entry under `__proto__` would give the data object is not modelled; the model keeps only that no property is made.
- OptionsValues.StoredBitset: the model rounds every integer exactly to the nearest double; engines may round numerals of more than 20 significant digits differently.
- `validateString` type checks are not modelled, because every argument is a string.
- `showDevTools`, `wait`, `errorHasCode` and `hasOwnProperty` in common/src/utils.ts are not modelled. They are I/O or unused by the core.
- `TABLES_DIR` and `files.loadText` are parameters of `Deobf`.
- The patch-step printing of `super.printFileInfo` is not modelled; only the file info handed to it is.
- Regular expressions in patch lists are predicates on the path.
- The `modEnabled-` options store `true` or `false`, while `readFromLocalStorage` treats only `1` as enabled. `ModDataStorage.OptionTrueReadsDisabled` states this; it is kept as an observation, not a finding.
- Mods.Mod.FindAllAssets: the recursive file search on the desktop is the parameter `listing`.
- The build and distribution scripts under scripts/ are not part of this model.

## Findings

| source | as written | input that shows it | evidently intended | confidence | as-written member | corrected member |
|---|---|---|---|---|---|---|
| common/src/paths.ts:249-289 | when the extension only partly matches a component that is followed by separators, the scan ends with `end` at -1 and returns the text up to the end of the path, separators included | `basename("b/", "ab")` returns `"b/"` | `"b"`: trailing separators are ignored as in every other case | not executed | Paths.BasenameTrailingSlashQuirk | Paths.BasenameIntended |
