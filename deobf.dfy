/**
 * The deobfuscation table: which table file belongs to a game version, and
 * how its lines become the map from readable to obfuscated identifiers.
 * Reading the file is a parameter (`loadText`, from path to contents).
 */
module Deobf {
  import opened Wrappers
  import Strings

  /** A game version as `SemVer` parses it; `prerelease` is the text after
      the `-`, empty for a release. */
  datatype SemVer = SemVer(major: nat, minor: nat, patch: nat, prerelease: string)

  /** `String(version)`: `major.minor.patch`, then `-prerelease` if any. */
  function VersionText(v: SemVer): string {
    Strings.NatToString(v.major) + "." + Strings.NatToString(v.minor) + "." + Strings.NatToString(v.patch) +
    (if v.prerelease == "" then "" else "-" + v.prerelease)
  }

  /** `version.compare('1.1.0') < 0`: a smaller version number, or 1.1.0
      itself with a prerelease tag, which ranks below the release. */
  predicate BeforeFinal(v: SemVer) {
    v.major < 1 ||
    (v.major == 1 && (v.minor < 1 || (v.minor == 1 && v.patch == 0 && v.prerelease != "")))
  }

  /** The name of the table file: `<version>-<hotfix>` before 1.1.0, and
      `final` from then on. */
  function TableName(gameVersion: SemVer, gameVersionHotfix: int): (name: string)
    ensures !BeforeFinal(gameVersion) <==> name == "final"
  {
    if BeforeFinal(gameVersion) then
      var name := VersionText(gameVersion) + "-" + Strings.IntToString(gameVersionHotfix);
      assert Strings.IsDigit(name[0]);
      name
    else "final"
  }

  /** What one line of a table adds: the text before its first colon and
      the text after it, or nothing when the line has no colon or starts
      with one (a comment). */
  function ParseLine(line: string): (entry: Option<(string, string)>)
    ensures entry.Some? ==> |entry.value.0| >= 1
  {
    var colonIndex := Strings.IndexOf(line, ':');
    if colonIndex <= 0 then None
    else Some((line[..colonIndex], line[colonIndex + 1..]))
  }

  /** A line is skipped exactly when it has no colon or starts with one;
      otherwise it is its key, a colon and its value, and the key holds no
      colon, so the value is all the text after the first colon. */
  lemma {:induction false} ParseLineSplits(line: string)
    ensures ParseLine(line).None? <==> ':' !in line || line[0] == ':'
    ensures ParseLine(line).Some? ==>
      ':' !in ParseLine(line).value.0 && line == ParseLine(line).value.0 + ":" + ParseLine(line).value.1
  {
    var colonIndex := Strings.IndexOf(line, ':');
    Strings.NotFound(line, ':');
    Strings.IndexOfFirst(line, ':');
    if colonIndex > 0 {
      assert line == line[..colonIndex] + ":" + line[colonIndex + 1..];
    }
  }

  /** The table after the first `n` lines: each line that `ParseLine`
      accepts sets its key to its value, over whatever an earlier line set. */
  function TableOf(lines: seq<string>, n: nat): map<string, string>
    requires n <= |lines|
  {
    if n == 0 then map[]
    else
      var table := TableOf(lines, n - 1);
      var entry := ParseLine(lines[n - 1]);
      if entry.None? then table else table[entry.value.0 := entry.value.1]
  }

  class Deobf {
    /** Where the table files are, from the loader's own location. */
    const tablesDir: string
    var table: map<string, string>

    constructor(tablesDir: string)
      ensures this.tablesDir == tablesDir && table == map[]
    {
      this.tablesDir := tablesDir;
      table := map[];
    }

    /** `load`: the table is emptied, then filled from the lines of the
        version's table file. */
    method Load(gameVersion: SemVer, gameVersionHotfix: int, loadText: string -> string)
      modifies this
      ensures var lines := Strings.Split(loadText(tablesDir + TableName(gameVersion, gameVersionHotfix) + ".txt"), '\n');
        table == TableOf(lines, |lines|)
    {
      var tableName := if BeforeFinal(gameVersion)
        then VersionText(gameVersion) + "-" + Strings.IntToString(gameVersionHotfix)
        else "final";
      var tablePath := tablesDir + tableName + ".txt";
      table := map[];
      var lines := Strings.Split(loadText(tablePath), '\n');
      AddLines(lines);
    }

    /** The loop of `load` over the lines of the table file. */
    method AddLines(lines: seq<string>)
      requires table == map[]
      modifies this
      ensures table == TableOf(lines, |lines|)
    {
      for i := 0 to |lines|
        invariant table == TableOf(lines, i)
      {
        AddLine(lines[i]);
      }
    }

    /** One pass of the loop of `load`: a line with a colon after its first
        character sets the text before the colon to the text after it. */
    method AddLine(line: string)
      modifies this
      ensures ParseLine(line).None? ==> table == old(table)
      ensures ParseLine(line).Some? ==> table == old(table)[ParseLine(line).value.0 := ParseLine(line).value.1]
    {
      var colonIndex := Strings.IndexOf(line, ':');
      if colonIndex <= 0 {
        return;
      }
      var deobfIdentifier := line[..colonIndex];
      var obfIdentifier := line[colonIndex + 1..];
      table := table[deobfIdentifier := obfIdentifier];
    }
  }

  /** A line `<key>:<value>` with a non-empty, colon-free key adds exactly
      that key and value; the value may hold further colons. */
  lemma {:induction false} LineRoundTrip(key: string, value: string)
    requires |key| >= 1 && ':' !in key
    ensures ParseLine(key + ":" + value) == Some((key, value))
  {
    var line := key + ":" + value;
    var entry := ParseLine(line);
    ParseLineSplits(line);
    assert line[|key|] == ':';
    assert ':' in line;
    assert line[0] == key[0];
    var k := entry.value.0;
    assert k == line[..|k|] == key;
    assert entry.value.1 == line[|key| + 1..] == value;
  }

  /** A key is in the table exactly when some line defines it. */
  lemma {:induction false} KeysOfTable(lines: seq<string>, n: nat, key: string)
    requires n <= |lines|
    ensures key in TableOf(lines, n) <==>
      exists j :: 0 <= j < n && ParseLine(lines[j]).Some? && ParseLine(lines[j]).value.0 == key
  {
    if n > 0 {
      KeysOfTable(lines, n - 1, key);
    }
  }

  /** For a key defined more than once, the last line that defines it
      decides its value. */
  lemma {:induction false} LastLineWins(lines: seq<string>, n: nat, j: nat, key: string, value: string)
    requires j < n <= |lines|
    requires ParseLine(lines[j]) == Some((key, value))
    requires forall i :: j < i < n ==> ParseLine(lines[i]).None? || ParseLine(lines[i]).value.0 != key
    ensures key in TableOf(lines, n) && TableOf(lines, n)[key] == value
  {
    var entry := ParseLine(lines[n - 1]);
    if n - 1 > j {
      LastLineWins(lines, n - 1, j, key, value);
      assert entry.None? || entry.value.0 != key;
    } else {
      assert entry == Some((key, value));
    }
  }
}
