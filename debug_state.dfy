/**
 * The patch-steps debug state of the runtime: before a file's position is
 * printed, its `mod:` or `game:` address is rewritten into a path. Printing
 * itself belongs to the patch-steps library and is left out; the model
 * returns the file information that would be printed.
 */
module DebugState {
  import Strings

  /** A patch-steps stack entry; its contents are passed through untouched. */
  datatype StackEntry = StackEntry(text: string)

  /** `patchsteps.FileInfo` */
  datatype FileInfo = FileInfo(path: string, stack: seq<StackEntry>)

  /** The path part of `path.split(':')`: the second piece, or the text
      `undefined` that a template string makes of a missing one. */
  function SecondPiece(path: string): (r: string)
  {
    var parts := Strings.Split(path, ':');
    if |parts| >= 2 then parts[1] else "undefined"
  }

  /** The path `printFileInfo` prints for `path`: a `mod:` address is read
      under the current mod's base directory, a `game:` address under
      `assets/`, and any other path is printed as it is. */
  function ResolvedPath(currentModBaseDir: string, path: string): string {
    var protocol := Strings.Split(path, ':')[0];
    if protocol == "mod" then currentModBaseDir + SecondPiece(path)
    else if protocol == "game" then "assets/" + SecondPiece(path)
    else path
  }

  class DebugState {
    const currentModBaseDir: string

    constructor(currentModBaseDir: string)
      ensures this.currentModBaseDir == currentModBaseDir
    {
      this.currentModBaseDir := currentModBaseDir;
    }

    /** `printFileInfo`: a copy of `file` with its path resolved; the
        stack is kept and `file` itself, a value, cannot change. */
    method PrintFileInfo(file: FileInfo) returns (printed: FileInfo)
      ensures printed.path == ResolvedPath(currentModBaseDir, file.path)
      ensures printed.stack == file.stack
    {
      var parts := Strings.Split(file.path, ':');
      var protocol := parts[0];
      var path := if |parts| >= 2 then parts[1] else "undefined";
      printed := file;
      if protocol == "mod" {
        printed := printed.(path := currentModBaseDir + path);
      } else if protocol == "game" {
        printed := printed.(path := "assets/" + path);
      }
    }
  }

  /** `mod:<p>` for a colon-free `p` is printed as `p` under the base. */
  lemma {:induction false} ModAddress(currentModBaseDir: string, p: string)
    requires ':' !in p
    ensures ResolvedPath(currentModBaseDir, "mod:" + p) == currentModBaseDir + p
  {
    assert "mod:" + p == "mod" + ":" + p;
    TwoPieces("mod", p);
  }

  /** `game:<p>` for a colon-free `p` is printed as `assets/<p>`. */
  lemma {:induction false} GameAddress(currentModBaseDir: string, p: string)
    requires ':' !in p
    ensures ResolvedPath(currentModBaseDir, "game:" + p) == "assets/" + p
  {
    assert "game:" + p == "game" + ":" + p;
    TwoPieces("game", p);
  }

  /** A path with no colon is printed unchanged, unless it is exactly
      `mod` or `game`, which print the base or `assets/` followed by
      `undefined`. */
  lemma {:induction false} NoColon(currentModBaseDir: string, path: string)
    requires ':' !in path
    ensures path == "mod" ==> ResolvedPath(currentModBaseDir, path) == currentModBaseDir + "undefined"
    ensures path == "game" ==> ResolvedPath(currentModBaseDir, path) == "assets/undefined"
    ensures path != "mod" && path != "game" ==> ResolvedPath(currentModBaseDir, path) == path
  {
    Strings.SplitNoSeparator(path, ':');
  }

  /** A path whose protocol is neither `mod` nor `game` is printed
      unchanged. */
  lemma {:induction false} OtherProtocol(currentModBaseDir: string, protocol: string, rest: string)
    requires ':' !in protocol && protocol != "mod" && protocol != "game"
    ensures ResolvedPath(currentModBaseDir, protocol + ":" + rest) == protocol + ":" + rest
  {
    Strings.SplitConcat(protocol, rest, ':');
    Strings.SplitNoSeparator(protocol, ':');
  }

  /** Only the text between the first and the second colon is kept: in
      `mod:<p>:<q>` the `:<q>` is dropped. */
  lemma {:induction false} ThirdPieceDropped(currentModBaseDir: string, p: string, q: string)
    requires ':' !in p
    ensures ResolvedPath(currentModBaseDir, "mod:" + p + ":" + q) == currentModBaseDir + p
  {
    var s := "mod:" + p + ":" + q;
    assert s == "mod" + [':'] + (p + ":" + q);
    Strings.SplitConcat("mod", p + ":" + q, ':');
    Strings.SplitNoSeparator("mod", ':');
    assert p + ":" + q == p + [':'] + q;
    Strings.SplitConcat(p, q, ':');
    Strings.SplitNoSeparator(p, ':');
  }

  /** `<protocol>:<p>` splits into the protocol and `p`. */
  lemma {:induction false} TwoPieces(protocol: string, p: string)
    requires ':' !in protocol && ':' !in p
    ensures Strings.Split(protocol + ":" + p, ':') == [protocol, p]
  {
    assert protocol + ":" + p == protocol + [':'] + p;
    Strings.SplitConcat(protocol, p, ':');
    Strings.SplitNoSeparator(protocol, ':');
    Strings.SplitNoSeparator(p, ':');
  }
}
