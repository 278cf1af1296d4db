/** The POSIX path library of the mod loader (a port of Node.js `path.posix`).
    Each operation that walks the string with an index loop is a method with
    that loop, proved equal to a specification function stated in terms of
    path segments; the functions and lemmas of the model use the
    specification functions. */
module Paths {
  import opened Wrappers
  import opened Strings

  // ---------------------------------------------------------------------
  // Segments and the segment stack that `normalizeString` maintains
  // ---------------------------------------------------------------------

  /** The segments of a path: the pieces between `/` separators. */
  function Segments(p: string): (segs: seq<string>)
    ensures |segs| >= 1
  {
    Split(p, '/')
  }

  /** A stack of resolved segments: no empty segment, no `.`, no `/` inside a
      segment, `..` only at the bottom, and no `..` at all when the path may
      not climb above its root. */
  ghost predicate CleanStack(stack: seq<string>, allowAboveRoot: bool) {
    && Segmentlike(stack)
    && (forall k :: 0 <= k < |stack| ==> stack[k] != ".")
    && (forall k :: 0 <= k < |stack| && !allowAboveRoot ==> stack[k] != "..")
    && (forall j, k :: 0 <= j < k < |stack| && stack[k] == ".." ==> stack[j] == "..")
  }

  /** Every element is a non-empty piece without separators. */
  ghost predicate Segmentlike(stack: seq<string>) {
    forall k :: 0 <= k < |stack| ==> stack[k] != "" && '/' !in stack[k]
  }

  function LastSegment(stack: seq<string>): string
    requires |stack| >= 1
  {
    stack[|stack| - 1]
  }

  /** One segment applied to the stack: empty and `.` segments are dropped,
      `..` removes the last real segment, or is kept when there is none and
      the path may climb above its start. */
  function Step(stack: seq<string>, seg: string, allowAboveRoot: bool): seq<string> {
    if seg == "" || seg == "." then stack
    else if seg == ".." then
      if |stack| > 0 && stack[|stack| - 1] != ".." then stack[..|stack| - 1]
      else if allowAboveRoot then stack + [".."]
      else stack
    else stack + [seg]
  }

  /** The segments applied one by one, left to right, to `start`. */
  function Fold(start: seq<string>, segs: seq<string>, allowAboveRoot: bool): seq<string> {
    if |segs| == 0 then start
    else Step(Fold(start, segs[..|segs| - 1], allowAboveRoot), segs[|segs| - 1], allowAboveRoot)
  }

  /** The resolved segments of a path. */
  function NormalStack(p: string, allowAboveRoot: bool): seq<string> {
    Fold([], Segments(p), allowAboveRoot)
  }

  /** Applying separator-free segments keeps a stack clean. */
  lemma {:induction false} FoldClean(start: seq<string>, segs: seq<string>, allowAboveRoot: bool)
    requires CleanStack(start, allowAboveRoot)
    requires forall k :: 0 <= k < |segs| ==> '/' !in segs[k]
    ensures CleanStack(Fold(start, segs, allowAboveRoot), allowAboveRoot)
  {
    if |segs| > 0 {
      FoldClean(start, segs[..|segs| - 1], allowAboveRoot);
      var before := Fold(start, segs[..|segs| - 1], allowAboveRoot);
      var seg := segs[|segs| - 1];
      if seg == ".." && |before| > 0 && before[|before| - 1] != ".." {
        assert Step(before, seg, allowAboveRoot) == before[..|before| - 1];
      }
    }
  }

  /** What `normalizeString` produces has no empty segment, no `.` segment,
      `..` only at its start, and no `..` at all when the path may not climb
      above its root. */
  lemma {:induction false} NormalStackClean(p: string, allowAboveRoot: bool)
    ensures CleanStack(NormalStack(p, allowAboveRoot), allowAboveRoot)
  {
    SplitPieces(p, '/');
    FoldClean([], Segments(p), allowAboveRoot);
  }

  /** `normalizeString`, specified: the resolved segments joined by `/`. */
  function NormalizeStringSpec(p: string, allowAboveRoot: bool): string {
    Join(NormalStack(p, allowAboveRoot), "/")
  }

  // ---------------------------------------------------------------------
  // Facts about joined stacks used by the loop proofs
  // ---------------------------------------------------------------------

  lemma {:induction false} JoinEndsWithLast(stack: seq<string>)
    requires |stack| >= 1
    ensures |Join(stack, "/")| >= |stack[|stack| - 1]|
    ensures Join(stack, "/")[|Join(stack, "/")| - |stack[|stack| - 1]|..] == stack[|stack| - 1]
  {
  }

  lemma {:induction false} JoinEmpty(stack: seq<string>)
    requires forall k :: 0 <= k < |stack| ==> stack[k] != ""
    ensures Join(stack, "/") == "" <==> stack == []
  {
    if |stack| >= 1 {
      JoinEndsWithLast(stack);
    }
  }

  lemma {:induction false} JoinLength(stack: seq<string>)
    requires forall k :: 0 <= k < |stack| ==> stack[k] != ""
    ensures |stack| >= 2 ==> |Join(stack, "/")| >= 3
    ensures |stack| >= 1 ==> |Join(stack, "/")| >= 1
  {
    if |stack| >= 2 {
      JoinLength(stack[..|stack| - 1]);
    }
  }

  lemma {:induction false} JoinNoSlash(stack: seq<string>)
    requires |stack| <= 1
    requires forall k :: 0 <= k < |stack| ==> '/' !in stack[k]
    ensures '/' !in Join(stack, "/")
  {
  }

  /** The last separator of a joined stack sits right after the join of all
      but the last segment. */
  lemma {:induction false} LastSlashOfJoin(stack: seq<string>)
    requires |stack| >= 1
    requires forall k :: 0 <= k < |stack| ==> '/' !in stack[k]
    ensures LastIndexOf(Join(stack, "/"), '/')
            == if |stack| == 1 then -1 else |Join(stack[..|stack| - 1], "/")|
  {
    var s := Join(stack, "/");
    if |stack| >= 2 {
      var init := Join(stack[..|stack| - 1], "/");
      var last := stack[|stack| - 1];
      assert s == init + "/" + last;
      LastIndexOfLast(s, '/');
      assert s[|init|] == '/';
      assert s[|init| + 1..] == last;
    }
  }

  // ---------------------------------------------------------------------
  // normalizeString
  // ---------------------------------------------------------------------

  /** The text before index `lastSlash` (or nothing when it is -1). */
  function Processed(path: string, lastSlash: int): string
    requires -1 <= lastSlash <= |path|
  {
    if lastSlash < 0 then "" else path[..lastSlash]
  }

  /** The loop's count of dots in `path[lo..hi]`: its length when that
      text is made of dots only, -1 otherwise. */
  function DotCount(path: string, lo: int, hi: int): int
    requires 0 <= lo <= hi <= |path|
    decreases hi - lo
  {
    if hi == lo then 0
    else
      var d := DotCount(path, lo, hi - 1);
      if path[hi - 1] == '.' && d != -1 then d + 1 else -1
  }

  lemma {:induction false} DotCountMeaning(path: string, lo: int, hi: int)
    requires 0 <= lo <= hi <= |path|
    ensures DotCount(path, lo, hi) == 0 <==> hi == lo
    ensures DotCount(path, lo, hi) == 1 <==> path[lo..hi] == "."
    ensures DotCount(path, lo, hi) == 2 <==> path[lo..hi] == ".."
    decreases hi - lo
  {
    if hi > lo {
      DotCountMeaning(path, lo, hi - 1);
      assert path[lo..hi] == path[lo..hi - 1] + [path[hi - 1]];
    }
  }

  /** Closing the segment between `lastSlash` and `e` adds exactly that
      segment to the stack of the text before `lastSlash`. */
  lemma {:induction false} SegmentStep(path: string, lastSlash: int, e: int, allowAboveRoot: bool)
    requires -1 <= lastSlash < e <= |path|
    requires lastSlash >= 0 ==> path[lastSlash] == '/'
    requires '/' !in path[lastSlash + 1..e]
    ensures Fold([], Segments(path[..e]), allowAboveRoot)
            == Step(NormalStack(Processed(path, lastSlash), allowAboveRoot), path[lastSlash + 1..e], allowAboveRoot)
  {
    var seg := path[lastSlash + 1..e];
    if lastSlash < 0 {
      SplitNoSeparator(seg, '/');
      assert path[..e] == seg;
      assert Segments("") == [""];
    } else {
      assert path[..e] == path[..lastSlash] + ['/'] + seg;
      SplitLast(path[..lastSlash], seg, '/');
      var segs := Segments(path[..lastSlash]);
      assert (segs + [seg])[..|segs|] == segs;
    }
  }

  /** A trailing separator adds nothing. */
  lemma {:induction false} TrailingSlash(path: string, allowAboveRoot: bool)
    requires |path| > 0 && path[|path| - 1] == '/'
    ensures NormalStack(path, allowAboveRoot) == NormalStack(path[..|path| - 1], allowAboveRoot)
  {
    var front := path[..|path| - 1];
    assert path == front + ['/'] + "";
    SplitLast(front, "", '/');
    var segs := Segments(front);
    assert (segs + [""])[..|segs|] == segs;
  }

  /** Appending a separator-free segment keeps a stack segment-like. */
  lemma {:induction false} StepSegmentlike(stack: seq<string>, seg: string, allowAboveRoot: bool)
    requires Segmentlike(stack)
    requires '/' !in seg
    ensures Segmentlike(Step(stack, seg, allowAboveRoot))
  {
  }

  /** Closing the segment that ends at the separator (or end of input) at
      `i`: the stack of the text before `i` is one `Step` on from the stack
      before `lastSlash`. */
  lemma {:induction false} AdvanceSegment(path: string, lastSlash: int, i: int, allowAboveRoot: bool, stack: seq<string>)
    requires -1 <= lastSlash < i <= |path|
    requires lastSlash >= 0 ==> path[lastSlash] == '/'
    requires forall k :: lastSlash < k < i ==> path[k] != '/'
    requires stack == NormalStack(Processed(path, lastSlash), allowAboveRoot)
    requires Segmentlike(stack)
    ensures NormalStack(Processed(path, i), allowAboveRoot) == Step(stack, path[lastSlash + 1..i], allowAboveRoot)
    ensures Segmentlike(Step(stack, path[lastSlash + 1..i], allowAboveRoot))
  {
    assert '/' !in path[lastSlash + 1..i];
    SegmentStep(path, lastSlash, i, allowAboveRoot);
    StepSegmentlike(stack, path[lastSlash + 1..i], allowAboveRoot);
  }

  /** The loop's state after the separator at `lastSlash`: `res` is the
      joined stack of the text before it, `lastSegmentLength` the length of
      that stack's last segment. */
  ghost predicate Resolved(path: string, lastSlash: int, allowAboveRoot: bool, res: string, lastSegmentLength: int)
    requires -1 <= lastSlash <= |path|
  {
    var stack := NormalStack(Processed(path, lastSlash), allowAboveRoot);
    && Segmentlike(stack)
    && res == Join(stack, "/")
    && (stack != [] ==> lastSegmentLength == |LastSegment(stack)|)
  }

  /** `normalizeString`: resolves `.` and `..` segments with one pass over
      the characters, keeping the result in `res` and the length of its last
      segment in `lastSegmentLength`. */
  method NormalizeString(path: string, allowAboveRoot: bool) returns (res: string)
    ensures res == NormalizeStringSpec(path, allowAboveRoot)
  {
    res := "";
    var lastSegmentLength := 0;
    var lastSlash := -1;
    var dots := 0;
    var code: char := '\0';
    ResolvedAtStart(path, allowAboveRoot);
    var i := 0;
    while i <= |path|
      invariant 0 <= i <= |path| + 1
      invariant -1 <= lastSlash < i && lastSlash <= |path|
      invariant lastSlash >= 0 && lastSlash < |path| ==> path[lastSlash] == '/'
      invariant forall k :: lastSlash < k < i && k < |path| ==> path[k] != '/'
      invariant i <= |path| ==> dots == DotCount(path, lastSlash + 1, i)
      invariant 0 < i <= |path| ==> code == path[i - 1]
      invariant i == 0 ==> code == '\0'
      invariant i == |path| + 1 ==> lastSlash == |path|
      invariant Resolved(path, lastSlash, allowAboveRoot, res, lastSegmentLength)
      decreases |path| + 1 - i
    {
      if i < |path| {
        code := path[i];
      } else if code == '/' {
        ResolvedAtEnd(path, lastSlash, allowAboveRoot, res, lastSegmentLength);
        break;
      } else {
        code := '/';
      }

      if code == '/' {
        res, lastSegmentLength := CloseSegment(path, lastSlash, i, dots, allowAboveRoot, res, lastSegmentLength);
        lastSlash := i;
        dots := 0;
      } else if code == '.' && dots != -1 {
        dots := dots + 1;
      } else {
        dots := -1;
      }
      i := i + 1;
    }
    if i == |path| + 1 {
      ResolvedAtEnd(path, lastSlash, allowAboveRoot, res, lastSegmentLength);
    }
  }

  lemma {:induction false} ResolvedAtStart(path: string, allowAboveRoot: bool)
    ensures Resolved(path, -1, allowAboveRoot, "", 0)
  {
    assert Segments("") == [""] && [""][..0] == [];
    assert Fold([], [""], allowAboveRoot) == [];
  }

  /** The state at the end of the input, or at a trailing separator, holds
      the whole result. */
  lemma {:induction false} ResolvedAtEnd(path: string, lastSlash: int, allowAboveRoot: bool, res: string, lastSegmentLength: int)
    requires lastSlash == |path| || (|path| > 0 && lastSlash == |path| - 1 && path[lastSlash] == '/')
    requires Resolved(path, lastSlash, allowAboveRoot, res, lastSegmentLength)
    ensures res == NormalizeStringSpec(path, allowAboveRoot)
  {
    if lastSlash == |path| {
      assert path[..|path|] == path;
    } else {
      TrailingSlash(path, allowAboveRoot);
    }
  }

  /** The state after the separator at `i` follows from the one before
      the separator at `lastSlash` by one `Step`. */
  lemma {:induction false} ResolvedStep(path: string, lastSlash: int, i: int, allowAboveRoot: bool, res: string, lastSegmentLength: int)
    requires -1 <= lastSlash < i <= |path|
    requires lastSlash >= 0 ==> path[lastSlash] == '/'
    requires forall k :: lastSlash < k < i ==> path[k] != '/'
    requires var next := Step(NormalStack(Processed(path, lastSlash), allowAboveRoot), path[lastSlash + 1..i], allowAboveRoot);
             && res == Join(next, "/")
             && (next != [] ==> lastSegmentLength == |LastSegment(next)|)
    ensures Resolved(path, i, allowAboveRoot, res, lastSegmentLength)
  {
    var stack := NormalStack(Processed(path, lastSlash), allowAboveRoot);
    NormalStackClean(Processed(path, lastSlash), allowAboveRoot);
    AdvanceSegment(path, lastSlash, i, allowAboveRoot, stack);
  }

  /** The loop's work at a separator (or the end of the input). */
  method CloseSegment(path: string, lastSlash: int, i: int, dots: int, allowAboveRoot: bool,
                      res: string, lastSegmentLength: int)
    returns (res': string, lastSegmentLength': int)
    requires -1 <= lastSlash < i <= |path|
    requires lastSlash >= 0 ==> path[lastSlash] == '/'
    requires forall k :: lastSlash < k < i ==> path[k] != '/'
    requires dots == DotCount(path, lastSlash + 1, i)
    requires Resolved(path, lastSlash, allowAboveRoot, res, lastSegmentLength)
    ensures Resolved(path, i, allowAboveRoot, res', lastSegmentLength')
  {
    ghost var stack := NormalStack(Processed(path, lastSlash), allowAboveRoot);
    res', lastSegmentLength' := ApplySegment(path, lastSlash, i, dots, allowAboveRoot, res, lastSegmentLength, stack);
    ResolvedStep(path, lastSlash, i, allowAboveRoot, res', lastSegmentLength');
  }

  /** The segment `path[lastSlash + 1..i]` applied to `res`: dropped when
      empty or `.`, closing the last segment when `..`, appended otherwise. */
  method ApplySegment(path: string, lastSlash: int, i: int, dots: int, allowAboveRoot: bool,
                      res: string, lastSegmentLength: int, ghost stack: seq<string>)
    returns (res': string, lastSegmentLength': int)
    requires -1 <= lastSlash < i <= |path|
    requires forall k :: lastSlash < k < i ==> path[k] != '/'
    requires dots == DotCount(path, lastSlash + 1, i)
    requires Segmentlike(stack)
    requires res == Join(stack, "/")
    requires stack != [] ==> lastSegmentLength == |LastSegment(stack)|
    ensures var next := Step(stack, path[lastSlash + 1..i], allowAboveRoot);
            && res' == Join(next, "/")
            && (next != [] ==> lastSegmentLength' == |LastSegment(next)|)
  {
    ghost var seg := path[lastSlash + 1..i];
    DotCountMeaning(path, lastSlash + 1, i);
    res', lastSegmentLength' := res, lastSegmentLength;
    if lastSlash == i - 1 || dots == 1 {
      // an empty or `.` segment changes nothing
    } else if dots == 2 {
      res', lastSegmentLength' := CloseDotDot(res, lastSegmentLength, allowAboveRoot, stack);
    } else {
      assert Step(stack, seg, allowAboveRoot) == stack + [seg];
      if |res| > 0 {
        res' := res + "/" + path[lastSlash + 1..i];
      } else {
        JoinEmpty(stack);
        res' := path[lastSlash + 1..i];
      }
      lastSegmentLength' := i - lastSlash - 1;
    }
  }

  /** The `..` case of the loop: drop the last segment of `res`, unless
      there is none or it is itself `..`; then append `..` when the path may
      climb above its start. */
  method CloseDotDot(res: string, lastSegmentLength: int, allowAboveRoot: bool, ghost stack: seq<string>)
    returns (res': string, lastSegmentLength': int)
    requires Segmentlike(stack)
    requires res == Join(stack, "/")
    requires stack != [] ==> lastSegmentLength == |LastSegment(stack)|
    ensures var next := Step(stack, "..", allowAboveRoot);
            && res' == Join(next, "/")
            && (next != [] ==> lastSegmentLength' == |LastSegment(next)|)
  {
    res', lastSegmentLength' := res, lastSegmentLength;
    ghost var next := Step(stack, "..", allowAboveRoot);
    var notAfterDotDot := ClosesAboveDotDot(res, lastSegmentLength, stack);
    if notAfterDotDot {
      if |res| > 2 {
        assert next == stack[..|stack| - 1];
        PopJoin(stack);
        var lastSlashIndex := LastIndexOf(res, '/');
        if lastSlashIndex == -1 {
          res' := "";
          lastSegmentLength' := 0;
        } else {
          res' := res[..lastSlashIndex];
          lastSegmentLength' := |res'| - 1 - LastIndexOf(res', '/');
        }
        return;
      } else if |res| != 0 {
        JoinLength(stack);
        assert |stack| == 1 && next == [];
        res' := "";
        lastSegmentLength' := 0;
        return;
      }
    }
    if allowAboveRoot {
      assert next == stack + [".."];
      res' := res + (if |res| > 0 then "/.." else "..");
      lastSegmentLength' := 2;
    } else {
      assert next == stack;
    }
  }

  /** Dropping the last segment of a joined stack, as the `..` case does with
      `lastIndexOf`, gives the join of the shorter stack and the length of its
      last segment. */
  lemma {:induction false} PopJoin(stack: seq<string>)
    requires |stack| >= 1
    requires Segmentlike(stack)
    ensures var res := Join(stack, "/");
            var cut := LastIndexOf(res, '/');
            var init := stack[..|stack| - 1];
            && (cut == -1 <==> |stack| == 1)
            && (cut >= 0 ==> res[..cut] == Join(init, "/"))
            && (cut >= 0 ==> |init| >= 1 && |res[..cut]| - 1 - LastIndexOf(res[..cut], '/') == |init[|init| - 1]|)
  {
    LastSlashOfJoin(stack);
    if |stack| >= 2 {
      var init := stack[..|stack| - 1];
      LastSlashOfJoin(init);
      if |init| >= 2 {
        assert init[..|init| - 1] == stack[..|stack| - 2];
        assert Join(init, "/") == Join(init[..|init| - 1], "/") + "/" + init[|init| - 1];
      }
    }
  }

  /** The guard of the `..` case: true unless the last segment of `res` is
      itself `..` (tested, as the source does, on the length of the last
      segment and the last two characters). */
  method ClosesAboveDotDot(res: string, lastSegmentLength: int, ghost stack: seq<string>)
    returns (b: bool)
    requires Segmentlike(stack)
    requires res == Join(stack, "/")
    requires stack != [] ==> lastSegmentLength == |LastSegment(stack)|
    ensures b <==> (stack == [] || LastSegment(stack) != "..")
    ensures stack == [] <==> |res| == 0
  {
    JoinEmpty(stack);
    if stack != [] {
      JoinEndsWithLast(stack);
      var last := stack[|stack| - 1];
      if |last| == 2 {
        assert res[|res| - 2..] == last;
        assert last == [res[|res| - 2], res[|res| - 1]];
      }
    }
    b := |res| < 2 || lastSegmentLength != 2 || res[|res| - 1] != '.' || res[|res| - 2] != '.';
  }

  // ---------------------------------------------------------------------
  // Facts about folding and joining whole stacks
  // ---------------------------------------------------------------------

  /** Folding two runs of segments is folding the first, then the second. */
  lemma {:induction false} FoldAppend(start: seq<string>, a: seq<string>, b: seq<string>, allowAboveRoot: bool)
    ensures Fold(start, a + b, allowAboveRoot) == Fold(Fold(start, a, allowAboveRoot), b, allowAboveRoot)
  {
    if |b| > 0 {
      var b' := b[..|b| - 1];
      assert (a + b)[..|a + b| - 1] == a + b';
      assert (a + b)[|a + b| - 1] == b[|b| - 1];
      FoldAppend(start, a, b', allowAboveRoot);
      calc {
        Fold(start, a + b, allowAboveRoot);
        Step(Fold(start, a + b', allowAboveRoot), b[|b| - 1], allowAboveRoot);
        Step(Fold(Fold(start, a, allowAboveRoot), b', allowAboveRoot), b[|b| - 1], allowAboveRoot);
      }
    } else {
      assert a + b == a;
    }
  }

  /** A clean stack, read back as segments, resolves to itself. */
  lemma {:induction false} FoldCleanIdentity(stack: seq<string>, allowAboveRoot: bool)
    requires CleanStack(stack, allowAboveRoot)
    ensures Fold([], stack, allowAboveRoot) == stack
  {
    if |stack| > 0 {
      var init := stack[..|stack| - 1];
      assert CleanStack(init, allowAboveRoot);
      FoldCleanIdentity(init, allowAboveRoot);
      if stack[|stack| - 1] == ".." {
        assert |init| > 0 ==> init[|init| - 1] == "..";
      }
    }
  }

  /** Segments that are neither empty, `.` nor `..` are pushed as they are. */
  lemma {:induction false} FoldPlain(start: seq<string>, segs: seq<string>, allowAboveRoot: bool)
    requires CleanStack(segs, false)
    ensures Fold(start, segs, allowAboveRoot) == start + segs
  {
    if |segs| > 0 {
      var init := segs[..|segs| - 1];
      assert CleanStack(init, false);
      FoldPlain(start, init, allowAboveRoot);
      assert start + segs == (start + init) + [segs[|segs| - 1]];
    }
  }

  /** A `..` at the bottom of a stack is never popped. */
  lemma {:induction false} FoldKeepsBottom(start: seq<string>, segs: seq<string>, allowAboveRoot: bool)
    requires |start| >= 1 && start[0] == ".."
    ensures |Fold(start, segs, allowAboveRoot)| >= 1 && Fold(start, segs, allowAboveRoot)[0] == ".."
  {
    if |segs| > 0 {
      FoldKeepsBottom(start, segs[..|segs| - 1], allowAboveRoot);
    }
  }

  /** The segments of a joined stack are the stack itself. */
  lemma {:induction false} SegmentsOfJoin(stack: seq<string>)
    requires Segmentlike(stack)
    ensures Segments(Join(stack, "/")) == if stack == [] then [""] else stack
  {
    if stack != [] {
      SplitJoin(stack, '/');
    }
  }

  /** A leading separator adds an empty first segment. */
  lemma {:induction false} SegmentsRooted(t: string)
    ensures Segments("/" + t) == [""] + Segments(t)
  {
    assert "/" + t == "" + ['/'] + t;
    SplitConcat("", t, '/');
  }

  /** A trailing separator adds an empty last segment. */
  lemma {:induction false} SegmentsTrailing(t: string)
    ensures Segments(t + "/") == Segments(t) + [""]
  {
    assert t + "/" == t + ['/'] + "";
    SplitConcat(t, "", '/');
  }

  /** A joined non-empty stack starts with its first segment. */
  lemma {:induction false} JoinStartsWithFirst(stack: seq<string>)
    requires |stack| >= 1
    ensures |Join(stack, "/")| >= |stack[0]|
    ensures Join(stack, "/")[..|stack[0]|] == stack[0]
  {
    if |stack| >= 2 {
      var init := stack[..|stack| - 1];
      JoinStartsWithFirst(init);
      assert Join(stack, "/") == Join(init, "/") + "/" + stack[|stack| - 1];
    }
  }

  /** A joined non-empty stack of segments neither starts nor ends with a
      separator. */
  lemma {:induction false} JoinEnds(stack: seq<string>)
    requires |stack| >= 1
    requires Segmentlike(stack)
    ensures var s := Join(stack, "/"); |s| >= 1 && s[0] != '/' && s[|s| - 1] != '/'
  {
    JoinStartsWithFirst(stack);
    JoinEndsWithLast(stack);
    var s := Join(stack, "/");
    var first := stack[0];
    var last := stack[|stack| - 1];
    assert s[0] == s[..|first|][0] == first[0];
    assert s[|s| - 1] == s[|s| - |last|..][|last| - 1] == last[|last| - 1];
  }

  // ---------------------------------------------------------------------
  // normalize, isAbsolute, stripRoot
  // ---------------------------------------------------------------------

  /** `isAbsolute`: a non-empty path that starts with `/`. */
  predicate IsAbsolute(path: string)
    ensures IsAbsolute(path) <==> |path| > 0 && path == "/" + path[1..]
  {
    |path| > 0 && path[0] == '/'
  }

  /** `stripRoot`: the path relative to `/`, i.e. without its one leading
      separator. */
  function StripRoot(path: string): (r: string)
    ensures IsAbsolute(path) ==> "/" + r == path
    ensures !IsAbsolute(path) ==> r == path
  {
    if IsAbsolute(path) then path[1..] else path
  }

  /** `normalize`, specified: the resolved segments, with the leading `/`
      of an absolute path and a trailing `/` kept; `.` for nothing. */
  function NormalizeSpec(path: string): string {
    if |path| == 0 then "."
    else
      var hasRoot := path[0] == '/';
      var trailingSeparator := path[|path| - 1] == '/';
      var s := NormalizeStringSpec(path, !hasRoot);
      if |s| == 0 then
        if hasRoot then "/" else if trailingSeparator then "./" else "."
      else Decorate(s, hasRoot, trailingSeparator)
  }

  /** The resolved text with the root and the trailing separator put back. */
  function Decorate(s: string, hasRoot: bool, trailingSeparator: bool): string {
    var t := if trailingSeparator then s + "/" else s;
    if hasRoot then "/" + t else t
  }

  /** `normalize`. */
  method Normalize(path: string) returns (r: string)
    ensures r == NormalizeSpec(path)
  {
    if |path| == 0 {
      return ".";
    }
    var hasRoot := path[0] == '/';
    var trailingSeparator := path[|path| - 1] == '/';
    var s := NormalizeString(path, !hasRoot);
    if |s| == 0 {
      if hasRoot {
        return "/";
      }
      return if trailingSeparator then "./" else ".";
    }
    if trailingSeparator {
      s := s + "/";
    }
    r := if hasRoot then "/" + s else s;
  }

  /** The normalized path is never empty, is absolute exactly when the
      input is, and ends with `/` exactly when the input does (or it is
      the root itself). */
  lemma {:induction false} NormalizeShape(path: string)
    ensures var r := NormalizeSpec(path);
            && |r| >= 1
            && (IsAbsolute(r) <==> IsAbsolute(path))
            && (r[|r| - 1] == '/' <==> (|path| > 0 && path[|path| - 1] == '/') || r == "/")
  {
    if |path| > 0 {
      var stack := NormalStack(path, path[0] != '/');
      NormalStackClean(path, path[0] != '/');
      JoinEmpty(stack);
      if stack != [] {
        JoinEnds(stack);
      }
    }
  }

  /** The segments of a normalized path: an empty one for the root, the
      resolved segments, and an empty one for a trailing separator. */
  lemma {:induction false} NormalizeSegments(path: string)
    requires |path| > 0
    requires NormalStack(path, path[0] != '/') != []
    ensures var hasRoot := path[0] == '/';
            var trailing := path[|path| - 1] == '/';
            Segments(NormalizeSpec(path))
            == (if hasRoot then [""] else []) + NormalStack(path, !hasRoot) + (if trailing then [""] else [])
  {
    var hasRoot := path[0] == '/';
    var stack := NormalStack(path, !hasRoot);
    NormalStackClean(path, !hasRoot);
    JoinEmpty(stack);
    SegmentsOfDecorate(stack, hasRoot, path[|path| - 1] == '/');
  }

  lemma {:induction false} SegmentsOfDecorate(stack: seq<string>, hasRoot: bool, trailing: bool)
    requires stack != [] && Segmentlike(stack)
    ensures Segments(Decorate(Join(stack, "/"), hasRoot, trailing))
            == (if hasRoot then [""] else []) + stack + (if trailing then [""] else [])
  {
    var s := Join(stack, "/");
    SegmentsOfJoin(stack);
    var t := if trailing then s + "/" else s;
    var tail := stack + (if trailing then [""] else []);
    assert Segments(t) == tail by {
      if trailing {
        SegmentsTrailing(s);
      }
    }
    if hasRoot {
      SegmentsRooted(t);
      assert Segments("/" + t) == [""] + tail;
    } else {
      assert [] + tail == tail;
    }
  }

  /** An absolute path never climbs above the root: no segment of its
      normalized form is `..`. */
  lemma {:induction false} NormalizeNoClimb(path: string)
    requires IsAbsolute(path)
    ensures forall k :: 0 <= k < |Segments(NormalizeSpec(path))| ==> Segments(NormalizeSpec(path))[k] != ".."
  {
    NormalStackClean(path, false);
    if NormalStack(path, false) == [] {
      NoClimbAtRoot(path);
    } else {
      NoClimbBelowRoot(path);
    }
  }

  /** An absolute path that resolves to the root normalizes to `/`. */
  lemma {:induction false} NoClimbAtRoot(path: string)
    requires IsAbsolute(path) && NormalStack(path, false) == []
    ensures Segments(NormalizeSpec(path)) == ["", ""]
  {
    JoinEmpty([]);
    assert NormalizeSpec(path) == "/";
    assert "/" == "" + ['/'] + "";
    SplitConcat("", "", '/');
  }

  /** Below the root, the segments of the normalized path are those of
      its resolved stack, which has no `..`. */
  lemma {:induction false} NoClimbBelowRoot(path: string)
    requires IsAbsolute(path) && NormalStack(path, false) != []
    requires CleanStack(NormalStack(path, false), false)
    ensures forall k :: 0 <= k < |Segments(NormalizeSpec(path))| ==> Segments(NormalizeSpec(path))[k] != ".."
  {
    var stack := NormalStack(path, false);
    var segs := Segments(NormalizeSpec(path));
    NormalizeSegments(path);
    var tail := if path[|path| - 1] == '/' then [""] else [];
    assert segs == [""] + stack + tail;
    forall k | 0 <= k < |segs|
      ensures segs[k] != ".."
    {
      if 1 <= k < 1 + |stack| {
        assert segs[k] == stack[k - 1];
      }
    }
  }

  /** A relative path keeps a leading `..` that nothing can resolve. */
  lemma {:induction false} NormalizeKeepsLeadingDotDot(rest: string)
    ensures var r := NormalizeSpec(".." + ['/'] + rest); |r| >= 2 && r[..2] == ".."
  {
    var stack := DotDotStack(rest);
    JoinStartsWithFirst(stack);
  }

  /** The resolved segments of `../rest`, with `..` allowed, start with
      `..`. */
  lemma {:induction false} DotDotStack(rest: string) returns (stack: seq<string>)
    ensures stack == NormalStack(".." + ['/'] + rest, true)
    ensures |stack| >= 1 && stack[0] == ".."
  {
    SplitConcat("..", rest, '/');
    SplitNoSeparator("..", '/');
    FoldAppend([], [".."], Segments(rest), true);
    assert Fold([], [".."], true) == [".."];
    FoldKeepsBottom([".."], Segments(rest), true);
    stack := NormalStack(".." + ['/'] + rest, true);
  }

  /** Normalizing twice is normalizing once. */
  lemma {:induction false} NormalizeIdempotent(path: string)
    ensures NormalizeSpec(NormalizeSpec(path)) == NormalizeSpec(path)
  {
    if |path| == 0 {
      NormalizeDot();
    } else {
      var hasRoot := path[0] == '/';
      var stack := NormalStack(path, !hasRoot);
      NormalStackClean(path, !hasRoot);
      JoinEmpty(stack);
      NormalizeShape(path);
      if stack == [] {
        if hasRoot {
          NormalizeRoot();
        } else {
          NormalizeDot();
        }
      } else {
        NormalizeStackTwice(path);
      }
    }
  }

  lemma {:induction false} NormalizeRoot()
    ensures NormalizeSpec("/") == "/"
  {
    SegmentsRooted("");
    assert Fold([], ["", ""], false) == [];
  }

  lemma {:induction false} NormalizeDot()
    ensures NormalizeSpec(".") == "."
    ensures NormalizeSpec("./") == "./"
  {
    SplitNoSeparator(".", '/');
    SegmentsTrailing(".");
    assert Fold([], [".", ""], true) == [];
    assert Fold([], ["."], true) == [];
  }

  /** A normalized path with segments resolves to the same segments. */
  lemma {:induction false} NormalizeStackTwice(path: string)
    requires |path| > 0
    requires NormalStack(path, path[0] != '/') != []
    ensures var r := NormalizeSpec(path);
            && |r| > 0 && (r[0] == '/' <==> path[0] == '/')
            && NormalStack(r, r[0] != '/') == NormalStack(path, path[0] != '/')
  {
    var hasRoot := path[0] == '/';
    var stack := NormalStack(path, !hasRoot);
    NormalStackClean(path, !hasRoot);
    NormalizeSegments(path);
    NormalizeShape(path);
    var front: seq<string> := if hasRoot then [""] else [];
    var back: seq<string> := if path[|path| - 1] == '/' then [""] else [];
    assert Segments(NormalizeSpec(path)) == front + stack + back;
    FoldAppend([], front + stack, back, !hasRoot);
    FoldAppend([], front, stack, !hasRoot);
    assert Fold([], front, !hasRoot) == [];
    FoldCleanIdentity(stack, !hasRoot);
    assert Fold(stack, back, !hasRoot) == stack;
  }

  // ---------------------------------------------------------------------
  // join
  // ---------------------------------------------------------------------

  /** The non-empty arguments joined by `/`, or nothing when there is none. */
  function JoinedArgs(args: seq<string>): Option<string> {
    if |args| == 0 then None
    else
      var joined := JoinedArgs(args[..|args| - 1]);
      var arg := args[|args| - 1];
      if |arg| == 0 then joined
      else if joined.None? then Some(arg)
      else Some(joined.value + "/" + arg)
  }

  /** The non-empty arguments, in order. */
  function NonEmpty(args: seq<string>): (r: seq<string>)
    ensures forall k :: 0 <= k < |r| ==> r[k] != ""
  {
    if |args| == 0 then []
    else if args[|args| - 1] == "" then NonEmpty(args[..|args| - 1])
    else NonEmpty(args[..|args| - 1]) + [args[|args| - 1]]
  }

  /** What `join` accumulates is the join of the non-empty arguments; there
      is nothing exactly when every argument is empty. */
  lemma {:induction false} JoinedArgsMeaning(args: seq<string>)
    ensures JoinedArgs(args).None? <==> NonEmpty(args) == []
    ensures JoinedArgs(args).Some? ==> JoinedArgs(args).value == Join(NonEmpty(args), "/")
  {
    if |args| > 0 {
      JoinedArgsMeaning(args[..|args| - 1]);
    }
  }

  /** `join`, specified: `.` when there is nothing to join, otherwise the
      normalized join. */
  function JoinPathsSpec(args: seq<string>): string {
    match JoinedArgs(args)
    case None => "."
    case Some(joined) => NormalizeSpec(joined)
  }

  /** `join`. */
  method JoinPaths(args: seq<string>) returns (r: string)
    ensures r == JoinPathsSpec(args)
  {
    if |args| == 0 {
      return ".";
    }
    var joined: Option<string> := None;
    for i := 0 to |args|
      invariant joined == JoinedArgs(args[..i])
    {
      var arg := args[i];
      assert args[..i + 1][..i] == args[..i];
      if |arg| > 0 {
        if joined.None? {
          joined := Some(arg);
        } else {
          joined := Some(joined.value + "/" + arg);
        }
      }
    }
    assert args[..|args|] == args;
    if joined.None? {
      return ".";
    }
    r := Normalize(joined.value);
  }

  /** With no argument, or only empty ones, `join` gives `.`; otherwise it
      gives the normalized join of the non-empty arguments, which is
      itself normalized. */
  lemma {:induction false} JoinPathsResult(args: seq<string>)
    ensures NonEmpty(args) == [] ==> JoinPathsSpec(args) == "."
    ensures NonEmpty(args) != [] ==> JoinPathsSpec(args) == NormalizeSpec(Join(NonEmpty(args), "/"))
    ensures NormalizeSpec(JoinPathsSpec(args)) == JoinPathsSpec(args)
  {
    JoinedArgsMeaning(args);
    match JoinedArgs(args)
    case None =>
      NormalizeDot();
    case Some(joined) =>
      NormalizeIdempotent(joined);
  }

  // ---------------------------------------------------------------------
  // resolve
  // ---------------------------------------------------------------------

  /** The text `resolve` gathers from `paths` (the working directory
      first, then the arguments): taken from the last path backwards, each
      non-empty one followed by `/`, up to and including the last absolute
      one; and whether an absolute one was reached. */
  function Gather(paths: seq<string>): (string, bool) {
    if |paths| == 0 then ("", false)
    else
      var path := paths[|paths| - 1];
      if |path| == 0 then Gather(paths[..|paths| - 1])
      else if path[0] == '/' then (path + "/", true)
      else
        var before := Gather(paths[..|paths| - 1]);
        (before.0 + path + "/", before.1)
  }

  /** `resolve`, specified, with `process.cwd()` as the parameter `cwd`. */
  function ResolveSpec(args: seq<string>, cwd: string): (r: string)
    ensures |r| >= 1
  {
    var (resolvedPath, resolvedAbsolute) := Gather([cwd] + args);
    var normalized := NormalizeStringSpec(resolvedPath, !resolvedAbsolute);
    if resolvedAbsolute then "/" + normalized
    else if |normalized| > 0 then normalized
    else "."
  }

  /** The loop state of `resolve` once the paths before index `n` remain:
      the gathered text is what those paths give, followed by `resolvedPath`
      (or `resolvedPath` alone once an absolute path was met). */
  ghost predicate Gathered(paths: seq<string>, n: int, resolvedPath: string, resolvedAbsolute: bool)
    requires 0 <= n <= |paths|
  {
    Gather(paths) == if resolvedAbsolute then (resolvedPath, true)
                     else (Gather(paths[..n]).0 + resolvedPath, Gather(paths[..n]).1)
  }

  /** One more path taken into the gathered text. */
  lemma {:induction false} GatheredStep(paths: seq<string>, n: int, resolvedPath: string)
    requires 1 <= n <= |paths|
    requires Gathered(paths, n, resolvedPath, false)
    ensures var path := paths[n - 1];
            && (|path| == 0 ==> Gathered(paths, n - 1, resolvedPath, false))
            && (|path| > 0 ==> Gathered(paths, n - 1, path + "/" + resolvedPath, path[0] == '/'))
  {
    var path := paths[n - 1];
    var front := paths[..n];
    assert front[..n - 1] == paths[..n - 1];
    assert front[n - 1] == path;
    if |path| > 0 && path[0] != '/' {
      var before := Gather(paths[..n - 1]).0;
      assert before + path + "/" + resolvedPath == before + (path + "/" + resolvedPath);
    }
  }

  /** `resolve`: walks the arguments from the last to the first, then the
      working directory, until the gathered path is absolute. */
  method Resolve(args: seq<string>, cwd: string) returns (r: string)
    ensures r == ResolveSpec(args, cwd)
  {
    ghost var paths := [cwd] + args;
    var resolvedPath := "";
    var resolvedAbsolute := false;
    assert paths[..|paths|] == paths;
    assert Gather(paths[..|paths|]).0 + resolvedPath == Gather(paths).0;
    var i := |args| - 1;
    while i >= -1 && !resolvedAbsolute
      invariant -2 <= i < |args|
      invariant Gathered(paths, i + 2, resolvedPath, resolvedAbsolute)
      decreases i + 2
    {
      var path := if i >= 0 then args[i] else cwd;
      assert path == paths[i + 1];
      GatheredStep(paths, i + 2, resolvedPath);
      if |path| > 0 {
        resolvedPath := path + "/" + resolvedPath;
        resolvedAbsolute := path[0] == '/';
      }
      i := i - 1;
    }
    if !resolvedAbsolute {
      assert paths[..i + 2] == [];
      assert "" + resolvedPath == resolvedPath;
    }
    assert Gather(paths) == (resolvedPath, resolvedAbsolute);
    resolvedPath := NormalizeString(resolvedPath, !resolvedAbsolute);
    if resolvedAbsolute {
      return "/" + resolvedPath;
    }
    r := if |resolvedPath| > 0 then resolvedPath else ".";
  }

  /** An absolute path among those gathered is always reached. */
  lemma {:induction false} GatherFindsRoot(paths: seq<string>)
    requires |paths| >= 1 && IsAbsolute(paths[0])
    ensures Gather(paths).1
  {
    if |paths| >= 2 {
      GatherFindsRoot(paths[..|paths| - 1]);
    }
  }

  /** With an absolute working directory, `resolve` gives an absolute path
      that never climbs above the root. */
  lemma {:induction false} ResolveAbsolute(args: seq<string>, cwd: string)
    requires IsAbsolute(cwd)
    ensures IsAbsolute(ResolveSpec(args, cwd))
    ensures var r := ResolveSpec(args, cwd); CleanStack(NormalStack(r[1..], false), false)
  {
    var paths := [cwd] + args;
    GatherFindsRoot(paths);
    var resolvedPath := Gather(paths).0;
    var stack := NormalStack(resolvedPath, false);
    NormalStackClean(resolvedPath, false);
    var r := ResolveSpec(args, cwd);
    assert r[1..] == Join(stack, "/");
    SegmentsOfJoin(stack);
    if stack != [] {
      FoldCleanIdentity(stack, false);
    } else {
      assert Fold([], [""], false) == [];
    }
  }

  /** A last argument that is absolute decides the result alone: earlier
      arguments and the working directory are ignored, and a trailing `/`
      is dropped. */
  lemma {:induction false} ResolveLastAbsolute(args: seq<string>, cwd: string)
    requires |args| >= 1 && IsAbsolute(args[|args| - 1])
    ensures ResolveSpec(args, cwd) == "/" + NormalizeStringSpec(args[|args| - 1], false)
  {
    var last := args[|args| - 1];
    var paths := [cwd] + args;
    assert paths[|paths| - 1] == last;
    assert Gather(paths) == (last + "/", true);
    TrailingSlash(last + "/", false);
    assert (last + "/")[..|last + "/"| - 1] == last;
  }

  // ---------------------------------------------------------------------
  // dirname, basename, extname: scans from the end of the path
  // ---------------------------------------------------------------------

  /** The end of `path[lo..i]` once its trailing separators are dropped. */
  function TrimEnd(path: string, lo: int, i: int): (e: int)
    requires 0 <= lo <= i <= |path|
    ensures lo <= e <= i
    ensures e > lo ==> path[e - 1] != '/'
    ensures forall k :: e <= k < i ==> path[k] == '/'
    decreases i - lo
  {
    if i == lo then lo else if path[i - 1] == '/' then TrimEnd(path, lo, i - 1) else i
  }

  /** Where the last component of `path[lo..e]` starts: just after its
      last separator, or at `lo` when there is none. */
  function CompStart(path: string, lo: int, e: int): (st: int)
    requires 0 <= lo <= e <= |path|
    ensures lo <= st <= e
    ensures st > lo ==> path[st - 1] == '/'
    ensures forall k :: st <= k < e ==> path[k] != '/'
    decreases e - lo
  {
    if e == lo then lo else if path[e - 1] == '/' then e else CompStart(path, lo, e - 1)
  }

  /** `basename` without an extension, specified: the last component,
      trailing separators ignored. */
  function BasenameSpec(path: string): (r: string)
    ensures '/' !in r
  {
    var e := TrimEnd(path, 0, |path|);
    var st := CompStart(path, 0, e);
    assert forall k :: 0 <= k < e - st ==> path[st..e][k] == path[st + k];
    path[st..e]
  }

  /** `dirname`, specified: everything before the separator that precedes
      the last component (`/` or `.` when there is none, `//` when it is the
      second character of an absolute path). The first character is never
      taken as that separator. */
  function DirnameSpec(path: string): string {
    if |path| == 0 then "."
    else
      var hasRoot := path[0] == '/';
      var st := CompStart(path, 1, TrimEnd(path, 1, |path|));
      if st <= 1 then (if hasRoot then "/" else ".")
      else if hasRoot && st - 1 == 1 then "//"
      else path[..st - 1]
  }

  /** `dirname`. */
  method Dirname(path: string) returns (r: string)
    ensures r == DirnameSpec(path)
  {
    if |path| == 0 {
      return ".";
    }
    var hasRoot := path[0] == '/';
    var end := -1;
    var matchedSlash := true;
    ghost var e := TrimEnd(path, 1, |path|);
    var i := |path| - 1;
    while i >= 1
      invariant 0 <= i < |path|
      invariant end == -1
      invariant matchedSlash ==> e == TrimEnd(path, 1, i + 1)
      invariant !matchedSlash ==> i + 1 < e && CompStart(path, 1, e) == CompStart(path, 1, i + 1)
    {
      if path[i] == '/' {
        if !matchedSlash {
          end := i;
          break;
        }
      } else {
        matchedSlash := false;
      }
      i := i - 1;
    }
    assert end == -1 ==> CompStart(path, 1, e) == 1;
    if end == -1 {
      return if hasRoot then "/" else ".";
    }
    if hasRoot && end == 1 {
      return "//";
    }
    r := path[..end];
  }

  /** `basename(path)`: the scan without an extension. */
  method BasenameOf(path: string) returns (r: string)
    ensures r == BasenameSpec(path)
  {
    var start := 0;
    var end := -1;
    var matchedSlash := true;
    ghost var e := TrimEnd(path, 0, |path|);
    var i := |path| - 1;
    while i >= 0
      invariant -1 <= i < |path|
      invariant start == 0
      invariant matchedSlash <==> end == -1
      invariant matchedSlash ==> e == TrimEnd(path, 0, i + 1)
      invariant !matchedSlash ==> i + 1 < e == end && CompStart(path, 0, e) == CompStart(path, 0, i + 1)
    {
      if path[i] == '/' {
        if !matchedSlash {
          start := i + 1;
          break;
        }
      } else if end == -1 {
        matchedSlash := false;
        end := i + 1;
      }
      i := i - 1;
    }
    if end == -1 {
      return "";
    }
    r := path[start..end];
  }

  /** `s` ends with `suffix`. */
  predicate EndsWith(s: string, suffix: string) {
    |suffix| <= |s| && forall j :: 0 <= j < |suffix| ==> s[|s| - |suffix| + j] == suffix[j]
  }

  /** `path[lo..e]` is the end of `ext`. */
  ghost predicate Tail(path: string, ext: string, lo: int, e: int)
    requires 0 <= lo <= e <= |path| && e - lo <= |ext|
  {
    forall j :: lo <= j < e ==> path[j] == ext[|ext| - (e - j)]
  }

  /** How `basename` matches an extension against `path[lo..e]` from the
      right: the number of characters matched, `|ext|` once all of it
      matched, or -1 after a mismatch. */
  function MatchCount(path: string, ext: string, lo: int, e: int): (k: int)
    requires 0 <= lo <= e <= |path|
    ensures -1 <= k <= |ext| && k <= e - lo
    ensures 0 <= k < |ext| ==> k == e - lo
    decreases e - lo
  {
    if lo == e then 0
    else
      var k := MatchCount(path, ext, lo + 1, e);
      if k == -1 || k == |ext| then k
      else if path[lo] == ext[|ext| - 1 - k] then k + 1
      else -1
  }

  /** The extension matched in full exactly when it ends the text, and
      matched partly exactly when the text is shorter than the extension
      and ends it. */
  lemma {:induction false} MatchCountMeaning(path: string, ext: string, lo: int, e: int)
    requires 0 <= lo <= e <= |path|
    requires |ext| > 0
    ensures var k := MatchCount(path, ext, lo, e);
            && (k == |ext| <==> |ext| <= e - lo && Tail(path, ext, e - |ext|, e))
            && (0 <= k < |ext| <==> e - lo < |ext| && Tail(path, ext, lo, e))
    decreases e - lo
  {
    if lo < e {
      MatchCountMeaning(path, ext, lo + 1, e);
      var k := MatchCount(path, ext, lo + 1, e);
      if k == -1 && e - lo - 1 < |ext| {
        assert !Tail(path, ext, lo + 1, e);
        var j :| lo + 1 <= j < e && path[j] != ext[|ext| - (e - j)];
      }
    }
  }

  /** `basename(path, ext)` as the source computes it. With an extension
      that only partly matches the component and separators after it, the
      scan leaves `end` at -1 and the result runs to the end of the path,
      trailing separators included. */
  function BasenameAsWritten(path: string, ext: Option<string>): string {
    if ext.Some? && 0 < |ext.value| <= |path| then
      if ext.value == path then ""
      else
        var e := TrimEnd(path, 0, |path|);
        var st := CompStart(path, 0, e);
        var k := MatchCount(path, ext.value, st, e);
        if k == -1 then path[st..e]
        else if k == |ext.value| then (if e - |ext.value| == st then path[st..e] else path[st..e - |ext.value|])
        else path[st..]
    else BasenameSpec(path)
  }

  /** `basename`: the component scan, or the scan that also matches the
      extension when one is given that is no longer than the path. */
  method Basename(path: string, ext: Option<string>) returns (r: string)
    ensures r == BasenameAsWritten(path, ext)
  {
    if ext.Some? && |ext.value| > 0 && |ext.value| <= |path| {
      if ext.value == path {
        return "";
      }
      r := BasenameWithExt(path, ext.value);
    } else {
      r := BasenameOf(path);
    }
  }

  /** The scan of `basename` that also strips a matching extension. */
  method BasenameWithExt(path: string, ext: string) returns (r: string)
    requires 0 < |ext| <= |path| && ext != path
    ensures r == BasenameAsWritten(path, Some(ext))
  {
    var start := 0;
    var end := -1;
    var matchedSlash := true;
    var extIdx := |ext| - 1;
    var firstNonSlashEnd := -1;
    ghost var e := TrimEnd(path, 0, |path|);
    var i := |path| - 1;
    while i >= 0
      invariant -1 <= i < |path|
      invariant start == 0
      invariant matchedSlash <==> firstNonSlashEnd == -1
      invariant matchedSlash ==> e == TrimEnd(path, 0, i + 1) && extIdx == |ext| - 1 && end == -1
      invariant !matchedSlash ==> i + 1 < e == firstNonSlashEnd && CompStart(path, 0, e) == CompStart(path, 0, i + 1)
      invariant !matchedSlash ==> ExtScanned(path, ext, i + 1, e, extIdx, end)
    {
      if path[i] == '/' {
        if !matchedSlash {
          start := i + 1;
          break;
        }
      } else {
        if firstNonSlashEnd == -1 {
          matchedSlash := false;
          firstNonSlashEnd := i + 1;
        }
        extIdx, end := MatchExtChar(path, ext, i, firstNonSlashEnd, extIdx, end);
      }
      i := i - 1;
    }
    assert matchedSlash ==> e == 0;
    r := ExtScanResult(path, ext, start, extIdx, end, firstNonSlashEnd);
  }

  /** The end of the scan: the component, cut before a fully matched
      extension unless that is the whole component, or up to the end of the
      path when the extension matched only partly. */
  method ExtScanResult(path: string, ext: string, start: int, extIdx: int, end: int, firstNonSlashEnd: int)
    returns (r: string)
    requires 0 < |ext| <= |path| && ext != path
    requires var e := TrimEnd(path, 0, |path|);
             && start == CompStart(path, 0, e)
             && firstNonSlashEnd == (if e == 0 then -1 else e)
             && ExtScanned(path, ext, start, e, extIdx, end)
    ensures r == BasenameAsWritten(path, Some(ext))
  {
    ghost var e := TrimEnd(path, 0, |path|);
    ghost var k := MatchCount(path, ext, start, e);
    var end' := end;
    if start == end {
      assert k == |ext| && e - |ext| == start && firstNonSlashEnd == e;
      end' := firstNonSlashEnd;
    } else if end == -1 {
      assert 0 <= k < |ext|;
      end' := |path|;
    }
    r := path[start..end'];
  }

  /** One character of the component compared with the extension: the
      next character of `ext` from the right, until all of it matched or a
      character differs. */
  method MatchExtChar(path: string, ext: string, i: int, e: int, extIdx: int, end: int)
    returns (extIdx': int, end': int)
    requires 0 <= i < e <= |path| && |ext| > 0
    requires i + 1 == e ==> extIdx == |ext| - 1 && end == -1
    requires i + 1 < e ==> ExtScanned(path, ext, i + 1, e, extIdx, end)
    ensures ExtScanned(path, ext, i, e, extIdx', end')
  {
    assert ExtScanned(path, ext, i + 1, e, extIdx, end);
    extIdx', end' := extIdx, end;
    if extIdx >= 0 {
      if path[i] == ext[extIdx] {
        extIdx' := extIdx - 1;
        if extIdx' == -1 {
          end' := i;
        }
      } else {
        extIdx' := -1;
        end' := e;
      }
    }
  }

  /** The extension-matching state of the scan after `path[lo..e]`. */
  ghost predicate ExtScanned(path: string, ext: string, lo: int, e: int, extIdx: int, end: int)
    requires 0 <= lo <= e <= |path|
  {
    var k := MatchCount(path, ext, lo, e);
    && extIdx == (if k == -1 then -1 else |ext| - 1 - k)
    && end == (if k == -1 then e else if k == |ext| then e - |ext| else -1)
  }

  /** `basename(path, ext)` as evidently intended: the last component,
      without `ext` when `ext` ends it and is shorter; the empty string when
      `ext` is the whole path. */
  function BasenameIntended(path: string, ext: Option<string>): (r: string)
    ensures '/' !in r
    ensures r == BasenameSpec(path) || (ext.Some? && r + ext.value == BasenameSpec(path)) || r == ""
  {
    var comp := BasenameSpec(path);
    if ext.Some? && 0 < |ext.value| <= |path| then
      if ext.value == path then ""
      else if |ext.value| < |comp| && EndsWith(comp, ext.value) then
        assert comp == comp[..|comp| - |ext.value|] + ext.value;
        comp[..|comp| - |ext.value|]
      else comp
    else comp
  }

  /** Without trailing separators the scan gives the intended result. */
  lemma {:induction false} BasenameAsIntended(path: string, ext: Option<string>)
    requires TrimEnd(path, 0, |path|) == |path|
    ensures BasenameAsWritten(path, ext) == BasenameIntended(path, ext)
  {
    if ext.Some? && 0 < |ext.value| <= |path| && ext.value != path {
      var st := CompStart(path, 0, |path|);
      MatchedSuffix(path, ext.value, st, |path|);
      assert path[st..] == path[st..|path|];
    }
  }

  /** The scan's match count, read on the component: all of `ext` matched
      exactly when `ext` ends the component. */
  lemma {:induction false} MatchedSuffix(path: string, ext: string, st: int, e: int)
    requires 0 <= st <= e <= |path| && |ext| > 0
    ensures var k := MatchCount(path, ext, st, e);
            var comp := path[st..e];
            && (k == |ext| <==> EndsWith(comp, ext))
            && (k == |ext| && |ext| < |comp| ==> comp[..|comp| - |ext|] == path[st..e - |ext|])
  {
    MatchCountMeaning(path, ext, st, e);
    var comp := path[st..e];
    if |ext| <= |comp| {
      if EndsWith(comp, ext) {
        forall j | e - |ext| <= j < e
          ensures path[j] == ext[|ext| - (e - j)]
        {
          assert comp[|comp| - |ext| + (j - (e - |ext|))] == ext[j - (e - |ext|)];
        }
      }
    }
  }

  /** The trailing separator kept by the scan: `basename("b/", "ab")` is
      `"b/"`, where the component `"b"` is meant. */
  lemma {:induction false} BasenameTrailingSlashQuirk()
    ensures BasenameAsWritten("b/", Some("ab")) == "b/"
    ensures BasenameIntended("b/", Some("ab")) == "b"
  {
    var path := "b/";
    assert TrimEnd(path, 0, 2) == 1;
    assert CompStart(path, 0, 1) == 0;
    assert MatchCount(path, "ab", 1, 1) == 0;
    assert MatchCount(path, "ab", 0, 1) == 1;
    assert BasenameSpec(path) == "b";
  }

  /** `dirname` and `basename` split a path at the separator before its
      last component. */
  lemma {:induction false} DirnameBasename(dir: string, name: string)
    requires |dir| > 0 && dir[|dir| - 1] != '/'
    requires |name| > 0 && '/' !in name
    ensures DirnameSpec(dir + "/" + name) == dir
    ensures BasenameSpec(dir + "/" + name) == name
  {
    var path := dir + "/" + name;
    assert forall k :: |dir| < k < |path| ==> path[k] == name[k - |dir| - 1];
    DirnameOfJoin(path, dir, name);
    BasenameOfJoin(path, dir, name);
  }

  lemma {:induction false} DirnameOfJoin(path: string, dir: string, name: string)
    requires |dir| > 0 && dir[|dir| - 1] != '/' && |name| > 0
    requires path == dir + "/" + name
    requires forall k :: |dir| < k < |path| ==> path[k] != '/'
    ensures DirnameSpec(path) == dir
  {
    TrimEndAt(path, 1, |path|);
    CompStartAt(path, 1, |path|, |dir|);
    assert path[..|dir|] == dir;
  }

  lemma {:induction false} BasenameOfJoin(path: string, dir: string, name: string)
    requires |name| > 0 && path == dir + "/" + name
    requires forall k :: |dir| < k < |path| ==> path[k] != '/'
    ensures BasenameSpec(path) == name
  {
    TrimEndAt(path, 0, |path|);
    CompStartAt(path, 0, |path|, |dir|);
    assert path[|dir| + 1..] == name;
  }

  /** A path that does not end with a separator is not trimmed. */
  lemma {:induction false} TrimEndAt(path: string, lo: int, i: int)
    requires 0 <= lo < i <= |path| && path[i - 1] != '/'
    ensures TrimEnd(path, lo, i) == i
  {
  }

  /** The component starts after the last separator. */
  lemma {:induction false} CompStartAt(path: string, lo: int, e: int, slash: int)
    requires 0 <= lo <= slash < e <= |path| && path[slash] == '/'
    requires forall k :: slash < k < e ==> path[k] != '/'
    ensures CompStart(path, lo, e) == slash + 1
    decreases e - slash
  {
    if e > slash + 1 {
      CompStartAt(path, lo, e - 1, slash);
    }
  }

  /** `basename` ignores trailing separators. */
  lemma {:induction false} BasenameTrailing(path: string)
    ensures BasenameSpec(path + "/") == BasenameSpec(path)
  {
    var p := path + "/";
    assert p[..|path|] == path;
    assert TrimEnd(p, 0, |p|) == TrimEnd(p, 0, |path|);
    TrimEndPrefix(p, path, |path|);
    var e := TrimEnd(path, 0, |path|);
    CompStartPrefix(p, path, e);
    assert p[CompStart(p, 0, e)..e] == path[CompStart(path, 0, e)..e];
  }

  lemma {:induction false} TrimEndPrefix(p: string, path: string, i: int)
    requires 0 <= i <= |path| <= |p| && p[..|path|] == path
    ensures TrimEnd(p, 0, i) == TrimEnd(path, 0, i)
    decreases i
  {
    if i > 0 {
      assert p[i - 1] == path[i - 1];
      TrimEndPrefix(p, path, i - 1);
    }
  }

  lemma {:induction false} CompStartPrefix(p: string, path: string, e: int)
    requires 0 <= e <= |path| <= |p| && p[..|path|] == path
    ensures CompStart(p, 0, e) == CompStart(path, 0, e)
    decreases e
  {
    if e > 0 {
      assert p[e - 1] == path[e - 1];
      CompStartPrefix(p, path, e - 1);
    }
  }

  /** The index of the last dot of `path[lo..e]`, or -1. */
  function LastDotFrom(path: string, lo: int, e: int): (d: int)
    requires 0 <= lo <= e <= |path|
    ensures d == -1 || (lo <= d < e && path[d] == '.')
    ensures forall k :: (if d == -1 then lo else d + 1) <= k < e ==> path[k] != '.'
    decreases e - lo
  {
    if lo == e then -1
    else
      var d := LastDotFrom(path, lo + 1, e);
      if d == -1 && path[lo] == '.' then lo else d
  }

  /** `extname`, specified: from the last dot of the last component to its
      end; nothing when there is no dot, when the only dot opens the
      component, or when the component is `..`. */
  function ExtnameSpec(path: string): string {
    var e := TrimEnd(path, 0, |path|);
    var st := CompStart(path, 0, e);
    var dot := LastDotFrom(path, st, e);
    if dot <= st || path[st..e] == ".." then "" else path[dot..e]
  }

  /** `extname`. */
  method Extname(path: string) returns (r: string)
    ensures r == ExtnameSpec(path)
  {
    var startDot := -1;
    var startPart := 0;
    var end := -1;
    var matchedSlash := true;
    var preDotState := 0;
    ghost var e := TrimEnd(path, 0, |path|);
    var i := |path| - 1;
    while i >= 0
      invariant -1 <= i < |path|
      invariant startPart == 0
      invariant matchedSlash <==> end == -1
      invariant matchedSlash ==> e == TrimEnd(path, 0, i + 1) && startDot == -1 && preDotState == 0
      invariant !matchedSlash ==> i + 1 < e == end && CompStart(path, 0, e) == CompStart(path, 0, i + 1)
      invariant !matchedSlash ==> DotScanned(path, i + 1, e, startDot, preDotState)
    {
      var code := path[i];
      if code == '/' {
        if !matchedSlash {
          startPart := i + 1;
          break;
        }
      } else {
        if end == -1 {
          matchedSlash := false;
          end := i + 1;
        }
        startDot, preDotState := ScanDot(path, i, end, startDot, preDotState);
      }
      i := i - 1;
    }
    assert matchedSlash ==> e == 0;
    r := ExtResult(path, startPart, startDot, end, preDotState);
  }

  /** The dot-tracking state of `extname` after `path[lo..e]`: the last dot,
      and what precedes it at `lo` (0 when the dot is at `lo` or there is
      none, 1 for a dot, -1 for another character). */
  ghost predicate DotScanned(path: string, lo: int, e: int, startDot: int, preDotState: int)
    requires 0 <= lo < e <= |path|
  {
    && startDot == LastDotFrom(path, lo, e)
    && preDotState == (if startDot == -1 || startDot == lo then 0 else if path[lo] == '.' then 1 else -1)
  }

  /** One character of the component: the first dot met from the right
      starts the extension; the characters before it set `preDotState`. */
  method ScanDot(path: string, i: int, e: int, startDot: int, preDotState: int)
    returns (startDot': int, preDotState': int)
    requires 0 <= i < e <= |path| && path[i] != '/'
    requires i + 1 == e ==> startDot == -1 && preDotState == 0
    requires i + 1 < e ==> DotScanned(path, i + 1, e, startDot, preDotState)
    ensures DotScanned(path, i, e, startDot', preDotState')
  {
    startDot', preDotState' := startDot, preDotState;
    if path[i] == '.' {
      if startDot == -1 {
        startDot' := i;
      } else if preDotState != 1 {
        preDotState' := 1;
      }
    } else if startDot != -1 {
      preDotState' := -1;
    }
  }

  /** The end of `extname`: the text from the dot to the end of the
      component, unless one of the cases without an extension holds. */
  method ExtResult(path: string, startPart: int, startDot: int, end: int, preDotState: int)
    returns (r: string)
    requires var e := TrimEnd(path, 0, |path|);
             && startPart == CompStart(path, 0, e)
             && (e == 0 ==> end == -1 && startDot == -1)
             && (e > 0 ==> end == e && DotScanned(path, startPart, e, startDot, preDotState))
    ensures r == ExtnameSpec(path)
  {
    if startDot == -1 || end == -1 || preDotState == 0
       || (preDotState == 1 && startDot == end - 1 && startDot == startPart + 1) {
      if startDot != -1 && end != -1 && preDotState == 1 && startDot == end - 1 && startDot == startPart + 1 {
        assert path[startPart..end] == [path[startPart], path[startPart + 1]];
      }
      return "";
    }
    r := path[startDot..end];
  }

  /** An extension is empty or starts with its only dot, and it ends the
      base name. */
  lemma {:induction false} ExtnameShape(path: string)
    ensures var x := ExtnameSpec(path);
            && (x == "" || (x[0] == '.' && forall k :: 1 <= k < |x| ==> x[k] != '.'))
            && '/' !in x
            && EndsWith(BasenameSpec(path), x)
  {
    var e := TrimEnd(path, 0, |path|);
    var st := CompStart(path, 0, e);
    var dot := LastDotFrom(path, st, e);
    var x := ExtnameSpec(path);
    if x != "" {
      assert x == path[dot..e];
      assert forall k :: 1 <= k < |x| ==> x[k] == path[dot + k];
      assert forall k :: 0 <= k < |x| ==> x[k] == path[dot + k];
      assert path[st..e][|path[st..e]| - |x|..] == x;
    }
  }

  // ---------------------------------------------------------------------
  // relative
  // ---------------------------------------------------------------------

  /** How far `from` and `to` agree after their first character, starting
      at `i` and looking at most `length` characters. */
  function CommonLength(from: string, to: string, i: int, length: int): (c: int)
    requires 0 <= i <= length && length < |from| && length < |to|
    ensures i <= c <= length
    ensures c < length ==> from[1 + c] != to[1 + c]
    decreases length - i
  {
    if i == length || from[1 + i] != to[1 + i] then i else CommonLength(from, to, i + 1, length)
  }

  /** The offset (after the first character) of the last separator of
      `from` before offset `i`, or -1. */
  function SepBefore(from: string, i: int): (sep: int)
    requires 0 <= i < |from|
    ensures -1 <= sep < i
    ensures sep >= 0 ==> from[1 + sep] == '/'
  {
    if i == 0 then -1 else if from[i] == '/' then i - 1 else SepBefore(from, i - 1)
  }

  /** The number of `..` steps: one per separator of `from` from index `lo`
      on, and one for its end. */
  function UpCount(from: string, lo: int, i: int): (n: nat)
    requires 0 <= lo <= i <= |from| + 1
    decreases i - lo
  {
    if i == lo then 0
    else UpCount(from, lo, i - 1) + (if i - 1 == |from| || from[i - 1] == '/' then 1 else 0)
  }

  /** `n` steps up: `..` joined by `/`. */
  function Ups(n: nat): (r: string)
    ensures |r| == 0 <==> n == 0
  {
    if n == 0 then "" else if n == 1 then ".." else Ups(n - 1) + "/.."
  }

  /** `relative` on two resolved paths, specified: the steps up from
      `from` to the last separator both paths share, then the rest of
      `to`; `to`'s remainder alone when `from` is its exact base or the
      root. */
  function RelativeResolvedSpec(from: string, to: string): string
    requires |from| >= 1 && |to| >= 1
  {
    var length := if |from| < |to| then |from| - 1 else |to| - 1;
    RelativeAfter(from, to, length, CommonLength(from, to, 0, length))
  }

  /** `relative` once the first `i` characters after the first one were
      found common: the rest of `to` when `from` is its base, else the
      climb from `from` over the last shared separator. */
  function RelativeAfter(from: string, to: string, length: int, i: int): string
    requires 0 <= i <= length && length < |from| && length < |to|
  {
    if i == length && |to| - 1 > length && to[1 + i] == '/' then to[1 + i + 1..]
    else if i == length && |to| - 1 > length && i == 0 then to[1 + i..]
    else UpAndOver(from, to, LastCommonSep(from, to, i, length))
  }

  /** The last separator both paths share (as an offset after the first
      character): the one before the first difference, or the end of the
      shorter `to` when `from` continues with a separator there, or 0 when
      `to` is the root. */
  function LastCommonSep(from: string, to: string, i: int, length: int): (sep: int)
    requires 0 <= i <= length && length < |from| && length < |to|
    ensures -1 <= sep <= length
  {
    if i == length && |to| - 1 <= length && |from| - 1 > length then
      if from[1 + i] == '/' then i else if i == 0 then 0 else SepBefore(from, i)
    else SepBefore(from, i)
  }

  /** The steps up from `from` past the shared separator, then the rest of
      `to` from that separator. */
  function UpAndOver(from: string, to: string, lastCommonSep: int): string
    requires -1 <= lastCommonSep < |from| && lastCommonSep < |to|
  {
    Ups(UpCount(from, lastCommonSep + 2, |from| + 1)) + Over(to, 1 + lastCommonSep)
  }

  /** `to` from index `k` on; the whole of `to` from index 0. */
  function Over(to: string, k: int): (r: string)
    requires 0 <= k <= |to|
    ensures |r| == |to| - k
  {
    if k == 0 then to else to[k..]
  }

  /** `relative`, specified, with `process.cwd()` as `cwd`. */
  function RelativeSpec(from: string, to: string, cwd: string): string {
    if from == to then ""
    else
      var f := ResolveSpec([from], cwd);
      var t := ResolveSpec([to], cwd);
      if f == t then "" else RelativeResolvedSpec(f, t)
  }

  /** `relative`. */
  method Relative(from: string, to: string, cwd: string) returns (r: string)
    ensures r == RelativeSpec(from, to, cwd)
  {
    if from == to {
      return "";
    }
    var f := Resolve([from], cwd);
    var t := Resolve([to], cwd);
    if f == t {
      return "";
    }
    r := RelativeResolved(f, t);
  }

  /** The two loops of `relative`, after both paths were resolved. */
  method RelativeResolved(from: string, to: string) returns (r: string)
    requires |from| >= 1 && |to| >= 1
    ensures r == RelativeResolvedSpec(from, to)
  {
    var fromStart := 1;
    var fromEnd := |from|;
    var fromLen := fromEnd - fromStart;
    var toStart := 1;
    var toLen := |to| - toStart;
    var length := if fromLen < toLen then fromLen else toLen;
    var i, lastCommonSep := CommonPrefix(from, to, length);
    r := AfterPrefix(from, to, length, i, lastCommonSep);
  }

  /** `relative` after its first loop: the early returns when `from` is
      the base of `to` or the root, the adjustment of the last shared
      separator, and the climb. */
  method AfterPrefix(from: string, to: string, length: int, i: int, sepBefore: int) returns (r: string)
    requires 0 <= i <= length && length < |from| && length < |to|
    requires length == if |from| < |to| then |from| - 1 else |to| - 1
    requires sepBefore == SepBefore(from, i)
    ensures r == RelativeAfter(from, to, length, i)
  {
    var fromStart := 1;
    var fromLen := |from| - fromStart;
    var toStart := 1;
    var toLen := |to| - toStart;
    var lastCommonSep := sepBefore;
    if i == length {
      if toLen > length {
        if to[toStart + i] == '/' {
          return to[toStart + i + 1..];
        }
        if i == 0 {
          return to[toStart + i..];
        }
      } else if fromLen > length {
        if from[fromStart + i] == '/' {
          lastCommonSep := i;
        } else if i == 0 {
          lastCommonSep := 0;
        }
      }
    }
    assert lastCommonSep == LastCommonSep(from, to, i, length);
    r := Climb(from, to, lastCommonSep);
  }

  /** The second loop of `relative` and the result built from it. */
  method Climb(from: string, to: string, lastCommonSep: int) returns (r: string)
    requires -1 <= lastCommonSep < |from| && lastCommonSep < |to|
    ensures r == UpAndOver(from, to, lastCommonSep)
  {
    var out := UpSteps(from, 1 + lastCommonSep + 1);
    r := out + Over(to, 1 + lastCommonSep);
  }

  /** The first loop of `relative`: the length of the common text after
      the first characters, and the last separator in it. */
  method CommonPrefix(from: string, to: string, length: int) returns (i: int, lastCommonSep: int)
    requires 0 <= length < |from| && length < |to|
    ensures i == CommonLength(from, to, 0, length)
    ensures lastCommonSep == SepBefore(from, i)
  {
    lastCommonSep := -1;
    i := 0;
    while i < length
      invariant 0 <= i <= length
      invariant CommonLength(from, to, 0, length) == CommonLength(from, to, i, length)
      invariant lastCommonSep == SepBefore(from, i)
    {
      var fromCode := from[1 + i];
      if fromCode != to[1 + i] {
        break;
      } else if fromCode == '/' {
        lastCommonSep := i;
      }
      i := i + 1;
    }
  }

  /** The second loop of `relative`: one `..` per separator of `from` from
      `lo` on, and one for its end. */
  method UpSteps(from: string, lo: int) returns (out: string)
    requires 0 <= lo <= |from| + 1
    ensures out == Ups(UpCount(from, lo, |from| + 1))
  {
    out := "";
    var i := lo;
    while i <= |from|
      invariant lo <= i <= |from| + 1
      invariant out == Ups(UpCount(from, lo, i))
    {
      if i == |from| || from[i] == '/' {
        out := out + (if |out| == 0 then ".." else "/..");
      }
      i := i + 1;
    }
  }

  /** The same path, given twice or resolving to the same place, is
      reached by the empty path. */
  lemma {:induction false} RelativeSame(from: string, to: string, cwd: string)
    requires from == to || ResolveSpec([from], cwd) == ResolveSpec([to], cwd)
    ensures RelativeSpec(from, to, cwd) == ""
  {
  }

  /** From a directory to something below it: the part of `to` after the
      directory and its separator. */
  lemma {:induction false} RelativeChild(from: string, rest: string)
    requires |from| >= 1
    ensures RelativeResolvedSpec(from, from + "/" + rest) == rest
  {
    var to := from + "/" + rest;
    var length := |from| - 1;
    CommonFull(from, to, 0, length);
    assert to[1 + length] == '/';
    assert to[1 + length + 1..] == rest;
  }

  /** Agreeing characters are all matched. */
  lemma {:induction false} CommonFull(from: string, to: string, i: int, length: int)
    requires 0 <= i <= length && length < |from| && length < |to|
    requires forall j :: 1 + i <= j < 1 + length ==> from[j] == to[j]
    ensures CommonLength(from, to, i, length) == length
    decreases length - i
  {
    if i < length {
      CommonFull(from, to, i + 1, length);
    }
  }

  /** The number of separators in `s[lo..hi]`. */
  function SlashesIn(s: string, lo: int, hi: int): nat
    requires 0 <= lo <= hi <= |s|
    decreases hi - lo
  {
    if hi == lo then 0 else SlashesIn(s, lo, hi - 1) + (if s[hi - 1] == '/' then 1 else 0)
  }

  /** Counting separators does not depend on what precedes them. */
  lemma {:induction false} SlashesInShift(a: string, b: string, n: int)
    requires 0 <= n <= |b|
    ensures SlashesIn(a + b, |a|, |a| + n) == SlashesIn(b, 0, n)
  {
    if n > 0 {
      SlashesInShift(a, b, n - 1);
    }
  }

  /** Up steps are separators, plus one for the end. */
  lemma {:induction false} UpCountSlashes(from: string, lo: int, i: int)
    requires 0 <= lo <= i <= |from|
    ensures UpCount(from, lo, i) == SlashesIn(from, lo, i)
    decreases i - lo
  {
    if i > lo {
      UpCountSlashes(from, lo, i - 1);
    }
  }

  /** From below a directory back to it: one `..` per separator after the
      directory, and one more. */
  lemma {:induction false} RelativeParent(to: string, rest: string)
    requires |to| >= 2
    ensures RelativeResolvedSpec(to + "/" + rest, to) == Ups(SlashesIn(rest, 0, |rest|) + 1)
  {
    var from := to + "/" + rest;
    var length := |to| - 1;
    CommonFull(from, to, 0, length);
    assert LastCommonSep(from, to, length, length) == length;
    ParentClimb(to, rest);
  }

  /** Climbing from below `to` over its end. */
  lemma {:induction false} ParentClimb(to: string, rest: string)
    requires |to| >= 2
    ensures UpAndOver(to + "/" + rest, to, |to| - 1) == Ups(SlashesIn(rest, 0, |rest|) + 1)
  {
    var from := to + "/" + rest;
    ClimbOverEnd(from, to);
    UpCountBelow(from, to, rest);
  }

  /** Going over the whole of `to` adds nothing after the climb. */
  lemma {:induction false} ClimbOverEnd(from: string, to: string)
    requires 1 <= |to| <= |from|
    ensures UpAndOver(from, to, |to| - 1) == Ups(UpCount(from, |to| + 1, |from| + 1))
  {
    assert Over(to, |to|) == [];
  }

  /** One step up per separator after `to` and its separator, and one
      for the end. */
  lemma {:induction false} UpCountBelow(from: string, to: string, rest: string)
    requires from == to + "/" + rest
    ensures UpCount(from, |to| + 1, |from| + 1) == SlashesIn(rest, 0, |rest|) + 1
  {
    var lo := |to| + 1;
    UpCountEnd(from, lo);
    UpCountSlashes(from, lo, |from|);
    assert from == (to + "/") + rest;
    SlashesInShift(to + "/", rest, |rest|);
  }

  /** The end of `from` is one more step up. */
  lemma {:induction false} UpCountEnd(from: string, lo: int)
    requires 0 <= lo <= |from|
    ensures UpCount(from, lo, |from| + 1) == UpCount(from, lo, |from|) + 1
  {
  }
}
