/**
 * `DynamicJsonFiles`: JSON files generated on request. A generator is
 * registered for a path; asking for the path calls it. A generator is a
 * function of no arguments; the value it makes is of the type parameter.
 */
module DynamicJsonFiles {
  import opened Wrappers

  class DynamicJsonFiles<J> {
    var overrides: map<string, () -> J>

    constructor()
      ensures overrides == map[]
    {
      overrides := map[];
    }

    /** `forPath`: the generated value for a registered path, `undefined`
        (here `None`) for any other. */
    function ForPath(path: string): (r: Option<J>)
      reads this
      ensures r.Some? <==> path in overrides
      ensures r.Some? ==> r.value == overrides[path]()
    {
      if path in overrides then Some(overrides[path]()) else None
    }

    /** `add`: registers the generator for the file, replacing an earlier
        one for the same file. */
    method Add(targetFile: string, generator: () -> J)
      modifies this
      ensures overrides == old(overrides)[targetFile := generator]
    {
      overrides := overrides[targetFile := generator];
    }
  }

  /** After `add(p, g)`, `forPath(p)` returns `g()` whatever was there
      before, and every other path answers as it did before. */
  lemma {:induction false} AddThenForPath<J>(files: DynamicJsonFiles<J>, before: map<string, () -> J>,
                                             targetFile: string, generator: () -> J, path: string)
    requires files.overrides == before[targetFile := generator]
    ensures path == targetFile ==> files.ForPath(path) == Some(generator())
    ensures path != targetFile ==>
      files.ForPath(path) == (if path in before then Some(before[path]()) else None)
  {
  }
}
