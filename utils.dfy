/** The three-way `compare` of the mod loader's utilities, on strings: the
    comparator that orders mod ids. JavaScript compares strings by their
    UTF-16 code units; a character here is a Unicode scalar value, so each
    string is compared through its UTF-16 encoding. */
module Utils {

  /** The UTF-16 code units of a character: the character itself below
      U+10000, a surrogate pair above. */
  function CodeUnits(c: char): (units: seq<int>)
    ensures 1 <= |units| <= 2
    ensures c as int < 0x10000 <==> |units| == 1
    ensures |units| == 1 ==> units[0] == c as int
    ensures |units| == 2 ==> 0xD800 <= units[0] < 0xDC00 && 0xDC00 <= units[1] < 0xE000
  {
    if c as int < 0x10000 then [c as int]
    else [0xD800 + (c as int - 0x10000) / 0x400, 0xDC00 + (c as int - 0x10000) % 0x400]
  }

  /** The UTF-16 encoding of a string. */
  function Utf16(s: string): (units: seq<int>)
    ensures |s| <= |units| <= 2 * |s|
  {
    if |s| == 0 then [] else CodeUnits(s[0]) + Utf16(s[1..])
  }

  /** No character's code units begin another character's: a surrogate
      pair starts with a high surrogate, which no single unit is, and the
      pair determines the character. */
  lemma {:induction false} CodeUnitsPrefixFree(x: char, y: char, u: seq<int>, v: seq<int>)
    requires CodeUnits(x) + u == CodeUnits(y) + v
    ensures x == y && u == v
  {
    var cx, cy := CodeUnits(x), CodeUnits(y);
    assert (cx + u)[0] == cx[0] && (cy + v)[0] == cy[0];
    if |cx| == 2 && |cy| == 2 {
      assert (cx + u)[1] == cx[1] && (cy + v)[1] == cy[1];
      var dx, dy := x as int - 0x10000, y as int - 0x10000;
      assert dx / 0x400 == dy / 0x400 && dx % 0x400 == dy % 0x400;
      assert dx == 0x400 * (dx / 0x400) + dx % 0x400;
      assert dy == 0x400 * (dy / 0x400) + dy % 0x400;
    }
    assert cx == cy;
    assert u == (cx + u)[|cx|..];
    assert v == (cy + v)[|cy|..];
  }

  /** Different strings have different encodings, so comparing encodings
      tells strings apart. */
  lemma {:induction false} Utf16Injective(a: string, b: string)
    requires Utf16(a) == Utf16(b)
    ensures a == b
    decreases |a|
  {
    if |a| > 0 && |b| > 0 {
      CodeUnitsPrefixFree(a[0], b[0], Utf16(a[1..]), Utf16(b[1..]));
      Utf16Injective(a[1..], b[1..]);
      assert a == [a[0]] + a[1..] && b == [b[0]] + b[1..];
    }
  }

  /** `a < b` on code-unit sequences from position `i` on, where the two
      agree before `i`: the first difference decides, and a proper prefix
      is smaller. */
  predicate LessFrom(a: seq<int>, b: seq<int>, i: nat)
    requires i <= |a| && i <= |b|
    decreases |a| - i
  {
    if i == |a| then i < |b|
    else if i == |b| then false
    else if a[i] != b[i] then a[i] < b[i]
    else LessFrom(a, b, i + 1)
  }

  /** JavaScript's `a < b` on strings. */
  predicate Less(a: string, b: string) {
    LessFrom(Utf16(a), Utf16(b), 0)
  }

  /** `compare(a, b)`: `a > b ? 1 : a < b ? -1 : 0`. */
  function Compare(a: string, b: string): (r: int)
    ensures -1 <= r <= 1
  {
    if Less(b, a) then 1 else if Less(a, b) then -1 else 0
  }

  /** Code units and code points order differently: U+10000 (a surrogate
      pair starting with 0xD800) sorts before U+FF61. */
  lemma {:induction false} SurrogatesBeforeHighBmp()
    ensures '\U{FF61}' as int < '\U{10000}' as int
    ensures Compare("\U{10000}", "\U{FF61}") == -1
  {
    var a, b := "\U{10000}", "\U{FF61}";
    assert Utf16(a[1..]) == [] && Utf16(b[1..]) == [];
    assert Utf16(a) == [0xD800, 0xDC00];
    assert Utf16(b) == [0xFF61];
    assert !LessFrom(Utf16(b), Utf16(a), 0);
  }

  lemma {:induction false} LessFromIrreflexive(a: seq<int>, i: nat)
    requires i <= |a|
    ensures !LessFrom(a, a, i)
    decreases |a| - i
  {
    if i < |a| {
      LessFromIrreflexive(a, i + 1);
    }
  }

  lemma {:induction false} LessFromAsymmetric(a: seq<int>, b: seq<int>, i: nat)
    requires i <= |a| && i <= |b|
    ensures !(LessFrom(a, b, i) && LessFrom(b, a, i))
    decreases |a| - i
  {
    if i < |a| && i < |b| && a[i] == b[i] {
      LessFromAsymmetric(a, b, i + 1);
    }
  }

  lemma {:induction false} LessFromTotal(a: seq<int>, b: seq<int>, i: nat)
    requires i <= |a| && i <= |b|
    requires a[..i] == b[..i]
    ensures a != b ==> LessFrom(a, b, i) || LessFrom(b, a, i)
    decreases |a| - i
  {
    if i == |a| || i == |b| {
      if i == |a| && i == |b| {
        assert a == a[..i] && b == b[..i];
      }
    } else if a[i] == b[i] {
      assert a[..i + 1] == a[..i] + [a[i]];
      assert b[..i + 1] == b[..i] + [b[i]];
      LessFromTotal(a, b, i + 1);
    }
  }

  lemma {:induction false} LessFromTransitive(a: seq<int>, b: seq<int>, c: seq<int>, i: nat)
    requires i <= |a| && i <= |b| && i <= |c|
    requires LessFrom(a, b, i) && LessFrom(b, c, i)
    ensures LessFrom(a, c, i)
    decreases |a| - i
  {
    if i < |a| && i < |b| && i < |c| && a[i] == b[i] && b[i] == c[i] {
      LessFromTransitive(a, b, c, i + 1);
    }
  }

  /** `compare(a, a)` is 0. */
  lemma {:induction false} CompareSame(a: string)
    ensures Compare(a, a) == 0
  {
    LessFromIrreflexive(Utf16(a), 0);
  }

  /** `compare` is 0 exactly on equal strings. */
  lemma {:induction false} CompareZero(a: string, b: string)
    ensures Compare(a, b) == 0 <==> a == b
  {
    LessFromIrreflexive(Utf16(a), 0);
    LessFromTotal(Utf16(a), Utf16(b), 0);
    if Utf16(a) == Utf16(b) {
      Utf16Injective(a, b);
    }
  }

  /** Swapping the arguments negates the result. */
  lemma {:induction false} CompareSwap(a: string, b: string)
    ensures Compare(a, b) == -Compare(b, a)
  {
    LessFromAsymmetric(Utf16(a), Utf16(b), 0);
  }

  /** `compare` orders transitively, so with `CompareZero` and
      `CompareSwap` it is a total order and a valid sort comparator. */
  lemma {:induction false} CompareTransitive(a: string, b: string, c: string)
    requires Compare(a, b) < 0 && Compare(b, c) < 0
    ensures Compare(a, c) < 0
  {
    LessFromAsymmetric(Utf16(a), Utf16(b), 0);
    LessFromAsymmetric(Utf16(b), Utf16(c), 0);
    LessFromAsymmetric(Utf16(a), Utf16(c), 0);
    LessFromTransitive(Utf16(a), Utf16(b), Utf16(c), 0);
  }

  // ----- Lists kept in a map, as `mapGetOrInsert(m, k, []).push(v)` builds them -----

  /** The list stored under `k`, or the empty list `mapGetOrInsert` would
      insert for it. */
  function ListAt<V>(m: map<string, seq<V>>, k: string): (r: seq<V>)
    ensures k in m ==> r == m[k]
    ensures k !in m ==> r == []
  {
    if k in m then m[k] else []
  }

  /** `mapGetOrInsert(m, k, []).push(v)`: the list of `k` grows by `v` at its
      end and no other list changes. */
  function Pushed<V>(m: map<string, seq<V>>, k: string, v: V): (r: map<string, seq<V>>)
    ensures ListAt(r, k) == ListAt(m, k) + [v]
    ensures forall other :: other != k ==> ListAt(r, other) == ListAt(m, other)
    ensures r.Keys == m.Keys + {k}
  {
    m[k := ListAt(m, k) + [v]]
  }

  /** The map that a sequence of `(key, value)` registrations builds, one
      `Pushed` per registration. */
  function Registered<V>(adds: seq<(string, V)>): map<string, seq<V>> {
    if |adds| == 0 then map[]
    else
      var (k, v) := adds[|adds| - 1];
      Pushed(Registered(adds[..|adds| - 1]), k, v)
  }

  /** The values registered under `k`, in registration order. */
  function RegisteredUnder<V>(adds: seq<(string, V)>, k: string): (r: seq<V>)
    ensures |r| <= |adds|
  {
    if |adds| == 0 then []
    else
      var (k', v) := adds[|adds| - 1];
      RegisteredUnder(adds[..|adds| - 1], k) + (if k' == k then [v] else [])
  }

  /** After any sequence of registrations, the list of each key holds
      exactly the values registered under it, in the order they came. */
  lemma {:induction false} RegisteredInOrder<V>(adds: seq<(string, V)>, k: string)
    ensures ListAt(Registered(adds), k) == RegisteredUnder(adds, k)
  {
    if |adds| > 0 {
      RegisteredInOrder(adds[..|adds| - 1], k);
    }
  }
}
