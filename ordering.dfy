/** Orders used by the option lists of the filters and by the table sort:
    JavaScript's `<` on strings (UTF-16 code unit by code unit) and the
    sorted, duplicate-free list that `[...new Set(xs)].sort(cmp)` produces. */
module Ordering {

  /** `less` is irreflexive, transitive and relates any two distinct values. */
  ghost predicate StrictTotalOrder<T(!new)>(less: (T, T) -> bool)
  {
    && (forall x :: !less(x, x))
    && (forall x, y, z :: less(x, y) && less(y, z) ==> less(x, z))
    && (forall x, y :: x != y ==> less(x, y) || less(y, x))
  }

  // ---------------------------------------------------------------------
  // JavaScript strings are sequences of UTF-16 code units

  /** The code units JavaScript stores for one character: the character
      itself below U+10000, a surrogate pair above. */
  function CodeUnits(c: char): (u: seq<int>)
    ensures 1 <= |u| <= 2
  {
    var n := c as int;
    if n < 0x1_0000 then [n]
    else [0xD800 + (n - 0x1_0000) / 0x400, 0xDC00 + (n - 0x1_0000) % 0x400]
  }

  /** The UTF-16 encoding of a string. */
  function Utf16(s: string): (u: seq<int>)
    ensures u == [] <==> s == []
  {
    if s == [] then [] else CodeUnits(s[0]) + Utf16(s[1..])
  }

  /** The relational comparison of ECMAScript on two strings, read as code
      unit sequences: the first differing unit decides, and a proper prefix
      comes first. */
  predicate UnitsLess(a: seq<int>, b: seq<int>)
  {
    if a == [] then b != []
    else if b == [] then false
    else if a[0] != b[0] then a[0] < b[0]
    else UnitsLess(a[1..], b[1..])
  }

  /** The place of a character in code unit order: characters below U+D800
      first, then those above U+FFFF (whose leading surrogate lies in
      U+D800..U+DBFF), then U+E000..U+FFFF. */
  function CharRank(c: char): (r: int)
    ensures 0 <= r
  {
    var n := c as int;
    if n < 0xD800 then n
    else if n >= 0x1_0000 then n - 0x1_0000 + 0xD800
    else n + 0x10_0000
  }

  /** JavaScript's `a < b` on two strings, character by character: the first
      differing character decides by its place in code unit order, and a
      proper prefix comes first. */
  predicate LexLess(a: string, b: string)
  {
    if a == [] then b != []
    else if b == [] then false
    else if a[0] != b[0] then CharRank(a[0]) < CharRank(b[0])
    else LexLess(a[1..], b[1..])
  }

  /** Two distinct characters have distinct places. */
  lemma CharRankInjective(c: char, d: char)
    requires c != d
    ensures CharRank(c) != CharRank(d)
  {
  }

  /** A common prefix of code units does not change the comparison. */
  lemma {:induction false} UnitsLessCommonPrefix(p: seq<int>, x: seq<int>, y: seq<int>)
    ensures UnitsLess(p + x, p + y) == UnitsLess(x, y)
  {
    if p != [] {
      assert (p + x)[0] == p[0] && (p + x)[1..] == p[1..] + x;
      assert (p + y)[0] == p[0] && (p + y)[1..] == p[1..] + y;
      UnitsLessCommonPrefix(p[1..], x, y);
    } else {
      assert p + x == x && p + y == y;
    }
  }

  /** A character above U+FFFF as a pair: its offset from U+10000 split into
      the high and the low ten bits. */
  lemma SurrogateOrder(m: int, k: int)
    requires 0 <= m < 0x10_0000 && 0 <= k < 0x10_0000 && m != k
    ensures m / 0x400 != k / 0x400 ==> (m / 0x400 < k / 0x400 <==> m < k)
    ensures m / 0x400 == k / 0x400 ==> m % 0x400 != k % 0x400 && (m % 0x400 < k % 0x400 <==> m < k)
  {
  }

  /** Two distinct characters compare, as code units, by their places
      whatever follows them. */
  lemma DistinctCharsUnits(c: char, d: char, x: seq<int>, y: seq<int>)
    requires c != d
    ensures UnitsLess(CodeUnits(c) + x, CodeUnits(d) + y) <==> CharRank(c) < CharRank(d)
  {
    var u, v := CodeUnits(c) + x, CodeUnits(d) + y;
    var n, m := c as int, d as int;
    assert u[0] == CodeUnits(c)[0] && v[0] == CodeUnits(d)[0];
    if n >= 0x1_0000 && m >= 0x1_0000 {
      SurrogateOrder(n - 0x1_0000, m - 0x1_0000);
      if u[0] == v[0] {
        assert u[1..][0] == CodeUnits(c)[1] && v[1..][0] == CodeUnits(d)[1];
      }
    }
  }

  /** The character-by-character comparison is exactly the comparison of
      the UTF-16 encodings that JavaScript performs. */
  lemma {:induction false} LexLessIsUtf16Order(a: string, b: string)
    ensures LexLess(a, b) <==> UnitsLess(Utf16(a), Utf16(b))
  {
    if a != [] && b != [] {
      if a[0] == b[0] {
        LexLessIsUtf16Order(a[1..], b[1..]);
        UnitsLessCommonPrefix(CodeUnits(a[0]), Utf16(a[1..]), Utf16(b[1..]));
      } else {
        DistinctCharsUnits(a[0], b[0], Utf16(a[1..]), Utf16(b[1..]));
      }
    }
  }

  /** U+10000 sorts before U+E000 in JavaScript, although its code point is
      larger: its leading surrogate U+D800 is below U+E000. */
  lemma SupplementaryBeforePrivateUse()
    ensures LexLess("\U{10000}", "\U{E000}")
    ensures !LexLess("\U{E000}", "\U{10000}")
  {
  }

  lemma {:induction false} LexLessIrreflexive(a: string)
    ensures !LexLess(a, a)
  {
    if a != [] {
      LexLessIrreflexive(a[1..]);
    }
  }

  lemma {:induction false} LexLessTransitive(a: string, b: string, c: string)
    requires LexLess(a, b) && LexLess(b, c)
    ensures LexLess(a, c)
  {
    if a != [] && b != [] && c != [] && a[0] == b[0] && b[0] == c[0] {
      LexLessTransitive(a[1..], b[1..], c[1..]);
    }
  }

  lemma {:induction false} LexLessTotal(a: string, b: string)
    requires a != b
    ensures LexLess(a, b) || LexLess(b, a)
  {
    if a != [] && b != [] {
      if a[0] == b[0] {
        assert a == [a[0]] + a[1..] && b == [b[0]] + b[1..];
        LexLessTotal(a[1..], b[1..]);
      } else {
        CharRankInjective(a[0], b[0]);
      }
    }
  }

  /** JavaScript's string order is a strict total order, so sorting strings
      with it has one answer. */
  lemma LexLessIsStrictTotalOrder()
    ensures StrictTotalOrder(LexLess)
  {
    forall x: string ensures !LexLess(x, x) {
      LexLessIrreflexive(x);
    }
    forall x: string, y: string, z: string | LexLess(x, y) && LexLess(y, z)
      ensures LexLess(x, z)
    {
      LexLessTransitive(x, y, z);
    }
    forall x: string, y: string | x != y ensures LexLess(x, y) || LexLess(y, x) {
      LexLessTotal(x, y);
    }
  }

  /** Every element of `s` comes strictly before every later one. */
  ghost predicate StrictlyIncreasing<T>(s: seq<T>, less: (T, T) -> bool)
  {
    forall i, j :: 0 <= i < j < |s| ==> less(s[i], s[j])
  }

  /** Inserts `x` into a strictly increasing list unless it is already there. */
  function InsertDistinct<T(==,!new)>(x: T, s: seq<T>, less: (T, T) -> bool): (r: seq<T>)
    requires StrictTotalOrder(less)
    requires StrictlyIncreasing(s, less)
    ensures StrictlyIncreasing(r, less)
    ensures forall y :: y in r <==> y in s || y == x
  {
    if s == [] then [x]
    else if x == s[0] then s
    else if less(x, s[0]) then [x] + s
    else
      var t := InsertDistinct(x, s[1..], less);
      assert forall j :: 0 <= j < |t| ==> less(s[0], t[j]) by {
        forall j | 0 <= j < |t| ensures less(s[0], t[j]) {
          if t[j] != x {
            assert t[j] in s[1..];
            var k :| 0 <= k < |s[1..]| && s[1..][k] == t[j];
            assert s[k + 1] == t[j];
          }
        }
      }
      [s[0]] + t
  }

  /** `[...new Set(xs)].sort(cmp)`: the distinct values of `xs` in increasing
      order. */
  function SortedDistinct<T(==,!new)>(xs: seq<T>, less: (T, T) -> bool): (r: seq<T>)
    requires StrictTotalOrder(less)
    ensures StrictlyIncreasing(r, less)
    ensures forall i, j :: 0 <= i < j < |r| ==> r[i] != r[j]
    ensures forall y :: y in r <==> y in xs
  {
    if xs == [] then []
    else
      var r := InsertDistinct(xs[|xs| - 1], SortedDistinct(xs[..|xs| - 1], less), less);
      assert xs == xs[..|xs| - 1] + [xs[|xs| - 1]];
      r
  }

  /** The first element of a strictly increasing list is below every other. */
  lemma FirstIsLeast<T(!new)>(s: seq<T>, less: (T, T) -> bool, y: T)
    requires StrictlyIncreasing(s, less)
    requires y in s
    ensures y == s[0] || less(s[0], y)
  {
    var i :| 0 <= i < |s| && s[i] == y;
  }

  /** A strictly increasing list is determined by its set of elements: the
      option lists have exactly one correct value. */
  lemma {:induction false} StrictlyIncreasingUnique<T(!new)>(a: seq<T>, b: seq<T>, less: (T, T) -> bool)
    requires StrictTotalOrder(less)
    requires StrictlyIncreasing(a, less) && StrictlyIncreasing(b, less)
    requires forall y :: y in a <==> y in b
    ensures a == b
  {
    if a != [] {
      assert a[0] in a;
    }
    if b != [] {
      assert b[0] in b;
    }
    if a != [] && b != [] {
      FirstIsLeast(b, less, a[0]);
      FirstIsLeast(a, less, b[0]);
      assert a[0] == b[0];
      assert a == [a[0]] + a[1..] && b == [b[0]] + b[1..];
      forall y ensures y in a[1..] <==> y in b[1..] {
        if y in a[1..] {
          var i :| 0 <= i < |a[1..]| && a[1..][i] == y;
          assert less(a[0], a[i + 1]) && y in a;
          assert y != b[0] && y in b;
        }
        if y in b[1..] {
          var j :| 0 <= j < |b[1..]| && b[1..][j] == y;
          assert less(b[0], b[j + 1]) && y in b;
          assert y != a[0] && y in a;
        }
      }
      StrictlyIncreasingUnique(a[1..], b[1..], less);
    }
  }
}
