/**
 * `Levenshtein.distance` (helpers/levenshtein.py): the edit distance of two
 * strings after stripping surrounding whitespace, computed row by row and
 * cut off at `limit + 1`.
 */
module Levenshtein {

  // ---------------------------------------------------------------------------
  // `str.strip()`

  /** The characters `str.isspace` accepts: Unicode whitespace, including the separators 0x1C to 0x1F. */
  predicate IsSpace(c: char) {
    var n := c as int;
    (0x09 <= n <= 0x0D) || (0x1C <= n <= 0x20) || n == 0x85 || n == 0xA0 || n == 0x1680
    || (0x2000 <= n <= 0x200A) || n == 0x2028 || n == 0x2029 || n == 0x202F || n == 0x205F
    || n == 0x3000
  }

  predicate AllSpace(s: string) {
    forall i :: 0 <= i < |s| ==> IsSpace(s[i])
  }

  function StripLeft(s: string): (r: string)
    ensures |r| <= |s| && r == s[|s| - |r|..]
    ensures AllSpace(s[..|s| - |r|])
    ensures |r| > 0 ==> !IsSpace(r[0])
  {
    if |s| > 0 && IsSpace(s[0]) then
      var r := StripLeft(s[1..]);
      assert s[1..][..|s[1..]| - |r|] == s[1..|s| - |r|];
      r
    else s
  }

  function StripRight(s: string): (r: string)
    ensures |r| <= |s| && r == s[..|r|]
    ensures AllSpace(s[|r|..])
    ensures |r| > 0 ==> !IsSpace(r[|r| - 1])
  {
    if |s| > 0 && IsSpace(s[|s| - 1]) then
      var r := StripRight(s[..|s| - 1]);
      assert s[|r|..] == s[..|s| - 1][|r|..] + [s[|s| - 1]];
      r
    else s
  }

  /** `s.strip()`: `s` without the whitespace at either end. */
  function Strip(s: string): (r: string)
    ensures |r| <= |s|
    ensures |r| > 0 ==> !IsSpace(r[0]) && !IsSpace(r[|r| - 1])
  {
    StripRight(StripLeft(s))
  }

  /** What strip removes is whitespace, and what it keeps is a contiguous part of `s`. */
  lemma StripMeaning(s: string)
    ensures exists i, j :: 0 <= i <= j <= |s| && Strip(s) == s[i..j] && AllSpace(s[..i]) && AllSpace(s[j..])
  {
    var left := StripLeft(s);
    var r := StripRight(left);
    var i := |s| - |left|;
    var j := i + |r|;
    assert left == s[i..] && r == left[..|r|];
    assert r == s[i..j];
    assert s[j..] == left[|r|..];
    assert Strip(s) == s[i..j] && AllSpace(s[..i]) && AllSpace(s[j..]);
  }

  /** Stripping twice strips nothing more. */
  lemma StripIdempotent(s: string)
    ensures Strip(Strip(s)) == Strip(s)
  {
    var r := Strip(s);
    if |r| > 0 {
      assert !IsSpace(r[0]);
      assert StripLeft(r) == r;
      assert StripRight(r) == r;
    }
  }

  // ---------------------------------------------------------------------------
  // The edit distance

  function Min(a: int, b: int): int {
    if a <= b then a else b
  }

  function Max(a: int, b: int): int {
    if a >= b then a else b
  }

  function Min3(a: int, b: int, c: int): int {
    Min(a, Min(b, c))
  }

  function DropLast(s: string): string
    requires |s| > 0
  {
    s[..|s| - 1]
  }

  function Last(s: string): char
    requires |s| > 0
  {
    s[|s| - 1]
  }

  /**
   * The unit-cost edit distance: the fewest insertions, deletions and
   * substitutions of single characters that turn `a` into `b`. It is at
   * least the difference of the lengths and at most the larger length.
   */
  function EditDistance(a: string, b: string): (d: nat)
    ensures d <= Max(|a|, |b|)
    ensures |a| - |b| <= d && |b| - |a| <= d
  {
    if |a| == 0 then |b|
    else if |b| == 0 then |a|
    else
      Min3(EditDistance(DropLast(a), b) + 1,
           EditDistance(a, DropLast(b)) + 1,
           EditDistance(DropLast(a), DropLast(b)) + (if Last(a) == Last(b) then 0 else 1))
  }

  lemma {:induction false} EditDistanceSymmetric(a: string, b: string)
    ensures EditDistance(a, b) == EditDistance(b, a)
    decreases |a| + |b|
  {
    if |a| > 0 && |b| > 0 {
      EditDistanceSymmetric(DropLast(a), b);
      EditDistanceSymmetric(a, DropLast(b));
      EditDistanceSymmetric(DropLast(a), DropLast(b));
    }
  }

  /** Removing the last character of the first string changes the distance by at most one. */
  lemma {:induction false} DropLastLeft(a: string, b: string)
    requires |a| > 0
    ensures EditDistance(DropLast(a), b) <= EditDistance(a, b) + 1
    decreases |a| + |b|
  {
    if |b| > 0 && |a| > 1 {
      DropLastLeft(a, DropLast(b));
    }
  }

  lemma DropLastRight(a: string, b: string)
    requires |b| > 0
    ensures EditDistance(a, DropLast(b)) <= EditDistance(a, b) + 1
  {
    EditDistanceSymmetric(a, b);
    EditDistanceSymmetric(a, DropLast(b));
    DropLastLeft(b, a);
  }

  /** Equal last characters can be dropped from both strings: the step the row update takes on a match. */
  lemma EqualLast(a: string, b: string)
    requires |a| > 0 && |b| > 0 && Last(a) == Last(b)
    ensures EditDistance(a, b) == EditDistance(DropLast(a), DropLast(b))
  {
    DropLastRight(DropLast(a), b);
    DropLastLeft(a, DropLast(b));
  }

  lemma {:induction false} EditDistanceSelf(a: string)
    ensures EditDistance(a, a) == 0
  {
    if |a| > 0 {
      EditDistanceSelf(DropLast(a));
    }
  }

  /** The distance to or from the empty string is the other string's length. */
  lemma EditDistanceEmpty(t: string)
    ensures EditDistance([], t) == |t| && EditDistance(t, []) == |t|
  {
  }

  // ---------------------------------------------------------------------------
  // `Levenshtein.distance`

  /**
   * What `distance(s1, s2, limit)` answers: with both strings stripped, the
   * edit distance, unless the longer one has more than `limit + 1`
   * characters, in which case `limit + 1`.
   */
  function BoundedDistance(s1: string, s2: string, limit: int): int {
    BoundedOfStripped(Strip(s1), Strip(s2), limit)
  }

  function BoundedOfStripped(a: string, b: string, limit: int): int {
    var n := Max(|a|, |b|);
    if n > 0 && n > limit + 1 then limit + 1 else EditDistance(a, b)
  }

  /**
   * The row-by-row computation: `distances[k]` is the distance from the
   * first `k` characters of the shorter string to the part of the longer
   * one consumed so far.
   */
  method Distance(s1: string, s2: string, limit: int) returns (d: int)
    ensures d == BoundedDistance(s1, s2, limit)
  {
    var short := Strip(s1);
    var long := Strip(s2);
    if |short| > |long| {
      short, long := long, short;
    }
    EditDistanceSymmetric(short, long);
    d := Table(short, long, limit);
  }

  /**
   * The loops of `distance` once the strings are stripped and ordered:
   * `distances[k]` is the distance from the first `k` characters of the
   * shorter string to the part of the longer one consumed so far.
   */
  method Table(short: string, long: string, limit: int) returns (d: int)
    requires |short| <= |long|
    ensures d == if |long| > 0 && |long| > limit + 1 then limit + 1 else EditDistance(short, long)
  {
    var distances := InitialRow(short, long);
    for j := 0 to |long|
      invariant |distances| == |short| + 1
      invariant forall k :: 0 <= k <= |short| ==> distances[k] == EditDistance(short[..k], long[..j])
      invariant j == 0 || j <= limit + 1
    {
      if j > limit {
        return limit + 1;
      }
      var row, cut := NextRow(short, long, distances, j, limit);
      if cut {
        return limit + 1;
      }
      distances := row;
    }
    assert short[..|short|] == short && long[..|long|] == long;
    d := distances[|short|];
    assert d == EditDistance(short, long);
  }

  /** `range(len(s1) + 1)`: the distances from the prefixes of the shorter string to the empty string. */
  method InitialRow(short: string, long: string) returns (distances: seq<int>)
    ensures |distances| == |short| + 1
    ensures forall k :: 0 <= k <= |short| ==> distances[k] == EditDistance(short[..k], long[..0])
  {
    distances := seq(|short| + 1, k => k);
    assert long[..0] == [];
    forall k | 0 <= k <= |short|
      ensures distances[k] == EditDistance(short[..k], long[..0])
    {
      EditDistanceEmpty(short[..k]);
    }
  }

  /**
   * The inner loop for character `j` of the longer string: the next row of
   * the table, or a cut-off when the shorter string has more than
   * `limit + 1` characters.
   */
  method NextRow(short: string, long: string, distances: seq<int>, j: nat, limit: int)
    returns (row: seq<int>, cut: bool)
    requires j < |long| && j <= limit && |distances| == |short| + 1
    requires forall k :: 0 <= k <= |short| ==> distances[k] == EditDistance(short[..k], long[..j])
    ensures cut <==> |short| > limit + 1
    ensures !cut ==> |row| == |short| + 1 && row[0] == j + 1
    ensures !cut ==> forall k :: 0 <= k <= |short| ==> row[k] == EditDistance(short[..k], long[..j + 1])
  {
    row := [j + 1];
    EditDistanceEmpty(long[..j + 1]);
    for k := 0 to |short|
      invariant |row| == k + 1 && row[0] == j + 1
      invariant k <= limit + 1
      invariant forall p :: 0 <= p <= k ==> row[p] == EditDistance(short[..p], long[..j + 1])
    {
      if k > limit {
        return row, true;
      }
      var cell := if short[k] == long[j] then distances[k] else 1 + Min3(distances[k], distances[k + 1], row[k]);
      RowStep(short, long, k, j, distances[k], distances[k + 1], row[k]);
      ExtendRow(short, long[..j + 1], row, cell);
      row := row + [cell];
    }
    cut := false;
  }

  /** A row of distances from the prefixes of `short` to `t` stays one when extended by the next one. */
  lemma ExtendRow(short: string, t: string, row: seq<int>, cell: int)
    requires |row| <= |short|
    requires forall p :: 0 <= p < |row| ==> row[p] == EditDistance(short[..p], t)
    requires cell == EditDistance(short[..|row|], t)
    ensures forall p :: 0 <= p <= |row| ==> (row + [cell])[p] == EditDistance(short[..p], t)
  {
  }

  /**
   * One cell of the table: from the diagonal, upper and left neighbours,
   * the distance between the next two prefixes.
   */
  lemma RowStep(short: string, long: string, k: nat, j: nat, diagonal: int, up: int, left: int)
    requires k < |short| && j < |long|
    requires diagonal == EditDistance(short[..k], long[..j])
    requires up == EditDistance(short[..k + 1], long[..j])
    requires left == EditDistance(short[..k], long[..j + 1])
    ensures EditDistance(short[..k + 1], long[..j + 1])
            == if short[k] == long[j] then diagonal else 1 + Min3(diagonal, up, left)
  {
    var a := short[..k + 1];
    var b := long[..j + 1];
    assert DropLast(a) == short[..k] && DropLast(b) == long[..j];
    if short[k] == long[j] {
      EqualLast(a, b);
    } else {
      MismatchStep(a, b);
      Min3Shift(diagonal, up, left);
    }
  }

  /** With different last characters, each of the three edits costs one. */
  lemma MismatchStep(a: string, b: string)
    requires |a| > 0 && |b| > 0 && Last(a) != Last(b)
    ensures EditDistance(a, b)
            == Min3(EditDistance(DropLast(a), b), EditDistance(a, DropLast(b)), EditDistance(DropLast(a), DropLast(b))) + 1
  {
  }

  lemma Min3Shift(x: int, y: int, z: int)
    ensures Min3(z, y, x) + 1 == 1 + Min3(x, y, z)
  {
  }

  // ---------------------------------------------------------------------------
  // What the answer promises

  /** Swapping the arguments does not change the answer. */
  lemma DistanceSymmetric(s1: string, s2: string, limit: int)
    ensures BoundedDistance(s1, s2, limit) == BoundedDistance(s2, s1, limit)
  {
    BoundedOfStrippedSymmetric(Strip(s1), Strip(s2), limit);
  }

  lemma BoundedOfStrippedSymmetric(a: string, b: string, limit: int)
    ensures BoundedOfStripped(a, b, limit) == BoundedOfStripped(b, a, limit)
  {
    EditDistanceSymmetric(a, b);
  }

  /** The answer never exceeds `limit + 1`, unless both strings are blank and the limit is below -1. */
  lemma DistanceAtMostLimit(s1: string, s2: string, limit: int)
    requires limit >= -1 || |Strip(s1)| > 0 || |Strip(s2)| > 0
    ensures BoundedDistance(s1, s2, limit) <= limit + 1
  {
  }

  /** A longer string of more than `limit + 1` characters gives `limit + 1`, even against itself. */
  lemma LongInputCutOff(s1: string, s2: string, limit: int)
    requires Max(|Strip(s1)|, |Strip(s2)|) > limit + 1 && Max(|Strip(s1)|, |Strip(s2)|) > 0
    ensures BoundedDistance(s1, s2, limit) == limit + 1
  {
  }

  /** Within the limit the answer is the edit distance; identical strings give 0. */
  lemma ExactWithinLimit(s1: string, s2: string, limit: int)
    requires |Strip(s1)| <= limit + 1 && |Strip(s2)| <= limit + 1
    ensures BoundedDistance(s1, s2, limit) == EditDistance(Strip(s1), Strip(s2))
    ensures Strip(s1) == Strip(s2) ==> BoundedDistance(s1, s2, limit) == 0
  {
    EditDistanceSelf(Strip(s1));
  }

  /** From the empty string, the answer is the stripped length of the other string, within the limit. */
  lemma DistanceFromEmpty(t: string, limit: int)
    requires |Strip(t)| <= limit + 1
    ensures BoundedDistance([], t, limit) == |Strip(t)|
  {
    assert Strip([]) == [];
    EditDistanceEmpty(Strip(t));
  }

  /** Surrounding whitespace is ignored: stripping the inputs first changes nothing. */
  lemma WhitespaceIgnored(s1: string, s2: string, limit: int)
    ensures BoundedDistance(Strip(s1), Strip(s2), limit) == BoundedDistance(s1, s2, limit)
  {
    StripIdempotent(s1);
    StripIdempotent(s2);
    var a, b := Strip(s1), Strip(s2);
    assert Strip(a) == a && Strip(b) == b;
    assert BoundedDistance(a, b, limit) == BoundedOfStripped(a, b, limit);
    assert BoundedDistance(s1, s2, limit) == BoundedOfStripped(a, b, limit);
  }
}
