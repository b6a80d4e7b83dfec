/**
 * Byte strings and the counting primitives the classifier and the sniffer
 * share: `bytes.startswith`, `bytes.count`, the index of a first occurrence,
 * and Python's `max(..., key=...)`, which keeps the first of equal maxima.
 */
module ByteCounting {

  /** One byte of a file or of a sample. */
  newtype byte = b: int | 0 <= b < 256

  const LF: byte := 0x0A
  const CR: byte := 0x0D
  const CRLF: seq<byte> := [CR, LF]

  /** `s.startswith(p)`. */
  predicate StartsWith(s: seq<byte>, p: seq<byte>) {
    |p| <= |s| && s[..|p|] == p
  }

  /**
   * `s.count(pat)` for a non-empty pattern: the occurrences found by a
   * left-to-right scan that resumes after each match, so they never overlap.
   */
  function CountOf(s: seq<byte>, pat: seq<byte>): (n: nat)
    requires |pat| > 0
    ensures n * |pat| <= |s|
    decreases |s|
  {
    if |s| < |pat| then 0
    else if s[..|pat|] == pat then 1 + CountOf(s[|pat|..], pat)
    else CountOf(s[1..], pat)
  }

  /** Counting one byte steps through the sequence one position at a time. */
  lemma CountOfOneStep(s: seq<byte>, b: byte)
    requires |s| > 0
    ensures CountOf(s, [b]) == (if s[0] == b then 1 else 0) + CountOf(s[1..], [b])
  {
    assert s[..1] == [s[0]];
  }

  /** A byte is counted at least once exactly when it occurs. */
  lemma {:induction false} CountOfPositive(s: seq<byte>, b: byte)
    ensures CountOf(s, [b]) > 0 <==> b in s
    decreases |s|
  {
    if |s| > 0 {
      CountOfOneStep(s, b);
      CountOfPositive(s[1..], b);
      assert s == [s[0]] + s[1..];
    }
  }

  /** Every `\r\n` also holds one `\n`, so the CRLF count never exceeds the LF count. */
  lemma {:induction false} CrlfCountAtMostLf(s: seq<byte>)
    ensures CountOf(s, CRLF) <= CountOf(s, [LF])
    decreases |s|
  {
    if |s| >= 2 {
      CountOfOneStep(s, LF);
      CountOfOneStep(s[1..], LF);
      assert s[1..][1..] == s[2..];
      if s[..2] == CRLF {
        assert s[0] == CR && s[1] == LF;
        CrlfCountAtMostLf(s[2..]);
      } else {
        CrlfCountAtMostLf(s[1..]);
      }
    }
  }

  /** Every `\r\n` also holds one `\r`, so the CRLF count never exceeds the CR count. */
  lemma {:induction false} CrlfCountAtMostCr(s: seq<byte>)
    ensures CountOf(s, CRLF) <= CountOf(s, [CR])
    decreases |s|
  {
    if |s| >= 2 {
      CountOfOneStep(s, CR);
      CountOfOneStep(s[1..], CR);
      assert s[1..][1..] == s[2..];
      if s[..2] == CRLF {
        assert s[0] == CR && s[1] == LF;
        CrlfCountAtMostCr(s[2..]);
      } else {
        CrlfCountAtMostCr(s[1..]);
      }
    }
  }

  /** The position of the first occurrence of `b` in `s`. */
  function FirstIndex(s: seq<byte>, b: byte): (i: nat)
    requires b in s
    ensures i < |s| && s[i] == b && b !in s[..i]
  {
    if s[0] == b then 0
    else
      var j := FirstIndex(s[1..], b);
      assert s[..j + 1] == [s[0]] + s[1..][..j];
      j + 1
  }

  /**
   * Python's `max` over a non-empty sequence of keys: the index of a largest
   * key, and of the first one when several are equal (a later key replaces
   * the best so far only when it is strictly larger).
   */
  function FirstMaxIndex(keys: seq<int>): (k: nat)
    requires |keys| > 0
    ensures k < |keys|
    ensures forall j :: 0 <= j < |keys| ==> keys[j] <= keys[k]
    ensures forall j :: 0 <= j < k ==> keys[j] < keys[k]
    decreases |keys|
  {
    if |keys| == 1 then 0
    else
      var best := FirstMaxIndex(keys[..|keys| - 1]);
      if keys[|keys| - 1] > keys[best] then |keys| - 1 else best
  }
}
