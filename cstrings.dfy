/** NUL-terminated byte strings, as the two example copy routines under docs/odd_strcpy see
    their buffers, and the copy that the strcpy of section 7.24.2.3 of ISO/IEC 9899:2011
    (C11) promises. */
module CStrings {
  /** The terminating null byte. */
  const NUL: bv8 := 0

  /** Position of the first null byte: the length of the C string held at the start of `s`. */
  function Len(s: seq<bv8>): (n: nat)
    requires NUL in s
    ensures n < |s| && s[n] == NUL
  {
    if s[0] == NUL then 0 else 1 + Len(s[1..])
  }

  lemma {:induction false} LenSpec(s: seq<bv8>)
    requires NUL in s
    ensures forall k :: 0 <= k < Len(s) ==> s[k] != NUL
  {
    if s[0] != NUL {
      LenSpec(s[1..]);
      forall k | 0 < k < Len(s) ensures s[k] != NUL {
        assert s[k] == s[1..][k - 1];
      }
    }
  }

  /** The first null byte is at n when none comes before it. */
  lemma {:induction false} LenIs(s: seq<bv8>, n: nat)
    requires n < |s| && s[n] == NUL && forall k :: 0 <= k < n ==> s[k] != NUL
    ensures Len(s) == n
  {
    if n > 0 {
      LenIs(s[1..], n - 1);
    }
  }

  /** The C string held at the start of `s`, without its terminator. */
  function Text(s: seq<bv8>): (t: seq<bv8>)
    requires NUL in s
    ensures NUL !in t && |t| == Len(s)
  {
    LenSpec(s);
    s[..Len(s)]
  }

  /** The destination buffer after `strcpy(dest, src)` in C11: the string of `src` and its
      terminator at the front, the bytes behind it as they were. */
  function StrcpyResult(dest: seq<bv8>, src: seq<bv8>): (r: seq<bv8>)
    requires NUL in src && Len(src) < |dest|
    ensures |r| == |dest|
  {
    src[..Len(src) + 1] + dest[Len(src) + 1..]
  }

  /** After the copy the destination holds the same C string as the source. */
  lemma StrcpyCopiesText(dest: seq<bv8>, src: seq<bv8>)
    requires NUL in src && Len(src) < |dest|
    ensures NUL in StrcpyResult(dest, src)
    ensures Text(StrcpyResult(dest, src)) == Text(src)
  {
    var r := StrcpyResult(dest, src);
    var n := Len(src);
    LenSpec(src);
    assert r[n] == NUL;
    LenIs(r, n);
  }
}
