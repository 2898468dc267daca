/** The deliberately faulty strcpy of docs/odd_strcpy/max_strcpy.c: it copies byte by byte
    and stops after copying either the terminator or the first 'l', so on a string holding
    an 'l' it leaves the copy unterminated. */
module MaxStrcpy {
  import opened CStrings

  /** The byte value of the character 'l'. */
  const L: bv8 := 108

  /** A byte at which the copy loop returns. */
  predicate Stops(b: bv8)
  {
    b == NUL || b == L
  }

  /** Position of the first byte at which the copy loop returns. */
  function StopAt(s: seq<bv8>): (k: nat)
    requires exists i :: 0 <= i < |s| && Stops(s[i])
    ensures k < |s| && Stops(s[k])
  {
    if Stops(s[0]) then 0
    else
      assert exists i :: 0 <= i < |s[1..]| && Stops(s[1..][i]) by {
        var i :| 0 <= i < |s| && Stops(s[i]);
        assert s[1..][i - 1] == s[i];
      }
      1 + StopAt(s[1..])
  }

  lemma {:induction false} StopAtSpec(s: seq<bv8>)
    requires exists i :: 0 <= i < |s| && Stops(s[i])
    ensures forall k :: 0 <= k < StopAt(s) ==> !Stops(s[k])
  {
    if !Stops(s[0]) {
      assert exists i :: 0 <= i < |s[1..]| && Stops(s[1..][i]) by {
        var i :| 0 <= i < |s| && Stops(s[i]);
        assert s[1..][i - 1] == s[i];
      }
      StopAtSpec(s[1..]);
      forall k | 0 < k < StopAt(s) ensures !Stops(s[k]) {
        assert s[k] == s[1..][k - 1];
      }
    }
  }

  /** The destination after the faulty copy: the source up to and including the first NUL or
      'l', the rest of the destination unchanged. */
  function MaxCopy(dest: seq<bv8>, src: seq<bv8>): (r: seq<bv8>)
    requires exists i :: 0 <= i < |src| && Stops(src[i])
    requires StopAt(src) < |dest|
    ensures |r| == |dest|
  {
    src[..StopAt(src) + 1] + dest[StopAt(src) + 1..]
  }

  /** `strcpy` of max_strcpy.c, with the pointers `d` and `s` as offsets into the buffers.
      `restrict` makes the two buffers distinct. */
  method Strcpy(dest: array<bv8>, src: array<bv8>) returns (r: array<bv8>)
    requires dest != src
    requires exists i :: 0 <= i < src.Length && Stops(src[i])
    requires StopAt(src[..]) < dest.Length
    modifies dest
    ensures r == dest
    ensures dest[..] == MaxCopy(old(dest[..]), src[..])
  {
    StopAtSpec(src[..]);
    ghost var k := StopAt(src[..]);
    var p := 0;
    while true
      invariant p <= k
      invariant forall j :: 0 <= j < p ==> dest[j] == src[j]
      invariant forall j :: p <= j < dest.Length ==> dest[j] == old(dest[j])
      decreases k - p
    {
      dest[p] := src[p];
      if src[p] == NUL || src[p] == L {
        assert p == k;
        assert dest[..] == MaxCopy(old(dest[..]), src[..]);
        return dest;
      }
      p := p + 1;
    }
  }

  /** Without an 'l' before the terminator the faulty copy is the C11 strcpy. */
  lemma SameAsStrcpyWithoutL(dest: seq<bv8>, src: seq<bv8>)
    requires NUL in src && Len(src) < |dest|
    requires forall k :: 0 <= k < Len(src) ==> src[k] != L
    ensures exists i :: 0 <= i < |src| && Stops(src[i])
    ensures StopAt(src) == Len(src)
    ensures MaxCopy(dest, src) == StrcpyResult(dest, src)
  {
    LenSpec(src);
    assert Stops(src[Len(src)]);
    StopAtSpec(src);
    StopAtIs(src, Len(src));
  }

  /** The loop stops at position k when no earlier byte stops it. */
  lemma StopAtIs(s: seq<bv8>, k: nat)
    requires k < |s| && Stops(s[k]) && forall j :: 0 <= j < k ==> !Stops(s[j])
    ensures StopAt(s) == k
  {
    StopAtSpec(s);
  }

  /** With an 'l' before the terminator the faulty copy stops at that 'l': it agrees with
      strcpy exactly when the destination already held the rest of the string and its
      terminator. */
  lemma DivergesAtL(dest: seq<bv8>, src: seq<bv8>)
    requires NUL in src && Len(src) < |dest|
    requires exists k :: 0 <= k < Len(src) && src[k] == L
    ensures exists i :: 0 <= i < |src| && Stops(src[i])
    ensures StopAt(src) < Len(src) && src[StopAt(src)] == L
    ensures MaxCopy(dest, src) == StrcpyResult(dest, src)
            <==> dest[StopAt(src) + 1..Len(src) + 1] == src[StopAt(src) + 1..Len(src) + 1]
  {
    StopBeforeEnd(src);
    var a, n := StopAt(src), Len(src);
    var m, c := MaxCopy(dest, src), StrcpyResult(dest, src);
    assert m == src[..a + 1] + dest[a + 1..] && c == src[..n + 1] + dest[n + 1..];
    SpliceEq(dest, src, a, n);
  }

  /** An 'l' before the terminator is where the loop stops. */
  lemma StopBeforeEnd(src: seq<bv8>)
    requires NUL in src
    requires exists k :: 0 <= k < Len(src) && src[k] == L
    ensures exists i :: 0 <= i < |src| && Stops(src[i])
    ensures StopAt(src) < Len(src) && src[StopAt(src)] == L
  {
    LenSpec(src);
    var k :| 0 <= k < Len(src) && src[k] == L;
    assert Stops(src[k]);
    StopAtSpec(src);
  }

  /** Two copies that stop at a and at n agree exactly when the destination already held
      the source's bytes between them. */
  lemma SpliceEq(dest: seq<bv8>, src: seq<bv8>, a: nat, n: nat)
    requires a <= n < |dest| && n < |src|
    ensures src[..a + 1] + dest[a + 1..] == src[..n + 1] + dest[n + 1..]
            <==> dest[a + 1..n + 1] == src[a + 1..n + 1]
  {
    var m := src[..a + 1] + dest[a + 1..];
    var c := src[..n + 1] + dest[n + 1..];
    if dest[a + 1..n + 1] == src[a + 1..n + 1] {
      forall j | 0 <= j < |dest| ensures m[j] == c[j] {
        if a < j <= n {
          assert dest[a + 1..n + 1][j - a - 1] == dest[j];
        }
      }
      assert m == c;
    }
    if m == c {
      forall j | a < j <= n ensures dest[j] == src[j] {
        assert m[j] == dest[j] && c[j] == src[j];
      }
      assert dest[a + 1..n + 1] == src[a + 1..n + 1];
    }
  }

  /** On "hello" copied into a zeroed buffer the faulty copy yields "hel". */
  lemma HelloBecomesHel()
    ensures var src: seq<bv8> := [104, 101, 108, 108, 111, 0];
            var dest: seq<bv8> := [0, 0, 0, 0, 0, 0];
            && (exists i :: 0 <= i < |src| && Stops(src[i]))
            && NUL in MaxCopy(dest, src)
            && Text(MaxCopy(dest, src)) == [104, 101, 108]
            && Text(StrcpyResult(dest, src)) == [104, 101, 108, 108, 111]
  {
    var src: seq<bv8> := [104, 101, 108, 108, 111, 0];
    var dest: seq<bv8> := [0, 0, 0, 0, 0, 0];
    assert Stops(src[2]);
    StopAtIs(src, 2);
    var m := MaxCopy(dest, src);
    assert m == [104, 101, 108, 0, 0, 0];
    LenIs(m, 3);
    LenIs(src, 5);
    StrcpyCopiesText(dest, src);
  }
}
