/** The musl `__stpcpy` of docs/odd_strcpy/musl_stpcpy.c, for a 64-bit `size_t`: when source
    and destination share their offset within a word it copies single bytes up to the next
    word boundary, then whole words for as long as a word holds no zero byte, and finishes
    byte by byte; it returns a pointer to the copied terminator (the stpcpy of POSIX).

    Addresses are not modelled: whether the two pointers share their alignment is the
    parameter `aligned`, and the number of bytes before the source reaches a word boundary
    is the parameter `lead`. */
module MuslStpcpy {
  import opened CStrings

  /** ALIGN: sizeof(size_t) on a 64-bit target. */
  const ALIGN: nat := 8

  /** ONES: `(size_t)-1/UCHAR_MAX`, the byte 0x01 in every byte of a word. */
  const ONES: bv64 := 0xFFFF_FFFF_FFFF_FFFF / 255

  /** HIGHS: `ONES * (UCHAR_MAX/2+1)`, the byte 0x80 in every byte of a word. */
  const HIGHS: bv64 := ONES * (255 / 2 + 1)

  /** HASZERO(x). */
  function HasZero(x: bv64): bv64
  {
    (x - ONES) & !x & HIGHS
  }

  /** The bytes of a word as they lie in memory, least significant first. */
  function Unpack(x: bv64): (w: seq<bv8>)
    ensures |w| == ALIGN
  {
    [(x & 0xFF) as bv8, ((x >> 8) & 0xFF) as bv8, ((x >> 16) & 0xFF) as bv8, ((x >> 24) & 0xFF) as bv8,
     ((x >> 32) & 0xFF) as bv8, ((x >> 40) & 0xFF) as bv8, ((x >> 48) & 0xFF) as bv8, (x >> 56) as bv8]
  }

  /** The word `*ws` loaded from eight bytes of memory. */
  function Pack(w: seq<bv8>): bv64
    requires |w| == ALIGN
  {
    (w[0] as bv64) | (w[1] as bv64 << 8) | (w[2] as bv64 << 16) | (w[3] as bv64 << 24) |
    (w[4] as bv64 << 32) | (w[5] as bv64 << 40) | (w[6] as bv64 << 48) | (w[7] as bv64 << 56)
  }

  /** HASZERO is nonzero exactly when some byte of the word is zero. */
  lemma HasZeroIff(x: bv64)
    ensures HasZero(x) != 0 <==> 0 in Unpack(x)
  {
  }

  /** Storing a loaded word writes back the bytes it was loaded from. */
  lemma UnpackPack(w: seq<bv8>)
    requires |w| == ALIGN
    ensures Unpack(Pack(w)) == w
  {
    var b0, b1, b2, b3, b4, b5, b6, b7 := w[0], w[1], w[2], w[3], w[4], w[5], w[6], w[7];
    assert w == [b0, b1, b2, b3, b4, b5, b6, b7];
  }

  /** A word the word loop copies lies wholly before the terminator. */
  lemma WordBeforeTerminator(s: seq<bv8>, i: nat)
    requires NUL in s && i <= Len(s) && i + ALIGN <= |s|
    requires HasZero(Pack(s[i..i + ALIGN])) == 0
    ensures i + ALIGN <= Len(s)
  {
    if Len(s) < i + ALIGN {
      NulInWord(s, i);
      HasZeroIff(Pack(s[i..i + ALIGN]));
      UnpackPack(s[i..i + ALIGN]);
      assert false;
    }
  }

  /** The word that holds the terminator has a zero byte. */
  lemma NulInWord(s: seq<bv8>, i: nat)
    requires NUL in s && i <= Len(s) < i + ALIGN <= |s|
    ensures NUL in s[i..i + ALIGN]
  {
    assert s[i..i + ALIGN][Len(s) - i] == NUL;
  }

  /** End of the aligned word that holds the terminator at n, when word reads start at lead:
      the word loop reads no further. */
  function WordEnd(lead: nat, n: nat): (e: nat)
    requires lead <= n
    ensures n < e
  {
    lead + ALIGN * ((n - lead) / ALIGN) + ALIGN
  }

  /** A word read at a word boundary at or before the terminator stays within WordEnd. */
  lemma WordFits(lead: nat, n: nat, i: nat)
    requires lead <= i <= n && (i - lead) % ALIGN == 0
    ensures i + ALIGN <= WordEnd(lead, n)
  {
    var q := (i - lead) / ALIGN;
    assert i - lead == ALIGN * q;
    assert ALIGN * q <= n - lead;
    assert q <= (n - lead) / ALIGN;
  }

  /** A destination that holds the source through its terminator at n, and its old bytes
      after that, holds what strcpy leaves in it. */
  lemma CopiedThrough(after: seq<bv8>, before: seq<bv8>, src: seq<bv8>, n: nat)
    requires NUL in src && n == Len(src) && n < |before| == |after|
    requires forall k :: 0 <= k <= n ==> after[k] == src[k]
    requires forall k :: n < k < |after| ==> after[k] == before[k]
    ensures after == StrcpyResult(before, src)
  {
  }

  /** `*wd = *ws`: one word stored into the destination at offset i. */
  method StoreWord(d: array<bv8>, i: nat, x: bv64)
    requires i + ALIGN <= d.Length
    modifies d
    ensures forall k :: 0 <= k < i ==> d[k] == old(d[k])
    ensures forall k :: i <= k < i + ALIGN ==> d[k] == Unpack(x)[k - i]
    ensures forall k :: i + ALIGN <= k < d.Length ==> d[k] == old(d[k])
  {
    var bytes := Unpack(x);
    forall k | i <= k < i + ALIGN {
      d[k] := bytes[k - i];
    }
  }

  /** `__stpcpy(d, s)`, the pointers as offsets into the two buffers; the result is the
      offset of the returned pointer. The caller provides a destination large enough for the
      string, and the aligned word reads of the source stay within the source buffer. */
  method Stpcpy(d: array<bv8>, s: array<bv8>, aligned: bool, lead: nat) returns (r: nat)
    requires d != s
    requires NUL in s[..] && Len(s[..]) < d.Length
    requires lead < ALIGN
    requires aligned && lead <= Len(s[..]) ==> WordEnd(lead, Len(s[..])) <= s.Length
    modifies d
    ensures r == Len(s[..]) && d[r] == NUL
    ensures d[..] == StrcpyResult(old(d[..]), s[..])
  {
    LenSpec(s[..]);
    ghost var n := Len(s[..]);
    var i := 0;
    if aligned {
      // bytes up to the word boundary of the source
      while i < lead
        invariant i <= lead && i <= n
        invariant forall k :: 0 <= k < i ==> d[k] == s[k]
        invariant forall k :: i <= k < d.Length ==> d[k] == old(d[k])
      {
        d[i] := s[i];
        if d[i] == NUL {
          CopiedThrough(d[..], old(d[..]), s[..], i);
          return i;
        }
        i := i + 1;
      }
      i := CopyWords(d, s, lead);
    }
    i := CopyBytes(d, s, i);
    CopiedThrough(d[..], old(d[..]), s[..], i);
    return i;
  }

  /** `for (; !HASZERO(*ws); *wd++ = *ws++);`: whole words from the word boundary `lead` on,
      for as long as the word read holds no zero byte. */
  method CopyWords(d: array<bv8>, s: array<bv8>, lead: nat) returns (i: nat)
    requires d != s
    requires NUL in s[..] && Len(s[..]) < d.Length
    requires lead <= Len(s[..]) && WordEnd(lead, Len(s[..])) <= s.Length
    requires forall k :: 0 <= k < lead ==> d[k] == s[k]
    modifies d
    ensures lead <= i <= Len(s[..])
    ensures forall k :: 0 <= k < i ==> d[k] == s[k]
    ensures forall k :: i <= k < d.Length ==> d[k] == old(d[k])
  {
    ghost var n := Len(s[..]);
    i := lead;
    WordFits(lead, n, i);
    while HasZero(Pack(s[i..i + ALIGN])) == 0
      invariant lead <= i <= n && (i - lead) % ALIGN == 0 && i + ALIGN <= s.Length
      invariant forall k :: 0 <= k < i ==> d[k] == s[k]
      invariant forall k :: i <= k < d.Length ==> d[k] == old(d[k])
      decreases n - i
    {
      WordBeforeTerminator(s[..], i);
      UnpackPack(s[i..i + ALIGN]);
      StoreWord(d, i, Pack(s[i..i + ALIGN]));
      i := i + ALIGN;
      WordFits(lead, n, i);
    }
  }

  /** `for (; (*d=*s); s++, d++);`: single bytes from offset i0 on, through the terminator. */
  method CopyBytes(d: array<bv8>, s: array<bv8>, i0: nat) returns (i: nat)
    requires d != s
    requires NUL in s[..] && Len(s[..]) < d.Length && i0 <= Len(s[..])
    requires forall k :: 0 <= k < i0 ==> d[k] == s[k]
    modifies d
    ensures i == Len(s[..])
    ensures forall k :: 0 <= k <= i ==> d[k] == s[k]
    ensures forall k :: i < k < d.Length ==> d[k] == old(d[k])
  {
    LenSpec(s[..]);
    ghost var n := Len(s[..]);
    i := i0;
    d[i] := s[i];
    while d[i] != NUL
      invariant i <= n
      invariant forall k :: 0 <= k <= i ==> d[k] == s[k]
      invariant forall k :: i < k < d.Length ==> d[k] == old(d[k])
      decreases n - i
    {
      i := i + 1;
      d[i] := s[i];
    }
  }
}
