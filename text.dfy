/** String helpers with the semantics of the Python str operations the generator uses. */
module Text {
  import opened Wrappers

  /** The characters Python's regular-expression class `\s` matches in a str pattern. */
  predicate IsSpace(c: char)
  {
    c == ' ' || ('\t' <= c <= '\r') || ('\U{1c}' <= c <= '\U{1f}') || c == '\U{85}' || c == '\U{a0}'
    || c == '\U{1680}' || ('\U{2000}' <= c <= '\U{200a}') || c == '\U{2028}' || c == '\U{2029}'
    || c == '\U{202f}' || c == '\U{205f}' || c == '\U{3000}'
  }

  predicate StartsWith(s: string, p: string)
  {
    |p| <= |s| && s[..|p|] == p
  }

  predicate EndsWith(s: string, p: string)
  {
    |p| <= |s| && s[|s| - |p|..] == p
  }

  /** `c * n` in Python: the empty string when n is zero or negative. */
  function Repeat(c: char, n: int): (r: string)
    ensures |r| == if n < 0 then 0 else n
    ensures forall i :: 0 <= i < |r| ==> r[i] == c
  {
    if n <= 0 then "" else [c] + Repeat(c, n - 1)
  }

  /** `s * n` in Python for a string `s`: empty when n is zero or negative. */
  function RepeatStr(s: string, n: int): (r: string)
    ensures |r| == if n < 0 then 0 else |s| * n
  {
    if n <= 0 then "" else s + RepeatStr(s, n - 1)
  }

  /** Repeating m times and then n more times is repeating m + n times. */
  lemma {:induction false} RepeatStrAdd(s: string, m: nat, n: nat)
    ensures RepeatStr(s, m) + RepeatStr(s, n) == RepeatStr(s, m + n)
    decreases m
  {
    if m > 0 {
      RepeatStrAdd(s, m - 1, n);
      Assoc(s, RepeatStr(s, m - 1), RepeatStr(s, n));
    }
  }

  /** `sep.join(parts)`. */
  function Join(parts: seq<string>, sep: string): string
  {
    if |parts| == 0 then ""
    else if |parts| == 1 then parts[0]
    else parts[0] + sep + Join(parts[1..], sep)
  }

  /** A character in neither the separator nor any part is not in the joined text. */
  lemma {:induction false} JoinWithout(parts: seq<string>, sep: string, c: char)
    requires c !in sep && forall j :: 0 <= j < |parts| ==> c !in parts[j]
    ensures c !in Join(parts, sep)
    decreases |parts|
  {
    if |parts| > 1 {
      JoinWithout(parts[1..], sep, c);
    }
  }

  /** Joining non-empty parts gives a non-empty text when there is a part. */
  lemma JoinNonEmpty(parts: seq<string>, sep: string)
    requires |parts| > 0 && parts[0] != ""
    ensures Join(parts, sep) != ""
  {
    if |parts| > 1 {
      assert Join(parts, sep) == parts[0] + sep + Join(parts[1..], sep);
    }
  }

  /** Joining two non-empty lists of parts: the two joins with a separator between them. */
  lemma {:induction false} JoinAppend(a: seq<string>, b: seq<string>, sep: string)
    requires |a| > 0 && |b| > 0
    ensures Join(a + b, sep) == Join(a, sep) + sep + Join(b, sep)
    decreases |a|
  {
    if |a| == 1 {
      assert (a + b)[1..] == b;
    } else {
      assert (a + b)[1..] == a[1..] + b;
      JoinAppend(a[1..], b, sep);
      Assoc(a[0] + sep, Join(a[1..], sep), sep + Join(b, sep));
      Assoc(a[0] + sep + Join(a[1..], sep), sep, Join(b, sep));
    }
  }

  /** The decimal digit of 0 <= d <= 9. */
  function DigitOf(d: int): char
    requires 0 <= d <= 9
  {
    ('0' as int + d) as char
  }

  predicate IsDigit(c: char)
  {
    '0' <= c <= '9'
  }

  /** `str(n)` for a natural number: most significant digit first, no leading zeros. */
  function NatStr(n: nat): (r: string)
    ensures |r| > 0 && forall i :: 0 <= i < |r| ==> IsDigit(r[i])
    ensures |r| > 1 ==> r[0] != '0'
  {
    if n < 10 then [DigitOf(n)] else NatStr(n / 10) + [DigitOf(n % 10)]
  }

  /** `str(n)` in Python: a minus sign for negative numbers. */
  function IntStr(n: int): string
  {
    if n < 0 then "-" + NatStr(-n) else NatStr(n)
  }

  /** The value of a non-empty string of decimal digits. */
  function DecimalValue(s: string): int
    requires forall i :: 0 <= i < |s| ==> IsDigit(s[i])
  {
    if |s| == 0 then 0 else DecimalValue(s[..|s| - 1]) * 10 + (s[|s| - 1] as int - '0' as int)
  }

  /** Reading the digits back gives the number: `int(str(n)) == n`. */
  lemma {:induction false} NatStrRoundTrip(n: nat)
    ensures DecimalValue(NatStr(n)) == n
    decreases n
  {
    if n >= 10 {
      NatStrRoundTrip(n / 10);
      var s := NatStr(n);
      assert s[..|s| - 1] == NatStr(n / 10);
    }
  }

  /** Different numbers have different decimal texts. */
  lemma NatStrInjective(m: nat, n: nat)
    ensures NatStr(m) == NatStr(n) ==> m == n
  {
    NatStrRoundTrip(m);
    NatStrRoundTrip(n);
  }

  /** Index of the first occurrence of `sub` in `s` at or after `from`, as `str.find`. */
  function FindFrom(s: string, sub: string, from: nat): (r: Option<nat>)
    decreases |s| - from
    ensures r.Some? ==> from <= r.value && r.value + |sub| <= |s| && StartsWith(s[r.value..], sub)
  {
    if from > |s| then None
    else if StartsWith(s[from..], sub) then Some(from)
    else FindFrom(s, sub, from + 1)
  }

  /** The occurrence found is the first one; none is found only when there is none. */
  lemma {:induction false} FindFromSpec(s: string, sub: string, from: nat)
    ensures var r := FindFrom(s, sub, from);
            && (r.Some? ==> forall k :: from <= k < r.value ==> !StartsWith(s[k..], sub))
            && (r.None? ==> forall k :: from <= k <= |s| ==> !StartsWith(s[k..], sub))
    decreases |s| - from
  {
    if from <= |s| && !StartsWith(s[from..], sub) {
      FindFromSpec(s, sub, from + 1);
    }
  }

  /** Index of the first occurrence of character `c` in `s`. */
  function IndexOf(s: string, c: char): (r: Option<nat>)
    ensures r.Some? ==> r.value < |s| && s[r.value] == c && c !in s[..r.value]
    ensures r.None? ==> c !in s
  {
    if |s| == 0 then None
    else if s[0] == c then Some(0)
    else match IndexOf(s[1..], c)
      case None => None
      case Some(k) => assert s[1..][..k] == s[1..k + 1]; Some(k + 1)
  }

  lemma {:induction false} IndexOfAt(s: string, c: char, k: nat)
    requires k < |s| && s[k] == c && c !in s[..k]
    ensures IndexOf(s, c) == Some(k)
  {
    if k > 0 {
      assert s[0] == s[..k][0];
      assert s[1..][..k - 1] == s[1..k];
      IndexOfAt(s[1..], c, k - 1);
    }
  }

  /** `s.split(sep)` for a non-empty separator: the pieces between non-overlapping
      occurrences of `sep`, found from left to right. */
  function Split(s: string, sep: string): (r: seq<string>)
    requires |sep| > 0
    decreases |s|
    ensures |r| >= 1
  {
    match FindFrom(s, sep, 0)
    case None => [s]
    case Some(i) => [s[..i]] + Split(s[i + |sep|..], sep)
  }

  /** No piece of a split on a one-character separator holds that character. */
  lemma {:induction false} SplitPieceNoSep(s: string, k: nat, c: char)
    requires k < |Split(s, [c])|
    ensures c !in Split(s, [c])[k]
    decreases |s|
  {
    FindFromSpec(s, [c], 0);
    match FindFrom(s, [c], 0)
    case None =>
      forall i | 0 <= i < |s| ensures s[i] != c {
        assert !StartsWith(s[i..], [c]);
      }
    case Some(i) =>
      if k == 0 {
        forall j | 0 <= j < i ensures s[j] != c {
          assert !StartsWith(s[j..], [c]);
        }
      } else {
        SplitPieceNoSep(s[i + 1..], k - 1, c);
      }
  }

  /** Splitting and joining again gives back the string: no character is lost or added. */
  lemma {:induction false} JoinSplit(s: string, sep: string)
    requires |sep| > 0
    ensures Join(Split(s, sep), sep) == s
    decreases |s|
  {
    match FindFrom(s, sep, 0)
    case None =>
    case Some(i) =>
      var rest := s[i + |sep|..];
      JoinSplit(rest, sep);
      JoinAround(s, i, sep, Split(rest, sep));
  }

  /** The piece before an occurrence of `sep` at `i`, joined with pieces that join to what
      follows the occurrence, gives back `s`. */
  lemma JoinAround(s: string, i: nat, sep: string, rest: seq<string>)
    requires i + |sep| <= |s| && StartsWith(s[i..], sep)
    requires |rest| >= 1 && Join(rest, sep) == s[i + |sep|..]
    ensures Join([s[..i]] + rest, sep) == s
  {
    var parts := [s[..i]] + rest;
    assert parts[1..] == rest;
    assert Join(parts, sep) == s[..i] + sep + Join(rest, sep);
    assert s[i..][..|sep|] == sep;
    Around(s, i, |sep|);
  }

  /** Joining pieces that do not contain the separator's first character, then splitting,
      gives back the pieces. */
  lemma {:induction false} SplitJoin(parts: seq<string>, sep: string)
    requires |sep| > 0 && |parts| >= 1
    requires forall i :: 0 <= i < |parts| ==> sep[0] !in parts[i]
    ensures Split(Join(parts, sep), sep) == parts
    decreases |parts|
  {
    if |parts| == 1 {
      NoFind(parts[0], sep);
    } else {
      var j := Join(parts, sep);
      var tail := Join(parts[1..], sep);
      assert j == parts[0] + sep + tail;
      FirstAt(parts[0], sep, tail);
      assert j[|parts[0]| + |sep|..] == tail;
      SplitJoin(parts[1..], sep);
      assert j[..|parts[0]|] == parts[0];
    }
  }

  lemma NoFind(p: string, sep: string)
    requires |sep| > 0 && sep[0] !in p
    ensures FindFrom(p, sep, 0) == None
  {
    forall k | 0 <= k <= |p| ensures !StartsWith(p[k..], sep) {
      if k < |p| { assert p[k..][0] == p[k]; }
    }
  }

  lemma FirstAt(p: string, sep: string, tail: string)
    requires |sep| > 0 && sep[0] !in p
    ensures FindFrom(p + sep + tail, sep, 0) == Some(|p|)
  {
    var s := p + sep + tail;
    FindFromSpec(s, sep, 0);
    assert s[|p|..] == sep + tail;
    assert StartsWith(s[|p|..], sep);
    forall k | 0 <= k < |p| ensures !StartsWith(s[k..], sep) {
      assert s[k..][0] == p[k];
    }
  }

  /** The two halves of a concatenation, recovered by slicing. */
  lemma ConcatParts<T>(a: seq<T>, b: seq<T>)
    ensures |a + b| == |a| + |b| && (a + b)[..|a|] == a && (a + b)[|a|..] == b
  {
  }

  /** A sequence cut into the part before `i`, `n` elements from `i`, and the rest. */
  lemma Around<T>(s: seq<T>, i: nat, n: nat)
    requires i + n <= |s|
    ensures s == s[..i] + s[i..][..n] + s[i + n..]
  {
    assert s[i..][..n] == s[i..i + n];
  }

  /** A prefix one longer is the prefix and the next element. */
  lemma PrefixStep<T>(s: seq<T>, i: nat)
    requires i < |s|
    ensures s[..i + 1] == s[..i] + [s[i]]
  {
  }

  lemma Assoc<T>(a: seq<T>, b: seq<T>, c: seq<T>)
    ensures a + (b + c) == a + b + c
  {
  }
}
