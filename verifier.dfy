/** The verifier and the evaluation functions that the harness generator emits as C text
    (sputnik/crafter.py). The libraries are numbered 0 .. n-1; `eval(i, j)` is the emitted
    `lib_eval(i, j)`, which returns 0 when the results of libraries i and j count as equal. */
module Verifier {
  import opened Wrappers

  /** The C macro UNALLOCATED of the emitted verifier. */
  const UNALLOCATED: int := -1

  /** Size of the `message` buffer of the emitted verifier. */
  const MESSAGE_SIZE: nat := 1024

  // ---------------------------------------------------------------------------
  // Specification of the clustering step

  /** The first library j in [from, i) that lib_eval declares equal to library i. */
  function FirstMatch(eval: (int, int) -> int, i: nat, from: nat): (r: Option<nat>)
    requires from <= i
    decreases i - from
    ensures r.Some? ==> from <= r.value < i && eval(i, r.value) == 0
    ensures r.Some? ==> forall k :: from <= k < r.value ==> eval(i, k) != 0
    ensures r.None? ==> forall k :: from <= k < i ==> eval(i, k) != 0
  {
    if from == i then None
    else if eval(i, from) == 0 then Some(from)
    else FirstMatch(eval, i, from + 1)
  }

  /** The cluster ids of libraries 0 .. n-1: library i joins the cluster of the first earlier
      library it is equal to, or opens cluster i + 1. */
  function ClusterIds(n: nat, eval: (int, int) -> int): (ids: seq<int>)
    ensures |ids| == n
    ensures forall k :: 0 <= k < n ==> 1 <= ids[k] <= k + 1
  {
    if n == 0 then []
    else
      var prev := ClusterIds(n - 1, eval);
      prev + [match FirstMatch(eval, n - 1, 0) case Some(j) => prev[j] case None => n]
  }

  /** Number of libraries that opened their own cluster. */
  function CountOpeners(ids: seq<int>): nat
  {
    if |ids| == 0 then 0
    else CountOpeners(ids[..|ids| - 1]) + (if ids[|ids| - 1] == |ids| then 1 else 0)
  }

  function Values(ids: seq<int>): set<int>
  {
    set k | k in ids
  }

  /** The emitted verifier aborts exactly when more than one cluster was opened. */
  predicate Aborts(n: nat, eval: (int, int) -> int)
  {
    CountOpeners(ClusterIds(n, eval)) > 1
  }

  /** The clustering of a longer run agrees with that of a shorter one on the shorter prefix. */
  lemma {:induction false} ClusterIdsPrefix(m: nat, k: nat, eval: (int, int) -> int)
    requires k <= m
    ensures ClusterIds(m, eval)[..k] == ClusterIds(k, eval)
    decreases m
  {
    if k < m {
      ClusterIdsPrefix(m - 1, k, eval);
      assert ClusterIds(m, eval)[..m - 1] == ClusterIds(m - 1, eval);
    }
  }

  /** Library i opens cluster i + 1 exactly when no earlier library is equal to it; otherwise it
      takes the id of the first earlier library that is. */
  lemma ClusterIdAt(n: nat, i: nat, eval: (int, int) -> int)
    requires i < n
    ensures FirstMatch(eval, i, 0).None? ==> ClusterIds(n, eval)[i] == i + 1
    ensures FirstMatch(eval, i, 0).Some? ==>
      ClusterIds(n, eval)[i] == ClusterIds(n, eval)[FirstMatch(eval, i, 0).value] <= i
    ensures ClusterIds(n, eval)[i] == i + 1 <==> FirstMatch(eval, i, 0).None?
  {
    ClusterIdsPrefix(n, i + 1, eval);
    var ids := ClusterIds(n, eval);
    assert ids[i] == ClusterIds(i + 1, eval)[i];
    assert ids[..i] == ClusterIds(i, eval);
  }

  /** count_cluster is the number of distinct cluster ids. */
  lemma {:induction false} CountIsDistinctIds(n: nat, eval: (int, int) -> int)
    ensures CountOpeners(ClusterIds(n, eval)) == |Values(ClusterIds(n, eval))|
  {
    if n > 0 {
      CountIsDistinctIds(n - 1, eval);
      var prev := ClusterIds(n - 1, eval);
      var x := ClusterIds(n, eval)[n - 1];
      LastIdNewOrOld(n, eval);
      CountAppend(prev, x);
      ValuesAppend(prev, x);
    }
  }

  /** The id of the last library is either a new id n or one already given out. */
  lemma LastIdNewOrOld(n: nat, eval: (int, int) -> int)
    requires n > 0
    ensures ClusterIds(n, eval) == ClusterIds(n - 1, eval) + [ClusterIds(n, eval)[n - 1]]
    ensures var x := ClusterIds(n, eval)[n - 1];
      (x == n && x !in Values(ClusterIds(n - 1, eval))) || (x != n && x in Values(ClusterIds(n - 1, eval)))
  {
    var prev := ClusterIds(n - 1, eval);
    if FirstMatch(eval, n - 1, 0).None? {
      ValuesBounded(prev);
    } else {
      var j := FirstMatch(eval, n - 1, 0).value;
      assert prev[j] in Values(prev);
    }
  }

  lemma CountAppend(s: seq<int>, x: int)
    ensures CountOpeners(s + [x]) == CountOpeners(s) + (if x == |s| + 1 then 1 else 0)
  {
    assert (s + [x])[..|s|] == s;
  }

  lemma ValuesAppend(s: seq<int>, x: int)
    ensures Values(s + [x]) == Values(s) + {x}
  {
  }

  lemma ValuesBounded(ids: seq<int>)
    requires forall k :: 0 <= k < |ids| ==> ids[k] <= k + 1
    ensures |ids| + 1 !in Values(ids)
  {
  }

  // ---------------------------------------------------------------------------
  // The partition theorem

  /** lib_eval behaves as an equivalence relation on the libraries 0 .. n-1. */
  ghost predicate EquivalenceOn(eval: (int, int) -> int, n: nat)
  {
    && (forall i :: 0 <= i < n ==> eval(i, i) == 0)
    && (forall i, j :: 0 <= i < n && 0 <= j < n && eval(i, j) == 0 ==> eval(j, i) == 0)
    && (forall i, j, k :: 0 <= i < n && 0 <= j < n && 0 <= k < n && eval(i, j) == 0 && eval(j, k) == 0
          ==> eval(i, k) == 0)
  }

  /** The smallest library equal to library i (i itself when none is smaller). */
  function Representative(eval: (int, int) -> int, i: nat): (r: nat)
    requires eval(i, i) == 0
    ensures r <= i && eval(i, r) == 0
    ensures forall k :: 0 <= k < r ==> eval(i, k) != 0
  {
    match FirstMatch(eval, i, 0)
    case Some(j) => j
    case None => i
  }

  /** Under an equivalence relation every library is in the cluster of its representative. */
  lemma {:induction false} ClusterIdIsRepresentative(n: nat, i: nat, eval: (int, int) -> int)
    requires EquivalenceOn(eval, n) && i < n
    ensures ClusterIds(n, eval)[i] == Representative(eval, i) + 1
    decreases i
  {
    ClusterIdAt(n, i, eval);
    match FirstMatch(eval, i, 0)
    case None =>
    case Some(j) =>
      ClusterIdIsRepresentative(n, j, eval);
      SameRepresentative(eval, n, i, j);
  }

  /** Equal libraries have the same representative. */
  lemma SameRepresentative(eval: (int, int) -> int, n: nat, i: nat, j: nat)
    requires EquivalenceOn(eval, n) && i < n && j < n && eval(i, j) == 0
    ensures Representative(eval, i) == Representative(eval, j)
  {
    var ri, rj := Representative(eval, i), Representative(eval, j);
    assert eval(j, i) == 0;
    assert eval(j, ri) == 0;
    assert eval(i, rj) == 0;
  }

  /** Partition theorem: when lib_eval is an equivalence relation, two libraries share a
      cluster exactly when lib_eval declares them equal. */
  lemma SameClusterIffEqual(n: nat, i: nat, j: nat, eval: (int, int) -> int)
    requires EquivalenceOn(eval, n) && i < n && j < n
    ensures ClusterIds(n, eval)[i] == ClusterIds(n, eval)[j] <==> eval(i, j) == 0
  {
    ClusterIdIsRepresentative(n, i, eval);
    ClusterIdIsRepresentative(n, j, eval);
    if eval(i, j) == 0 {
      SameRepresentative(eval, n, i, j);
    } else {
      var ri, rj := Representative(eval, i), Representative(eval, j);
      assert eval(rj, j) == 0;
      assert ri == rj ==> eval(i, j) == 0;
    }
  }

  /** When lib_eval is an equivalence relation, the verifier aborts exactly when some pair of
      libraries is unequal: the same verdict as the pairwise ("traditional") verifier. */
  lemma AbortsIffSomeUnequal(n: nat, eval: (int, int) -> int)
    requires EquivalenceOn(eval, n)
    ensures Aborts(n, eval) <==> exists i, j :: 0 <= i < n && 0 <= j < n && eval(i, j) != 0
  {
    CountIsDistinctIds(n, eval);
    if exists i, j :: 0 <= i < n && 0 <= j < n && eval(i, j) != 0 {
      var i, j :| 0 <= i < n && 0 <= j < n && eval(i, j) != 0;
      UnequalPairTwoIds(n, i, j, eval);
    } else if n > 0 {
      AllEqualOneId(n, eval);
    }
  }

  lemma UnequalPairTwoIds(n: nat, i: nat, j: nat, eval: (int, int) -> int)
    requires EquivalenceOn(eval, n) && i < n && j < n && eval(i, j) != 0
    ensures |Values(ClusterIds(n, eval))| >= 2
  {
    var ids := ClusterIds(n, eval);
    SameClusterIffEqual(n, i, j, eval);
    assert {ids[i], ids[j]} <= Values(ids);
    assert |{ids[i], ids[j]}| == 2;
    SubsetCard({ids[i], ids[j]}, Values(ids));
  }

  lemma AllEqualOneId(n: nat, eval: (int, int) -> int)
    requires EquivalenceOn(eval, n) && n > 0
    requires forall i, j :: 0 <= i < n && 0 <= j < n ==> eval(i, j) == 0
    ensures |Values(ClusterIds(n, eval))| == 1
  {
    var ids := ClusterIds(n, eval);
    forall i | 0 <= i < n ensures ids[i] == ids[0] {
      SameClusterIffEqual(n, i, 0, eval);
    }
    assert Values(ids) == {ids[0]};
  }

  lemma SubsetCard(a: set<int>, b: set<int>)
    requires a <= b
    ensures |a| <= |b|
  {
    assert b == a + (b - a);
  }

  // ---------------------------------------------------------------------------
  // lib_eval on return values (generate_evaluation_function)

  /** `lib_eval` of generate_evaluation_function: 0 when the two stored return values are equal. */
  function ValueEval(vals: seq<int>): (int, int) -> int
  {
    (i, j) => if 0 <= i < |vals| && 0 <= j < |vals| && vals[i] == vals[j] then 0 else 1
  }

  lemma ValueEvalIsEquivalence(vals: seq<int>)
    ensures EquivalenceOn(ValueEval(vals), |vals|)
  {
  }

  /** With lib_eval comparing return values, two libraries share a cluster iff their
      return values are equal. */
  lemma ValueClusters(vals: seq<int>, i: nat, j: nat)
    requires i < |vals| && j < |vals|
    ensures ClusterIds(|vals|, ValueEval(vals))[i] == ClusterIds(|vals|, ValueEval(vals))[j]
            <==> vals[i] == vals[j]
  {
    ValueEvalIsEquivalence(vals);
    SameClusterIffEqual(|vals|, i, j, ValueEval(vals));
  }

  /** With lib_eval comparing return values, count_cluster is the number of distinct values. */
  lemma {:induction false} ValueClusterCount(vals: seq<int>, n: nat)
    requires n <= |vals|
    ensures CountOpeners(ClusterIds(n, ValueEval(vals))) == |ValuesBefore(vals, n)|
    decreases n
  {
    if n > 0 {
      var eval := ValueEval(vals);
      ValueClusterCount(vals, n - 1);
      LastIdNewOrOld(n, eval);
      CountAppend(ClusterIds(n - 1, eval), ClusterIds(n, eval)[n - 1]);
      OpensIffNewValue(vals, n);
      ValuesBeforeStep(vals, n);
    }
  }

  /** The distinct return values of libraries 0 .. n-1. */
  function ValuesBefore(vals: seq<int>, n: nat): set<int>
    requires n <= |vals|
  {
    set k | 0 <= k < n :: vals[k]
  }

  lemma ValuesBeforeStep(vals: seq<int>, n: nat)
    requires 0 < n <= |vals|
    ensures ValuesBefore(vals, n) == ValuesBefore(vals, n - 1) + {vals[n - 1]}
  {
  }

  lemma OpensIffNewValue(vals: seq<int>, n: nat)
    requires 0 < n <= |vals|
    ensures ClusterIds(n, ValueEval(vals))[n - 1] == n <==> vals[n - 1] !in ValuesBefore(vals, n - 1)
  {
    var eval := ValueEval(vals);
    ClusterIdAt(n, n - 1, eval);
    if vals[n - 1] in ValuesBefore(vals, n - 1) {
      var k :| 0 <= k < n - 1 && vals[k] == vals[n - 1];
      assert eval(n - 1, k) == 0;
    }
  }

  /** All libraries returning the same value form one cluster, and the verifier does not abort. */
  lemma AllEqualOneCluster(vals: seq<int>)
    requires |vals| > 0
    requires forall i :: 0 <= i < |vals| ==> vals[i] == vals[0]
    ensures CountOpeners(ClusterIds(|vals|, ValueEval(vals))) == 1
    ensures !Aborts(|vals|, ValueEval(vals))
  {
    ValueClusterCount(vals, |vals|);
    assert ValuesBefore(vals, |vals|) == {vals[0]};
  }

  /** The clustering step does not require lib_eval to be transitive, and then order matters:
      with a tolerance of 1, results 0, 1, 2 end up in one cluster although 0 and 2 differ. */
  lemma NonTransitiveMerges()
    ensures
      var tol := (i: int, j: int) => if -1 <= i - j <= 1 then 0 else 1;
      ClusterIds(3, tol) == [1, 1, 1] && tol(0, 2) != 0
  {
    var tol := (i: int, j: int) => if -1 <= i - j <= 1 then 0 else 1;
    assert ClusterIds(1, tol) == [1];
    assert FirstMatch(tol, 1, 0) == Some(0);
    assert ClusterIds(2, tol) == [1, 1];
    assert FirstMatch(tol, 2, 0) == Some(1);
  }

  /** `lib_eval` of generate_evaluation_function_array: compares the first `width` characters of
      the two result buffers. */
  function ArrayEval(bufs: seq<seq<char>>, width: nat): (int, int) -> int
  {
    (i, j) =>
      if 0 <= i < |bufs| && 0 <= j < |bufs| && width <= |bufs[i]| && width <= |bufs[j]|
         && bufs[i][..width] == bufs[j][..width]
      then 0 else 1
  }

  /** The emitted array comparison loop, run on two buffers. */
  method CompareBuffers(a: array<char>, b: array<char>, width: nat) returns (r: int)
    requires width <= a.Length && width <= b.Length
    ensures r == 0 <==> a[..width] == b[..width]
    ensures r == 0 || r == 1
  {
    var c := 0;
    while c < width
      invariant 0 <= c <= width
      invariant a[..c] == b[..c]
    {
      if a[c] != b[c] {
        assert a[..width][c] != b[..width][c];
        return 1;
      }
      assert a[..c + 1] == a[..c] + [a[c]] && b[..c + 1] == b[..c] + [b[c]];
      c := c + 1;
    }
    return 0;
  }

  /** The array comparison is an equivalence relation, so the partition theorem applies. */
  lemma ArrayEvalIsEquivalence(bufs: seq<seq<char>>, width: nat)
    requires forall i :: 0 <= i < |bufs| ==> width <= |bufs[i]|
    ensures EquivalenceOn(ArrayEval(bufs, width), |bufs|)
  {
  }

  // ---------------------------------------------------------------------------
  // The emitted verifier

  /** The clustering step of new_generate_verify_function, over the array `mapping`. */
  method Cluster(n: nat, eval: (int, int) -> int) returns (mapping: array<int>, countCluster: int)
    ensures fresh(mapping) && mapping.Length == n
    ensures mapping[..] == ClusterIds(n, eval)
    ensures countCluster == CountOpeners(mapping[..])
  {
    mapping := NewUnallocated(n);
    countCluster := 0;
    var i := 0;
    ghost var ids := ClusterIds(n, eval);
    while i < n
      invariant 0 <= i <= n
      invariant forall k :: 0 <= k < i ==> mapping[k] == ids[k]
      invariant forall k :: i <= k < n ==> mapping[k] == UNALLOCATED
      invariant countCluster == CountOpeners(ids[..i])
    {
      // mapping[i] is only written in this iteration, so this `continue` never fires
      if mapping[i] != UNALLOCATED {
        i := i + 1;
        continue;
      }
      var isNew := JoinOrOpen(mapping, i, eval, ids);
      CountStep(ids, i);
      if isNew {
        countCluster := countCluster + 1;
      }
      i := i + 1;
    }
    assert ids == ids[..n];
  }

  /** The initialisation loop: a fresh `mapping` with every entry UNALLOCATED. */
  method NewUnallocated(n: nat) returns (mapping: array<int>)
    ensures fresh(mapping) && mapping.Length == n
    ensures forall k :: 0 <= k < n ==> mapping[k] == UNALLOCATED
  {
    mapping := new int[n];
    var i := 0;
    while i < n
      invariant 0 <= i <= n
      invariant forall k :: 0 <= k < i ==> mapping[k] == UNALLOCATED
    {
      mapping[i] := UNALLOCATED;
      i := i + 1;
    }
  }

  /** The body of the clustering loop for library i: the inner loop looks for the first
      earlier library lib_eval declares equal and copies its id; if there is none, library i
      opens cluster i + 1. Either way library i gets its id in the clustering. */
  method JoinOrOpen(mapping: array<int>, i: nat, eval: (int, int) -> int, ghost ids: seq<int>) returns (isNew: bool)
    requires ids == ClusterIds(mapping.Length, eval) && i < mapping.Length
    requires forall k :: 0 <= k < i ==> mapping[k] == ids[k]
    requires forall k :: i <= k < mapping.Length ==> mapping[k] == UNALLOCATED
    modifies mapping
    ensures forall k :: 0 <= k <= i ==> mapping[k] == ids[k]
    ensures forall k :: i < k < mapping.Length ==> mapping[k] == UNALLOCATED
    ensures isNew <==> ids[i] == i + 1
  {
    var n := mapping.Length;
    ClusterIdAt(n, i, eval);
    var j := 0;
    while j < n
      invariant 0 <= j <= n
      invariant mapping[..] == old(mapping[..])
      invariant forall k :: 0 <= k < j && k < i ==> eval(i, k) != 0
    {
      if j == i || mapping[j] == UNALLOCATED {
        j := j + 1;
        continue;
      }
      if eval(i, j) == 0 {
        FirstMatchIs(eval, i, j);
        mapping[i] := mapping[j];
        return false;
      }
      j := j + 1;
    }
    FirstMatchNone(eval, i);
    mapping[i] := i + 1;
    return true;
  }

  /** Counting the openers one library further. */
  lemma CountStep(ids: seq<int>, i: nat)
    requires i < |ids|
    ensures CountOpeners(ids[..i + 1]) == CountOpeners(ids[..i]) + (if ids[i] == i + 1 then 1 else 0)
  {
    assert ids[..i + 1] == ids[..i] + [ids[i]];
    CountAppend(ids[..i], ids[i]);
  }

  lemma FirstMatchIs(eval: (int, int) -> int, i: nat, j: nat)
    requires j < i && eval(i, j) == 0
    requires forall k :: 0 <= k < j ==> eval(i, k) != 0
    ensures FirstMatch(eval, i, 0) == Some(j)
  {
  }

  lemma FirstMatchNone(eval: (int, int) -> int, i: nat)
    requires forall k :: 0 <= k < i ==> eval(i, k) != 0
    ensures FirstMatch(eval, i, 0).None?
  {
  }

  /** The pairwise verifier of traditional_generate_verify_function: it calls sputnik_abort,
      which ends the run, at the first pair (i, j) that lib_eval declares unequal. */
  method TraditionalVerify(n: nat, eval: (int, int) -> int) returns (aborted: bool)
    ensures aborted <==> exists i, j :: 0 <= i < n && 0 <= j < n && eval(i, j) != 0
  {
    var i := 0;
    while i < n
      invariant 0 <= i <= n
      invariant forall a, b :: 0 <= a < i && 0 <= b < n ==> eval(a, b) == 0
    {
      var j := 0;
      while j < n
        invariant 0 <= j <= n
        invariant forall b :: 0 <= b < j ==> eval(i, b) == 0
      {
        if eval(i, j) != 0 {
          return true;
        }
        j := j + 1;
      }
      i := i + 1;
    }
    return false;
  }

  // ---------------------------------------------------------------------------
  // The abort message

  /** The character the emitted code writes for a remainder: `(rem > 9) ? (rem - 10) + 'a' : rem + '0'`. */
  function DigitChar(rem: int): (c: char)
    requires 0 <= rem < 36
    ensures rem <= 9 ==> c == (rem + '0' as int) as char
  {
    if rem > 9 then (rem - 10 + 'a' as int) as char else (rem + '0' as int) as char
  }

  /** The characters the digit loop writes for a cluster id: least significant digit first. */
  function DigitsLsbFirst(x: int): (r: string)
    ensures x <= 0 <==> r == ""
    ensures forall k :: 0 <= k < |r| ==> '0' <= r[k] <= '9'
  {
    if x <= 0 then "" else [DigitChar(x % 10)] + DigitsLsbFirst(x / 10)
  }

  /** The line of the abort message for one library: `name:digits` and a newline. */
  function AbortLine(name: string, id: int): string
  {
    name + ":" + DigitsLsbFirst(id) + "\n"
  }

  /** The text of the abort message for the first |ids| libraries. */
  function AbortText(ids: seq<int>, names: seq<string>): string
    requires |ids| == |names|
  {
    if |ids| == 0 then ""
    else AbortText(ids[..|ids| - 1], names[..|ids| - 1]) + AbortLine(names[|ids| - 1], ids[|ids| - 1])
  }

  /** Reading the digits back, least significant first, gives the cluster id back. */
  function ValueLsbFirst(digits: string): nat
    requires forall k :: 0 <= k < |digits| ==> '0' <= digits[k] <= '9'
  {
    if |digits| == 0 then 0 else (digits[0] as int - '0' as int) + 10 * ValueLsbFirst(digits[1..])
  }

  lemma {:induction false} DigitsRoundTrip(x: nat)
    ensures ValueLsbFirst(DigitsLsbFirst(x)) == x
  {
    if x > 0 {
      DigitsRoundTrip(x / 10);
      var d := DigitsLsbFirst(x);
      assert d[1..] == DigitsLsbFirst(x / 10);
    }
  }

  /** The message is written most significant digit last: cluster id 12 comes out as "21". */
  lemma TwelveWrittenReversed()
    ensures DigitsLsbFirst(12) == "21"
  {
    assert DigitsLsbFirst(1) == "1";
  }

  /** Writes the abort message into a fresh 1024-character buffer, consuming every
      `mapping[i]` digit by digit. The caller guarantees that the message fits. */
  method WriteAbortMessage(mapping: array<int>, names: seq<string>) returns (message: array<char>)
    requires |names| == mapping.Length
    requires forall i :: 0 <= i < mapping.Length ==> mapping[i] >= 0
    requires forall i :: 0 <= i < |names| ==> '\0' !in names[i]
    requires |AbortText(mapping[..], names)| <= MESSAGE_SIZE
    modifies mapping
    ensures fresh(message) && message.Length == MESSAGE_SIZE
    ensures message[..] == AbortText(old(mapping[..]), names)
                           + Zeros(MESSAGE_SIZE - |AbortText(old(mapping[..]), names)|)
    ensures forall i :: 0 <= i < mapping.Length ==> mapping[i] == 0
  {
    ghost var ids := mapping[..];
    message := new char[MESSAGE_SIZE];
    var p := 0;
    while p < MESSAGE_SIZE
      invariant 0 <= p <= MESSAGE_SIZE
      invariant forall k :: 0 <= k < p ==> message[k] == '\0'
      invariant unchanged(mapping)
    {
      message[p] := '\0';
      p := p + 1;
    }
    p := 0;
    var i := 0;
    while i < mapping.Length
      invariant 0 <= i <= mapping.Length
      invariant p == |AbortText(ids[..i], names[..i])| <= MESSAGE_SIZE
      invariant message[..p] == AbortText(ids[..i], names[..i])
      invariant forall k :: p <= k < MESSAGE_SIZE ==> message[k] == '\0'
      invariant forall k :: 0 <= k < i ==> mapping[k] == 0
      invariant forall k :: i <= k < mapping.Length ==> mapping[k] == ids[k]
    {
      AbortTextStep(ids, names, i);
      p := WriteLine(message, p, mapping, i, names[i]);
      i := i + 1;
    }
    assert ids[..mapping.Length] == ids && names[..mapping.Length] == names;
    PaddedText(message[..], p);
  }

  /** The text for libraries 0 .. i is that for 0 .. i-1 followed by the line of library i,
      and fits where the whole text fits. */
  lemma AbortTextStep(ids: seq<int>, names: seq<string>, i: nat)
    requires |ids| == |names| && i < |ids|
    ensures AbortText(ids[..i + 1], names[..i + 1]) == AbortText(ids[..i], names[..i]) + AbortLine(names[i], ids[i])
    ensures |AbortText(ids[..i + 1], names[..i + 1])| <= |AbortText(ids, names)|
  {
    AbortTextPrefix(ids, names, i + 1);
    assert ids[..i + 1][..i] == ids[..i] && names[..i + 1][..i] == names[..i];
  }

  /** A buffer holding zeros from position p on is its first p characters padded with zeros. */
  lemma PaddedText(m: string, p: nat)
    requires p <= |m| && forall k :: p <= k < |m| ==> m[k] == '\0'
    ensures m == m[..p] + Zeros(|m| - p)
  {
  }

  /** Writes the line `name:digits` and a newline for library i. */
  method WriteLine(message: array<char>, p: nat, mapping: array<int>, i: nat, name: string) returns (q: nat)
    requires i < mapping.Length && mapping[i] >= 0
    requires p + |AbortLine(name, mapping[i])| <= message.Length
    modifies message, mapping
    ensures q == p + |AbortLine(name, old(mapping[i]))|
    ensures message[..q] == old(message[..p]) + AbortLine(name, old(mapping[i]))
    ensures forall k :: q <= k < message.Length ==> message[k] == old(message[k])
    ensures mapping[i] == 0
    ensures forall k :: 0 <= k < mapping.Length && k != i ==> mapping[k] == old(mapping[k])
  {
    ghost var id := mapping[i];
    ghost var before := old(message[..p]);
    q := CopyName(message, p, name);
    q := PutChar(message, q, ':');
    q := WriteDigits(message, q, mapping, i);
    q := PutChar(message, q, '\n');
    LineParts(before, name, DigitsLsbFirst(id));
  }

  /** `*message_ptr++ = c`: one character written at position q. */
  method PutChar(message: array<char>, q: nat, c: char) returns (r: nat)
    requires q < message.Length
    modifies message
    ensures r == q + 1
    ensures message[..r] == old(message[..q]) + [c]
    ensures forall k :: r <= k < message.Length ==> message[k] == old(message[k])
  {
    message[q] := c;
    r := q + 1;
    assert message[..r] == old(message[..q]) + [c];
  }

  lemma LineParts(before: string, name: string, digits: string)
    ensures before + name + [':'] + digits + ['\n'] == before + (name + ":" + digits + "\n")
  {
  }

  /** The loop that emulates `strcpy(message_ptr, libs_identifier[i])` without the terminator. */
  method CopyName(message: array<char>, p: nat, name: string) returns (q: nat)
    requires p + |name| <= message.Length
    modifies message
    ensures q == p + |name|
    ensures message[..q] == old(message[..p]) + name
    ensures forall k :: q <= k < message.Length ==> message[k] == old(message[k])
  {
    q := p;
    var c := 0;
    while c < |name|
      invariant 0 <= c <= |name| && q == p + c
      invariant message[..q] == old(message[..p]) + name[..c]
      invariant forall k :: q <= k < message.Length ==> message[k] == old(message[k])
    {
      message[q] := name[c];
      assert name[..c + 1] == name[..c] + [name[c]];
      q := q + 1;
      c := c + 1;
    }
  }

  /** The loop "Process individual digits": writes the digits of `mapping[i]` least significant
      first and leaves `mapping[i]` at 0. */
  method WriteDigits(message: array<char>, p: nat, mapping: array<int>, i: nat) returns (q: nat)
    requires i < mapping.Length && mapping[i] >= 0
    requires p + |DigitsLsbFirst(mapping[i])| <= message.Length
    modifies message, mapping
    ensures q == p + |DigitsLsbFirst(old(mapping[i]))|
    ensures message[..q] == old(message[..p]) + DigitsLsbFirst(old(mapping[i]))
    ensures forall k :: q <= k < message.Length ==> message[k] == old(message[k])
    ensures mapping[i] == 0
    ensures forall k :: 0 <= k < mapping.Length && k != i ==> mapping[k] == old(mapping[k])
  {
    q := p;
    ghost var written := "";
    while mapping[i] != 0
      invariant mapping[i] >= 0
      invariant DigitsLsbFirst(old(mapping[i])) == written + DigitsLsbFirst(mapping[i])
      invariant q == p + |written|
      invariant message[..q] == old(message[..p]) + written
      invariant forall k :: q <= k < message.Length ==> message[k] == old(message[k])
      invariant forall k :: 0 <= k < mapping.Length && k != i ==> mapping[k] == old(mapping[k])
      decreases mapping[i]
    {
      var rem := mapping[i] % 10;
      message[q] := DigitChar(rem);
      written := written + [DigitChar(rem)];
      mapping[i] := mapping[i] / 10;
      q := q + 1;
    }
  }

  function Zeros(n: nat): (z: string)
    ensures |z| == n && forall k :: 0 <= k < n ==> z[k] == '\0'
  {
    seq(n, _ => '\0')
  }

  lemma {:induction false} AbortTextPrefix(ids: seq<int>, names: seq<string>, k: nat)
    requires |ids| == |names| && k <= |ids|
    ensures |AbortText(ids[..k], names[..k])| <= |AbortText(ids, names)|
    decreases |ids|
  {
    if k < |ids| {
      var m := |ids| - 1;
      assert ids[..m][..k] == ids[..k] && names[..m][..k] == names[..k];
      AbortTextPrefix(ids[..m], names[..m], k);
    } else {
      assert ids[..k] == ids && names[..k] == names;
    }
  }

  /** The whole emitted verifier: cluster, and when more than one cluster was opened, write
      the message and abort with it. */
  method Verify(eval: (int, int) -> int, names: seq<string>) returns (aborted: bool, message: string)
    requires forall i :: 0 <= i < |names| ==> '\0' !in names[i]
    requires Aborts(|names|, eval) ==> |AbortText(ClusterIds(|names|, eval), names)| <= MESSAGE_SIZE
    ensures aborted <==> Aborts(|names|, eval)
    ensures aborted ==> message == AbortText(ClusterIds(|names|, eval), names)
                                   + Zeros(MESSAGE_SIZE - |AbortText(ClusterIds(|names|, eval), names)|)
    ensures !aborted ==> message == ""
  {
    var mapping, countCluster := Cluster(|names|, eval);
    aborted := countCluster > 1;
    message := "";
    if aborted {
      var buffer := WriteAbortMessage(mapping, names);
      message := buffer[..];
    }
  }
}
