/** Python dictionaries as the generator uses them: entries kept in insertion order, and
    assigning to an existing key keeps that key's position. */
module Dicts {
  import opened Wrappers

  type Dict<K, V> = seq<(K, V)>

  function Keys<K, V>(d: Dict<K, V>): (ks: seq<K>)
    ensures |ks| == |d| && forall i :: 0 <= i < |d| ==> ks[i] == d[i].0
  {
    if |d| == 0 then [] else [d[0].0] + Keys(d[1..])
  }

  predicate UniqueKeys<K(==, !new), V>(d: Dict<K, V>)
  {
    forall i, j :: 0 <= i < j < |d| ==> d[i].0 != d[j].0
  }

  /** Position of key k, if present. */
  function Find<K(==, !new), V>(d: Dict<K, V>, k: K): (r: Option<nat>)
    ensures r.Some? ==> r.value < |d| && d[r.value].0 == k
    ensures r.Some? ==> forall i :: 0 <= i < r.value ==> d[i].0 != k
    ensures r.None? ==> forall i :: 0 <= i < |d| ==> d[i].0 != k
  {
    if |d| == 0 then None
    else if d[0].0 == k then Some(0)
    else match Find(d[1..], k)
      case None => None
      case Some(i) => Some(i + 1)
  }

  /** `d[k]`: None stands for the KeyError Python raises. */
  function Get<K(==, !new), V>(d: Dict<K, V>, k: K): (r: Option<V>)
    ensures r.Some? <==> k in Keys(d)
  {
    match Find(d, k)
    case None => None
    case Some(i) => Some(d[i].1)
  }

  /** `d[k] = v`. */
  function Assign<K(==, !new), V>(d: Dict<K, V>, k: K, v: V): (r: Dict<K, V>)
    ensures Get(r, k) == Some(v)
    ensures forall k' :: k' != k ==> Get(r, k') == Get(d, k')
    ensures Keys(r) == if k in Keys(d) then Keys(d) else Keys(d) + [k]
    ensures UniqueKeys(d) ==> UniqueKeys(r)
    ensures forall i :: 0 <= i < |r| ==> r[i] == (k, v) || r[i] in d
  {
    match Find(d, k)
    case None =>
      AppendFacts(d, k, v);
      d + [(k, v)]
    case Some(i) =>
      ReplaceFacts(d, i, k, v);
      d[i := (k, v)]
  }

  /** Assigning a new key appends its entry. */
  lemma AppendFacts<K(!new), V>(d: Dict<K, V>, k: K, v: V)
    requires Find(d, k).None?
    ensures var r := d + [(k, v)];
            && Get(r, k) == Some(v)
            && (forall k' :: k' != k ==> Get(r, k') == Get(d, k'))
            && Keys(r) == Keys(d) + [k] && k !in Keys(d)
            && (UniqueKeys(d) ==> UniqueKeys(r))
            && (forall i :: 0 <= i < |r| ==> r[i] == (k, v) || r[i] in d)
  {
    var r := d + [(k, v)];
    FindAppend(d, k, v);
    forall k' | k' != k ensures Get(r, k') == Get(d, k') {
      FindOther(d, k, v, k');
    }
    assert Keys(r) == Keys(d) + [k];
  }

  /** Assigning an existing key replaces its entry in place. */
  lemma ReplaceFacts<K(!new), V>(d: Dict<K, V>, i: nat, k: K, v: V)
    requires Find(d, k) == Some(i)
    ensures var r := d[i := (k, v)];
            && Get(r, k) == Some(v)
            && (forall k' :: k' != k ==> Get(r, k') == Get(d, k'))
            && Keys(r) == Keys(d) && k in Keys(d)
            && (UniqueKeys(d) ==> UniqueKeys(r))
            && (forall j :: 0 <= j < |r| ==> r[j] == (k, v) || r[j] in d)
  {
    var r := d[i := (k, v)];
    FindSameKeys(d, r, k);
    forall k' | k' != k ensures Get(r, k') == Get(d, k') {
      FindSameKeys(d, r, k');
    }
    assert Keys(r) == Keys(d);
    assert Keys(d)[i] == k;
  }

  lemma FindAppend<K(!new), V>(d: Dict<K, V>, k: K, v: V)
    requires k !in Keys(d)
    ensures Find(d + [(k, v)], k) == Some(|d|)
  {
    var r := Find(d + [(k, v)], k);
    assert (d + [(k, v)])[|d|].0 == k;
    forall i | 0 <= i < |d| ensures (d + [(k, v)])[i].0 != k {
      assert Keys(d)[i] == d[i].0;
    }
  }

  lemma FindOther<K(!new), V>(d: Dict<K, V>, k: K, v: V, k': K)
    requires k' != k
    ensures Find(d + [(k, v)], k') == Find(d, k')
  {
    var e := d + [(k, v)];
    match Find(d, k')
    case None =>
      assert forall i :: 0 <= i < |e| ==> e[i].0 != k';
    case Some(j) =>
      assert e[j].0 == k' && forall i :: 0 <= i < j ==> e[i].0 != k';
  }

  /** Find depends on the keys alone. */
  lemma FindSameKeys<K(!new), V>(d: Dict<K, V>, e: Dict<K, V>, k: K)
    requires |d| == |e| && forall j :: 0 <= j < |d| ==> e[j].0 == d[j].0
    ensures Find(e, k) == Find(d, k)
  {
    match Find(d, k)
    case None =>
    case Some(j) =>
  }

  /** Assigning a key twice leaves what the second assignment alone leaves. */
  lemma AssignTwice<K(!new), V>(d: Dict<K, V>, k: K, v1: V, v: V)
    ensures Assign(Assign(d, k, v1), k, v) == Assign(d, k, v)
  {
    match Find(d, k)
    case None =>
      FindAppend(d, k, v1);
    case Some(i) =>
      FindSameKeys(d, d[i := (k, v1)], k);
      assert d[i := (k, v1)][i := (k, v)] == d[i := (k, v)];
  }

  /** The first entry with key k is where Find stops. */
  lemma FindAt<K(!new), V>(d: Dict<K, V>, k: K, i: nat)
    requires i < |d| && d[i].0 == k && forall j :: 0 <= j < i ==> d[j].0 != k
    ensures Find(d, k) == Some(i)
  {
  }

  /** `d.values()`: the values in key order. */
  function Values<K, V>(d: Dict<K, V>): (vs: seq<V>)
    ensures |vs| == |d| && forall i :: 0 <= i < |d| ==> vs[i] == d[i].1
  {
    seq(|d|, i requires 0 <= i < |d| => d[i].1)
  }

  /** The pairs assigned one after the other, as a loop of `d[k] = v` does. */
  function AssignAll<K(==, !new), V>(d: Dict<K, V>, pairs: seq<(K, V)>): Dict<K, V>
    decreases |pairs|
  {
    if |pairs| == 0 then d else AssignAll(Assign(d, pairs[0].0, pairs[0].1), pairs[1..])
  }

  /** One more pair is one more assignment, so a loop can keep `AssignAll` of the pairs seen. */
  lemma {:induction false} AssignAllAppend<K(!new), V>(d: Dict<K, V>, pairs: seq<(K, V)>, k: K, v: V)
    ensures AssignAll(d, pairs + [(k, v)]) == Assign(AssignAll(d, pairs), k, v)
    decreases |pairs|
  {
    if |pairs| > 0 {
      assert (pairs + [(k, v)])[1..] == pairs[1..] + [(k, v)];
      AssignAllAppend(Assign(d, pairs[0].0, pairs[0].1), pairs[1..], k, v);
    }
  }

  /** The form a loop over the pairs uses: the first i+1 pairs are the first i and then one
      more assignment. */
  lemma AssignAllStep<K(!new), V>(d: Dict<K, V>, pairs: seq<(K, V)>, i: nat)
    requires i < |pairs|
    ensures AssignAll(d, pairs[..i + 1]) == Assign(AssignAll(d, pairs[..i]), pairs[i].0, pairs[i].1)
  {
    assert pairs[..i + 1] == pairs[..i] + [(pairs[i].0, pairs[i].1)];
    AssignAllAppend(d, pairs[..i], pairs[i].0, pairs[i].1);
  }

  /** Assignments keep the keys unique. */
  lemma {:induction false} AssignAllUnique<K(!new), V>(d: Dict<K, V>, pairs: seq<(K, V)>)
    requires UniqueKeys(d)
    ensures UniqueKeys(AssignAll(d, pairs))
    decreases |pairs|
  {
    if |pairs| > 0 {
      AssignAllUnique(Assign(d, pairs[0].0, pairs[0].1), pairs[1..]);
    }
  }

  /** A key no pair names keeps the value it had. */
  lemma {:induction false} AssignAllUntouched<K(!new), V>(d: Dict<K, V>, pairs: seq<(K, V)>, k: K)
    requires forall i :: 0 <= i < |pairs| ==> pairs[i].0 != k
    ensures Get(AssignAll(d, pairs), k) == Get(d, k)
    decreases |pairs|
  {
    if |pairs| > 0 {
      var next := Assign(d, pairs[0].0, pairs[0].1);
      assert pairs[0].0 != k;
      assert forall j :: 0 <= j < |pairs| - 1 ==> pairs[1..][j] == pairs[j + 1];
      AssignAllUntouched(next, pairs[1..], k);
      assert AssignAll(d, pairs) == AssignAll(next, pairs[1..]);
    }
  }

  /** After the assignments a key holds the value of the last pair that names it. */
  lemma {:induction false} AssignAllLast<K(!new), V>(d: Dict<K, V>, pairs: seq<(K, V)>, i: nat)
    requires i < |pairs| && forall j :: i < j < |pairs| ==> pairs[j].0 != pairs[i].0
    ensures Get(AssignAll(d, pairs), pairs[i].0) == Some(pairs[i].1)
    decreases i, 1
  {
    LaterKeys(pairs, i);
    if i == 0 {
      FirstKeyLast(d, pairs);
    } else {
      LaterKeyLast(d, pairs, i);
    }
  }

  /** A later pair wins over the first: the assignments after the first one decide. */
  lemma {:induction false} LaterKeyLast<K(!new), V>(d: Dict<K, V>, pairs: seq<(K, V)>, i: nat)
    requires 0 < i < |pairs| && pairs[1..][i - 1] == pairs[i]
    requires forall j :: i - 1 < j < |pairs| - 1 ==> pairs[1..][j].0 != pairs[1..][i - 1].0
    ensures Get(AssignAll(d, pairs), pairs[i].0) == Some(pairs[i].1)
    decreases i, 0
  {
    var next := Assign(d, pairs[0].0, pairs[0].1);
    AssignAllLast(next, pairs[1..], i - 1);
    assert AssignAll(d, pairs) == AssignAll(next, pairs[1..]);
  }

  /** The first pair wins when no later pair names its key. */
  lemma FirstKeyLast<K(!new), V>(d: Dict<K, V>, pairs: seq<(K, V)>)
    requires |pairs| > 0 && forall j :: 0 <= j < |pairs| - 1 ==> pairs[1..][j].0 != pairs[0].0
    ensures Get(AssignAll(d, pairs), pairs[0].0) == Some(pairs[0].1)
  {
    var next := Assign(d, pairs[0].0, pairs[0].1);
    AssignAllUntouched(next, pairs[1..], pairs[0].0);
    assert AssignAll(d, pairs) == AssignAll(next, pairs[1..]);
  }

  /** The premise of AssignAllLast, moved to the pairs after the first. */
  lemma LaterKeys<K, V>(pairs: seq<(K, V)>, i: nat)
    requires i < |pairs| && forall j :: i < j < |pairs| ==> pairs[j].0 != pairs[i].0
    ensures i == 0 ==> forall j :: 0 <= j < |pairs| - 1 ==> pairs[1..][j].0 != pairs[0].0
    ensures i > 0 ==> pairs[1..][i - 1] == pairs[i] && forall j :: i - 1 < j < |pairs| - 1 ==> pairs[1..][j].0 != pairs[1..][i - 1].0
  {
    assert forall j :: 0 <= j < |pairs| - 1 ==> pairs[1..][j] == pairs[j + 1];
  }
}
