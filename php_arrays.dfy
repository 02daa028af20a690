/**
 * PHP's ordered arrays with string keys, as far as the class index uses them:
 * `$a[$k] = $v` overwrites an existing key in place and appends a new one,
 * and `foreach` visits entries in that order.
 */
module PhpArrays {
  import opened Wrappers

  type PhpArray<V> = seq<(string, V)>

  predicate UniqueKeys<V>(a: PhpArray<V>)
  {
    forall i, j :: 0 <= i < j < |a| ==> a[i].0 != a[j].0
  }

  predicate HasKey<V>(a: PhpArray<V>, k: string)
  {
    exists i :: 0 <= i < |a| && a[i].0 == k
  }

  /** Extending a prefix by one entry adds exactly that entry's key. */
  lemma HasKeyPrefix<V>(a: PhpArray<V>, j: nat)
    requires j < |a|
    ensures forall d :: HasKey(a[..j + 1], d) <==> HasKey(a[..j], d) || d == a[j].0
  {
    forall d
      ensures HasKey(a[..j + 1], d) <==> HasKey(a[..j], d) || d == a[j].0
    {
      if HasKey(a[..j + 1], d) {
        var i :| 0 <= i < j + 1 && a[..j + 1][i].0 == d;
        if i < j { assert a[..j][i] == a[i]; }
      }
      if HasKey(a[..j], d) {
        var i :| 0 <= i < j && a[..j][i].0 == d;
        assert a[..j + 1][i] == a[i];
      }
      if d == a[j].0 { assert a[..j + 1][j] == a[j]; }
    }
  }

  function Keys<V>(a: PhpArray<V>): (r: seq<string>)
    ensures |r| == |a| && forall i :: 0 <= i < |a| ==> r[i] == a[i].0
  {
    if a == [] then [] else [a[0].0] + Keys(a[1..])
  }

  function Values<V>(a: PhpArray<V>): (r: seq<V>)
    ensures |r| == |a| && forall i :: 0 <= i < |a| ==> r[i] == a[i].1
  {
    if a == [] then [] else [a[0].1] + Values(a[1..])
  }

  /** The position of key k, if present. */
  function Find<V>(a: PhpArray<V>, k: string): (r: Option<nat>)
    ensures r.Some? ==> r.value < |a|
  {
    if a == [] then None
    else if a[0].0 == k then Some(0)
    else match Find(a[1..], k)
      case None => None
      case Some(p) => Some(p + 1)
  }

  /** Find returns the first position holding k, and None exactly when k is absent. */
  lemma {:induction false} FindFirst<V>(a: PhpArray<V>, k: string)
    ensures var r := Find(a, k);
      (r.Some? ==> r.value < |a| && a[r.value].0 == k && forall i :: 0 <= i < r.value ==> a[i].0 != k) &&
      (r.None? <==> !HasKey(a, k))
  {
    if a != [] && a[0].0 != k {
      FindFirst(a[1..], k);
      assert forall i :: 1 <= i < |a| ==> a[i] == a[1..][i - 1];
    }
  }

  /** `$a[$k] = $v`. */
  function Put<V>(a: PhpArray<V>, k: string, v: V): PhpArray<V>
  {
    match Find(a, k)
    case None => a + [(k, v)]
    case Some(p) => a[p := (k, v)]
  }

  /** An existing key is overwritten in place; a new key is appended. */
  lemma PutInPlace<V>(a: PhpArray<V>, k: string, v: V)
    ensures HasKey(a, k) ==> |Put(a, k, v)| == |a| && exists p :: 0 <= p < |a| && a[p].0 == k && Put(a, k, v) == a[p := (k, v)]
    ensures !HasKey(a, k) ==> Put(a, k, v) == a + [(k, v)]
  {
    FindFirst(a, k);
  }

  /** Put keeps every key unique. */
  lemma PutUnique<V>(a: PhpArray<V>, k: string, v: V)
    requires UniqueKeys(a)
    ensures UniqueKeys(Put(a, k, v))
  {
    var r := Put(a, k, v);
    PutInPlace(a, k, v);
    if HasKey(a, k) {
      var p :| 0 <= p < |a| && a[p].0 == k && r == a[p := (k, v)];
      assert forall i :: 0 <= i < |r| ==> r[i].0 == a[i].0;
    }
  }

  /** After a Put, k is present and every key that was present still is; no other key appears. */
  lemma PutKeys<V>(a: PhpArray<V>, k: string, v: V)
    ensures HasKey(Put(a, k, v), k)
    ensures forall k': string :: HasKey(Put(a, k, v), k') <==> k' == k || HasKey(a, k')
  {
    var r := Put(a, k, v);
    PutInPlace(a, k, v);
    if HasKey(a, k) {
      var p :| 0 <= p < |a| && a[p].0 == k && r == a[p := (k, v)];
      assert r[p].0 == k;
      assert forall i :: 0 <= i < |r| ==> r[i].0 == a[i].0;
    } else {
      assert r[|a|].0 == k;
      assert forall i :: 0 <= i < |a| ==> r[i] == a[i];
    }
  }
}
