/**
 * The JavaScript Map with string keys, as the stores use it: a list of
 * entries in insertion order with distinct keys. `set` on a present key
 * replaces its value in place; on a new key it appends an entry.
 */
module JsMap {
  import opened Common

  /** The keys of a map's entries are distinct. */
  predicate DistinctKeys<V>(m: seq<(string, V)>) {
    forall i, j :: 0 <= i < j < |m| ==> m[i].0 != m[j].0
  }

  function Keys<V>(m: seq<(string, V)>): (ks: seq<string>)
    ensures |ks| == |m| && forall i :: 0 <= i < |m| ==> ks[i] == m[i].0
  {
    seq(|m|, i requires 0 <= i < |m| => m[i].0)
  }

  /** The first position at or after from holding key k, or -1. */
  function IndexFrom<V>(m: seq<(string, V)>, k: string, from: nat): (i: int)
    requires from <= |m|
    ensures i == -1 || from <= i < |m|
    ensures i >= 0 ==> m[i].0 == k
    ensures forall j :: from <= j < |m| && (i == -1 || j < i) ==> m[j].0 != k
    decreases |m| - from
  {
    if from == |m| then -1
    else if m[from].0 == k then from
    else IndexFrom(m, k, from + 1)
  }

  /** The position of key k, or -1. */
  function IndexOf<V>(m: seq<(string, V)>, k: string): (i: int)
    ensures -1 <= i < |m|
    ensures i >= 0 ==> m[i].0 == k && forall j :: 0 <= j < i ==> m[j].0 != k
    ensures i == -1 ==> forall j :: 0 <= j < |m| ==> m[j].0 != k
  {
    IndexFrom(m, k, 0)
  }

  /** Map.prototype.get: the value of key k, None for a missing key. */
  function Lookup<V>(m: seq<(string, V)>, k: string): (r: Option<V>)
    ensures r.None? <==> forall j :: 0 <= j < |m| ==> m[j].0 != k
    ensures r.Some? ==> exists j :: 0 <= j < |m| && m[j] == (k, r.value)
  {
    var i := IndexOf(m, k);
    if i == -1 then None else Some(m[i].1)
  }

  /** Map.prototype.set. */
  function Update<V>(m: seq<(string, V)>, k: string, v: V): (r: seq<(string, V)>)
    ensures |r| == if IndexOf(m, k) == -1 then |m| + 1 else |m|
  {
    var i := IndexOf(m, k);
    if i == -1 then m + [(k, v)] else m[i := (k, v)]
  }

  /** set keeps the iteration order: a present key stays where it is, a
      new key goes last. */
  lemma UpdateKeys<V>(m: seq<(string, V)>, k: string, v: V)
    ensures Keys(Update(m, k, v)) == if IndexOf(m, k) == -1 then Keys(m) + [k] else Keys(m)
  {
  }

  /** After set, the key holds the new value, every other key keeps its
      value, and the keys stay distinct. */
  lemma LookupUpdate<V>(m: seq<(string, V)>, k: string, v: V, k': string)
    requires DistinctKeys(m)
    ensures DistinctKeys(Update(m, k, v))
    ensures Lookup(Update(m, k, v), k') == if k' == k then Some(v) else Lookup(m, k')
  {
    var r := Update(m, k, v);
    var i := IndexOf(m, k);
    if k' != k {
      var i' := IndexOf(m, k');
      if i' != -1 {
        assert r[i'] == m[i'];
        UniqueIndex(r, k', i');
      }
    } else {
      var at := if i == -1 then |m| else i;
      assert r[at] == (k, v);
      UniqueIndex(r, k, at);
    }
  }

  lemma UniqueIndex<V>(m: seq<(string, V)>, k: string, at: nat)
    requires DistinctKeys(m) && at < |m| && m[at].0 == k
    ensures Lookup(m, k) == Some(m[at].1)
  {
  }

  /** A mutable Map<string, Decimal> of prices: its identity is what the
      stores share, its entries are what `set` changes. */
  class PriceMap {
    var entries: seq<(string, real)>

    ghost predicate Valid()
      reads this
    {
      DistinctKeys(entries)
    }

    constructor ()
      ensures entries == [] && Valid()
    {
      entries := [];
    }

    function Get(k: string): Option<real>
      reads this
    {
      Lookup(entries, k)
    }

    method Set(k: string, v: real)
      requires Valid()
      modifies this
      ensures Valid()
      ensures entries == Update(old(entries), k, v)
      ensures Get(k) == Some(v)
      ensures forall k' :: k' != k ==> Get(k') == old(Get(k'))
    {
      forall k' ensures Lookup(Update(entries, k, v), k') == if k' == k then Some(v) else Lookup(entries, k') {
        LookupUpdate(entries, k, v, k');
      }
      entries := Update(entries, k, v);
    }
  }
}
