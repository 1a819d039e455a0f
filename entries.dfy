/** Python's insertion-ordered `dict` with string keys, as a sequence of
    (key, value) entries. Assigning to a present key keeps its position;
    assigning to a new key appends it. */
module Entries {
  import opened Common

  type Entries<V> = seq<(string, V)>

  function Keys<V>(e: Entries<V>): seq<string> {
    seq(|e|, i requires 0 <= i < |e| => e[i].0)
  }

  /** Every key occurs once, as in any Python dict. */
  predicate UniqueKeys<V>(e: Entries<V>) {
    forall i, j :: 0 <= i < j < |e| ==> e[i].0 != e[j].0
  }

  /** The position of the first entry whose key is `k`. */
  function IndexOf<V>(e: Entries<V>, k: string): (r: nat)
    requires k in Keys(e)
    ensures r < |e| && e[r].0 == k
    ensures forall j :: 0 <= j < r ==> e[j].0 != k
  {
    if e[0].0 == k then 0
    else
      assert k in Keys(e[1..]) by {
        var i :| 0 <= i < |e| && Keys(e)[i] == k;
        assert Keys(e[1..])[i - 1] == k;
      }
      1 + IndexOf(e[1..], k)
  }

  /** `d.get(k)`: the value stored under `k`, or `None`. */
  function Get<V>(e: Entries<V>, k: string): (r: Option<V>)
    ensures r.None? <==> k !in Keys(e)
  {
    if k in Keys(e) then Some(e[IndexOf(e, k)].1) else None
  }

  /** The first position holding key `k` is `IndexOf(e, k)`. */
  lemma IndexOfIs<V>(e: Entries<V>, k: string, i: nat)
    requires i < |e| && e[i].0 == k
    requires forall j :: 0 <= j < i ==> e[j].0 != k
    ensures k in Keys(e) && IndexOf(e, k) == i
  {
    assert Keys(e)[i] == k;
  }

  /** `d[k] = v`. */
  function Put<V>(e: Entries<V>, k: string, v: V): (r: Entries<V>)
    ensures Keys(r) == if k in Keys(e) then Keys(e) else Keys(e) + [k]
    ensures Get(r, k) == Some(v)
    ensures forall k' :: k' != k ==> Get(r, k') == Get(e, k')
    ensures UniqueKeys(e) ==> UniqueKeys(r)
  {
    if k in Keys(e) then
      var i := IndexOf(e, k);
      var r := e[i := (k, v)];
      assert Keys(r) == Keys(e);
      IndexOfIs(r, k, i);
      forall k' | k' != k && k' in Keys(e) ensures Get(r, k') == Get(e, k') {
        IndexOfIs(r, k', IndexOf(e, k'));
      }
      r
    else
      var r := e + [(k, v)];
      assert Keys(r) == Keys(e) + [k];
      forall j | 0 <= j < |e| ensures r[j].0 != k { assert Keys(e)[j] == e[j].0; }
      IndexOfIs(r, k, |e|);
      forall k' | k' != k && k' in Keys(e) ensures Get(r, k') == Get(e, k') {
        IndexOfIs(r, k', IndexOf(e, k'));
      }
      r
  }

  /** The dict built by assigning the pairs of `pairs` one after the other, as
      `{k: v for k, v in pairs}` does. */
  function FromPairs<V>(pairs: Entries<V>): (r: Entries<V>)
    ensures UniqueKeys(r)
    ensures forall k :: k in Keys(r) <==> k in Keys(pairs)
    decreases |pairs|
  {
    if pairs == [] then []
    else
      var last := pairs[|pairs| - 1];
      var init := FromPairs(pairs[..|pairs| - 1]);
      assert Keys(pairs) == Keys(pairs[..|pairs| - 1]) + [last.0];
      Put(init, last.0, last.1)
  }

  /** In a dict built from `pairs`, each key holds the value of its LAST pair. */
  lemma {:induction false} FromPairsGetsLast<V>(pairs: Entries<V>, i: nat)
    requires i < |pairs|
    requires forall j :: i < j < |pairs| ==> pairs[j].0 != pairs[i].0
    ensures Get(FromPairs(pairs), pairs[i].0) == Some(pairs[i].1)
    decreases |pairs|
  {
    if i < |pairs| - 1 {
      FromPairsGetsLast(pairs[..|pairs| - 1], i);
    }
  }

  /** Appending a new key to a dict puts it at the end. */
  lemma AppendNewKey<V>(e: Entries<V>, k: string, v: V)
    requires k !in Keys(e)
    ensures Put(e, k, v) == e + [(k, v)]
  {
  }

  /** A dict with unique keys, rebuilt pair by pair, is unchanged. */
  lemma {:induction false} FromPairsOfDict<V>(e: Entries<V>)
    requires UniqueKeys(e)
    ensures FromPairs(e) == e
    decreases |e|
  {
    if e != [] {
      var init := e[..|e| - 1];
      var last := e[|e| - 1];
      assert UniqueKeys(init);
      FromPairsOfDict(init);
      assert last.0 !in Keys(init) by {
        forall j | 0 <= j < |init| ensures Keys(init)[j] != last.0 {
          assert init[j] == e[j];
        }
      }
      AppendNewKey(init, last.0, last.1);
      assert init + [last] == e;
    }
  }
}
