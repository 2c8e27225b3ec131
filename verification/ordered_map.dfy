/** Immutable insertion-ordered maps keyed by names, the value-level counterpart
    of java.util.LinkedHashMap<String, V>: entries are kept in first-insertion
    order and `Put` on a key that is already present replaces its value in place. */
module OrderedMap {
  import opened Options

  type OMap<V> = seq<(string, V)>

  /** The keys in entry order. */
  function Keys<V>(m: OMap<V>): seq<string>
  {
    seq(|m|, i requires 0 <= i < |m| => m[i].0)
  }

  /** No key occurs twice: the shape every LinkedHashMap has. */
  predicate NoDupKeys<V>(m: OMap<V>)
  {
    forall i, j :: 0 <= i < j < |m| ==> m[i].0 != m[j].0
  }

  /** The position of `k`, if present. */
  function Find<V>(m: OMap<V>, k: string): (r: Option<nat>)
    ensures r.None? <==> k !in Keys(m)
    ensures r.Some? ==> r.value < |m| && m[r.value].0 == k
    ensures r.Some? ==> forall i :: 0 <= i < r.value ==> m[i].0 != k
  {
    if |m| == 0 then None
    else if m[0].0 == k then assert Keys(m)[0] == k; Some(0)
    else
      assert Keys(m) == [m[0].0] + Keys(m[1..]);
      match Find(m[1..], k)
      case None => None
      case Some(i) => Some(i + 1)
  }

  /** `map.get(k)`: None plays the role of Java's null. */
  function Get<V>(m: OMap<V>, k: string): (r: Option<V>)
    ensures r.None? <==> k !in Keys(m)
    ensures r.Some? ==> Find(m, k).Some? && m[Find(m, k).value] == (k, r.value)
  {
    match Find(m, k)
    case None => None
    case Some(i) => Some(m[i].1)
  }

  /** In a map without duplicate keys, `get` answers the value of the key's only entry. */
  lemma GetOnlyEntry<V>(m: OMap<V>, k: string, i: int)
    requires NoDupKeys(m) && 0 <= i < |m| && m[i].0 == k
    ensures Get(m, k) == Some(m[i].1)
  {
    assert Keys(m)[i] == k;
    var j := Find(m, k).value;
    assert m[j].0 == k;
  }

  /** `map.put(k, v)`. */
  function Put<V>(m: OMap<V>, k: string, v: V): (r: OMap<V>)
    ensures Get(r, k) == Some(v)
    ensures forall k' :: k' != k ==> Get(r, k') == Get(m, k')
    ensures k in Keys(m) ==> |r| == |m|
    ensures k !in Keys(m) ==> r == m + [(k, v)]
    ensures forall i :: 0 <= i < |m| ==> r[i].0 == m[i].0
    ensures forall i :: 0 <= i < |m| && m[i].0 != k ==> r[i] == m[i]
    ensures NoDupKeys(m) ==> NoDupKeys(r)
  {
    match Find(m, k)
    case None =>
      var r := m + [(k, v)];
      assert forall k' :: k' != k ==> Find(r, k') == Find(m, k') by {
        forall k' | k' != k ensures Find(r, k') == Find(m, k') {
          FindAppend(m, k', k, v);
        }
      }
      assert forall j :: 0 <= j < |m| ==> m[j].0 != k by {
        forall j | 0 <= j < |m| ensures m[j].0 != k { assert Keys(m)[j] == m[j].0; }
      }
      FindLast(m, k, v);
      r
    case Some(i) =>
      var r := m[i := (k, v)];
      assert Find(r, k) == Some(i) by { FindUpdate(m, i, k, v, k); }
      assert forall k' :: k' != k ==> Find(r, k') == Find(m, k') by {
        forall k' | k' != k ensures Find(r, k') == Find(m, k') {
          FindUpdate(m, i, k, v, k');
        }
      }
      r
  }

  /** Appending an entry appends its key. */
  lemma KeysAppend<V>(m: OMap<V>, k: string, v: V)
    ensures Keys(m + [(k, v)]) == Keys(m) + [k]
  {
    var l, r := Keys(m + [(k, v)]), Keys(m) + [k];
    forall i | 0 <= i < |m| ensures l[i] == r[i] {
      assert (m + [(k, v)])[i] == m[i];
    }
    assert l[|m|] == r[|m|];
  }

  lemma {:induction false} FindAppend<V>(m: OMap<V>, k': string, k: string, v: V)
    requires k' != k
    ensures Find(m + [(k, v)], k') == Find(m, k')
  {
    if |m| > 0 && m[0].0 != k' {
      assert (m + [(k, v)])[1..] == m[1..] + [(k, v)];
      FindAppend(m[1..], k', k, v);
    }
  }

  lemma {:induction false} FindLast<V>(m: OMap<V>, k: string, v: V)
    requires forall i :: 0 <= i < |m| ==> m[i].0 != k
    ensures Find(m + [(k, v)], k) == Some(|m|)
  {
    if |m| > 0 {
      assert (m + [(k, v)])[1..] == m[1..] + [(k, v)];
      FindLast(m[1..], k, v);
    }
  }

  lemma {:induction false} FindUpdate<V>(m: OMap<V>, i: nat, k: string, v: V, q: string)
    requires Find(m, k) == Some(i)
    ensures Find(m[i := (k, v)], q) == Find(m, q)
  {
    if |m| > 0 && i > 0 && m[0].0 != q {
      assert m[i := (k, v)][1..] == m[1..][i - 1 := (k, v)];
      FindUpdate(m[1..], i - 1, k, v, q);
    }
  }

  /** `dst.putAll(src)`: every entry of `src`, in order, put into `dst`. */
  function PutAll<V>(dst: OMap<V>, src: OMap<V>): OMap<V>
    decreases |src|
  {
    if |src| == 0 then dst else PutAll(Put(dst, src[0].0, src[0].1), src[1..])
  }

  /** Copying a map into a fresh, empty map reproduces it verbatim: same keys, same
      values, same order. This is what a derived class's copy of its parent's
      tables relies on. */
  lemma {:induction false} PutAllFresh<V>(dst: OMap<V>, src: OMap<V>)
    requires NoDupKeys(dst + src)
    ensures PutAll(dst, src) == dst + src
    decreases |src|
  {
    if |src| > 0 {
      var k, v := src[0].0, src[0].1;
      assert k !in Keys(dst) by {
        forall i | 0 <= i < |dst| ensures dst[i].0 != k {
          assert (dst + src)[i] == dst[i];
          assert (dst + src)[|dst|] == src[0];
        }
      }
      assert Put(dst, k, v) == dst + [src[0]];
      assert (dst + [src[0]]) + src[1..] == dst + src;
      PutAllFresh(dst + [src[0]], src[1..]);
    }
  }

  lemma PutAllIntoEmpty<V>(src: OMap<V>)
    requires NoDupKeys(src)
    ensures PutAll([], src) == src
  {
    assert [] + src == src;
    PutAllFresh([], src);
  }
}
