/** An insertion-ordered map, as the JavaScript `Map` the builders use for
    transition tables: `set` on a present key overwrites the value in place,
    `set` on a new key appends it, and iteration visits entries in insertion
    order. The order matters because a clone emits one event per entry of its
    table, in iteration order. */
module OrderedMap {
  import opened Wrappers

  datatype Entry<K, V> = Entry(key: K, value: V)

  type OMap<K, V> = seq<Entry<K, V>>

  /** Position of the first entry for `k` at or after position `i`, or -1
      when there is none. */
  function IndexFrom<K(==), V>(m: OMap<K, V>, k: K, i: nat): (r: int)
    requires i <= |m|
    ensures -1 <= r < |m|
    ensures r >= 0 ==> i <= r && m[r].key == k
    decreases |m| - i
  {
    if i == |m| then -1
    else if m[i].key == k then i
    else IndexFrom(m, k, i + 1)
  }

  /** Position of the entry for `k`, or -1 when `k` is absent. */
  function IndexOf<K(==), V>(m: OMap<K, V>, k: K): (r: int)
    ensures -1 <= r < |m|
    ensures r >= 0 ==> m[r].key == k
  {
    IndexFrom(m, k, 0)
  }

  lemma {:induction false} IndexFromFirst<K, V>(m: OMap<K, V>, k: K, i: nat)
    requires i <= |m|
    ensures var r := IndexFrom(m, k, i);
            && (r >= 0 ==> forall j :: i <= j < r ==> m[j].key != k)
            && (r == -1 ==> forall j :: i <= j < |m| ==> m[j].key != k)
    decreases |m| - i
  {
    if i < |m| && m[i].key != k {
      IndexFromFirst(m, k, i + 1);
    }
  }

  /** `IndexOf` finds the first entry for `k`, and -1 means no entry has `k`.
      Kept out of the function's contract so that its quantifiers stay out of
      every proof that merely looks a key up. */
  lemma IndexOfFirst<K, V>(m: OMap<K, V>, k: K)
    ensures var r := IndexOf(m, k);
            && (r >= 0 ==> forall i :: 0 <= i < r ==> m[i].key != k)
            && (r == -1 ==> forall i :: 0 <= i < |m| ==> m[i].key != k)
  {
    IndexFromFirst(m, k, 0);
  }

  predicate Has<K(==), V>(m: OMap<K, V>, k: K) {
    IndexOf(m, k) >= 0
  }

  function Get<K(==), V>(m: OMap<K, V>, k: K): (r: Option<V>)
    ensures r.Some? <==> Has(m, k)
    ensures r.Some? ==> exists i :: 0 <= i < |m| && m[i] == Entry(k, r.value)
  {
    var i := IndexOf(m, k);
    if i < 0 then None else Some(m[i].value)
  }

  function Set<K(==), V>(m: OMap<K, V>, k: K, v: V): (r: OMap<K, V>)
    ensures Has(m, k) ==> |r| == |m|
    ensures !Has(m, k) ==> r == m + [Entry(k, v)]
  {
    var i := IndexOf(m, k);
    if i < 0 then m + [Entry(k, v)] else m[i := Entry(k, v)]
  }

  /** The keys in iteration order. */
  function Keys<K, V>(m: OMap<K, V>): (r: seq<K>)
    ensures |r| == |m|
    ensures forall i :: 0 <= i < |m| ==> r[i] == m[i].key
  {
    seq(|m|, i requires 0 <= i < |m| => m[i].key)
  }

  predicate UniqueKeys<K(==), V>(m: OMap<K, V>) {
    forall i, j :: 0 <= i < j < |m| ==> m[i].key != m[j].key
  }

  /** After `Set(m, k, v)` the lookup of `k` yields `v` and every other key
      keeps its old lookup. */
  lemma GetSet<K, V>(m: OMap<K, V>, k: K, v: V, j: K)
    ensures Get(Set(m, k, v), j) == if j == k then Some(v) else Get(m, j)
  {
    var i := IndexOf(m, k);
    var r := Set(m, k, v);
    var ij := IndexOf(m, j);
    var rj := IndexOf(r, j);
    IndexOfFirst(m, k);
    IndexOfFirst(m, j);
    IndexOfFirst(r, j);
    if i < 0 {
      if j == k {
        assert r[|m|].key == k;
        assert forall t :: 0 <= t < |m| ==> r[t] == m[t];
        assert rj == |m|;
      } else if ij >= 0 {
        assert r[ij] == m[ij];
        assert rj == ij;
      } else {
        assert rj == -1;
      }
    } else {
      if j == k {
        assert r[i].key == k;
        assert forall t :: 0 <= t < i ==> r[t] == m[t];
        assert rj == i;
      } else if ij >= 0 {
        assert r[ij] == m[ij];
        assert rj == ij;
      } else {
        assert rj == -1;
      }
    }
  }

  /** `Set` overwrites a present key where it stands and appends a new key,
      so iteration order is insertion order. It follows from the
      definitions of `Set` and `Keys` alone. */
  lemma KeysOfSet<K, V>(m: OMap<K, V>, k: K, v: V)
    ensures Keys(Set(m, k, v)) == if Has(m, k) then Keys(m) else Keys(m) + [k]
  {
  }

  /** A map built only with `Set` never holds a key twice. */
  lemma SetKeepsUniqueKeys<K, V>(m: OMap<K, V>, k: K, v: V)
    requires UniqueKeys(m)
    ensures UniqueKeys(Set(m, k, v))
  {
    IndexOfFirst(m, k);
  }
}
