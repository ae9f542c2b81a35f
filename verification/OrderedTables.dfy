/** Insertion-ordered dictionaries as values: the key order beside the mapping. */
module OrderedTables {

  /** The elements of `s` that satisfy `keep`, in their order. */
  function Filter<T(!new)>(s: seq<T>, keep: T -> bool): (r: seq<T>)
    ensures |r| <= |s|
    ensures forall x :: x in r <==> x in s && keep(x)
  {
    if s == [] then []
    else
      var rest := Filter(s[1..], keep);
      if keep(s[0]) then [s[0]] + rest else rest
  }

  ghost predicate Distinct<T>(s: seq<T>) {
    forall i, j :: 0 <= i < j < |s| ==> s[i] != s[j]
  }

  lemma {:induction false} FilterDistinct<T(!new)>(s: seq<T>, keep: T -> bool)
    requires Distinct(s)
    ensures Distinct(Filter(s, keep))
  {
    if s != [] {
      FilterDistinct(s[1..], keep);
    }
  }

  lemma {:induction false} FilterAppend<T(!new)>(s: seq<T>, x: T, keep: T -> bool)
    ensures Filter(s + [x], keep) == Filter(s, keep) + (if keep(x) then [x] else [])
  {
    if s == [] {
      assert [x][1..] == [];
    } else {
      assert (s + [x])[1..] == s[1..] + [x];
      FilterAppend(s[1..], x, keep);
    }
  }

  lemma {:induction false} FilterAll<T(!new)>(s: seq<T>, keep: T -> bool)
    requires forall x :: x in s ==> keep(x)
    ensures Filter(s, keep) == s
  {
    if s != [] {
      FilterAll(s[1..], keep);
    }
  }

  lemma {:induction false} FilterDropsOne<T(!new)>(s: seq<T>, keep: T -> bool)
    requires exists x :: x in s && !keep(x)
    ensures |Filter(s, keep)| < |s|
  {
    if keep(s[0]) {
      FilterDropsOne(s[1..], keep);
    }
  }

  /** Every element but `k`. */
  function Except<K(==)>(k: K): K -> bool {
    other => other != k
  }

  datatype Table<K(==, !new), V> = Table(order: seq<K>, items: map<K, V>) {

    /** The order lists every key of the mapping exactly once. */
    ghost predicate Valid() {
      && Distinct(order)
      && forall k :: k in order <==> k in items
    }

    /** Assignment: a new key goes last, an old key keeps its place. */
    function Put(k: K, v: V): (r: Table<K, V>)
      ensures Valid() ==> r.Valid()
    {
      Table(if k in items then order else order + [k], items[k := v])
    }

    /** Deletes every key that fails `keep`. */
    function Keep(keep: K -> bool): (r: Table<K, V>)
      ensures Valid() ==> r.Valid()
    {
      FilterDistinctIf(order, keep);
      Table(Filter(order, keep), items - (set k | k in items && !keep(k)))
    }

    function Remove(k: K): (r: Table<K, V>)
      ensures Valid() ==> r.Valid()
    {
      Keep(Except(k))
    }

    /** popitem(last=False): deletes the first key in order. */
    function PopFirst(): (r: Table<K, V>)
      requires order != []
      ensures Valid() ==> r.Valid()
    {
      Table(order[1..], items - {order[0]})
    }
  }

  lemma FilterDistinctIf<T(!new)>(s: seq<T>, keep: T -> bool)
    ensures Distinct(s) ==> Distinct(Filter(s, keep))
  {
    if Distinct(s) {
      FilterDistinct(s, keep);
    }
  }
}
