/**
 * `std::map<std::string, V>`: entries kept in strictly ascending key order, so
 * that a walk over the map visits keys from smallest to largest and no key
 * occurs twice.
 */
module OrderedMap {
  import opened Optional
  import opened Strings

  type Entries<V> = seq<(string, V)>

  /** Every key of `es` is above `lo`. */
  ghost predicate Above<V>(lo: string, es: Entries<V>)
  {
    forall i | 0 <= i < |es| :: Less(lo, es[i].0)
  }

  /** The map invariant: keys strictly ascending. */
  ghost predicate Sorted<V>(es: Entries<V>)
  {
    forall i, j | 0 <= i < j < |es| :: Less(es[i].0, es[j].0)
  }

  /**
   * `find`: the value stored under `k`, if any. Nothing is found exactly
   * when no entry has key `k`; what is found is an entry of the map.
   */
  function Get<V>(es: Entries<V>, k: string): (r: Option<V>)
    ensures r.None? <==> forall i | 0 <= i < |es| :: es[i].0 != k
  {
    if es == [] then None
    else if es[0].0 == k then Some(es[0].1)
    else Get(es[1..], k)
  }

  /** `contains`. */
  predicate Contains<V>(es: Entries<V>, k: string)
  {
    Get(es, k).Some?
  }

  /**
   * `m[k] = v`: replaces the entry of `k`, or inserts one in key order. The
   * only new entry is `(k, v)`, and every entry of another key is kept.
   */
  function Put<V>(es: Entries<V>, k: string, v: V): (r: Entries<V>)
    ensures forall e | e in r :: e == (k, v) || e in es
    ensures forall e | e in es && e.0 != k :: e in r
  {
    if es == [] then [(k, v)]
    else if es[0].0 == k then [(k, v)] + es[1..]
    else if Less(k, es[0].0) then [(k, v)] + es
    else [es[0]] + Put(es[1..], k, v)
  }

  /** `insert({k, v})`: an existing entry of `k` is kept. */
  function PutIfAbsent<V>(es: Entries<V>, k: string, v: V): Entries<V>
  {
    if Contains(es, k) then es else Put(es, k, v)
  }

  /**
   * A map built from a list of pairs, as the range constructor builds it:
   * every entry comes from the list.
   */
  function FromList<V>(pairs: Entries<V>): (r: Entries<V>)
    ensures forall e | e in r :: e in pairs
    decreases |pairs|
  {
    if pairs == [] then []
    else PutIfAbsent(FromList(pairs[..|pairs| - 1]), pairs[|pairs| - 1].0, pairs[|pairs| - 1].1)
  }

  lemma SortedCons<V>(e: (string, V), es: Entries<V>)
    requires Above(e.0, es) && Sorted(es)
    ensures Sorted([e] + es)
  {
    var r := [e] + es;
    forall i, j | 0 <= i < j < |r|
      ensures Less(r[i].0, r[j].0)
    {
      if i > 0 {
        assert r[i] == es[i - 1] && r[j] == es[j - 1];
      } else {
        assert r[j] == es[j - 1];
      }
    }
  }

  /** A lookup sees the new value at `k` and the old one everywhere else. */
  lemma {:induction false} PutGet<V>(es: Entries<V>, k: string, v: V, x: string)
    ensures Get(Put(es, k, v), x) == if x == k then Some(v) else Get(es, x)
  {
    if es != [] && es[0].0 != k && !Less(k, es[0].0) {
      PutGet(es[1..], k, v, x);
    }
  }

  lemma {:induction false} PutAbove<V>(es: Entries<V>, k: string, v: V, lo: string)
    requires Above(lo, es) && Less(lo, k)
    ensures Above(lo, Put(es, k, v))
  {
    if es != [] && es[0].0 != k && !Less(k, es[0].0) {
      PutAbove(es[1..], k, v, lo);
      assert Above(lo, es[1..]) by {
        forall i | 0 <= i < |es[1..]| ensures Less(lo, es[1..][i].0) {
          assert es[1..][i] == es[i + 1];
        }
      }
    }
  }

  /** `m[k] = v` keeps the keys strictly ascending. */
  lemma {:induction false} PutSorted<V>(es: Entries<V>, k: string, v: V)
    requires Sorted(es)
    ensures Sorted(Put(es, k, v))
  {
    if es == [] {
    } else if es[0].0 == k {
      var r := [(k, v)] + es[1..];
      assert forall i | 0 <= i < |r| :: r[i].0 == es[i].0;
    } else if Less(k, es[0].0) {
      forall i | 0 <= i < |es| ensures Less(k, es[i].0) {
        if i > 0 {
          LessTransitive(k, es[0].0, es[i].0);
        }
      }
      SortedCons((k, v), es);
    } else {
      LessTotal(k, es[0].0);
      var rest := es[1..];
      assert Sorted(rest) by {
        forall i, j | 0 <= i < j < |rest| ensures Less(rest[i].0, rest[j].0) {
          assert rest[i] == es[i + 1] && rest[j] == es[j + 1];
        }
      }
      assert Above(es[0].0, rest) by {
        forall i | 0 <= i < |rest| ensures Less(es[0].0, rest[i].0) {
          assert rest[i] == es[i + 1];
        }
      }
      PutSorted(rest, k, v);
      PutAbove(rest, k, v, es[0].0);
      SortedCons(es[0], Put(rest, k, v));
    }
  }

  /** In a sorted map, entry `i` is what a lookup of its key finds. */
  lemma {:induction false} SortedGet<V>(es: Entries<V>, i: nat)
    requires Sorted(es) && i < |es|
    ensures Get(es, es[i].0) == Some(es[i].1)
  {
    if i > 0 {
      LessIrreflexive(es[i].0);
      assert es[0].0 != es[i].0;
      var rest := es[1..];
      assert Sorted(rest) by {
        forall a, b | 0 <= a < b < |rest| ensures Less(rest[a].0, rest[b].0) {
          assert rest[a] == es[a + 1] && rest[b] == es[b + 1];
        }
      }
      SortedGet(rest, i - 1);
      assert rest[i - 1] == es[i];
    }
  }

  /** The lookup in a one-entry map. */
  lemma GetSingle<V>(k: string, v: V, x: string)
    ensures Get([(k, v)], x) == if x == k then Some(v) else None
  {
    assert [(k, v)][1..] == [];
  }

  lemma {:induction false} FromListSorted<V>(pairs: Entries<V>)
    ensures Sorted(FromList(pairs))
    decreases |pairs|
  {
    if pairs != [] {
      var last := pairs[|pairs| - 1];
      FromListSorted(pairs[..|pairs| - 1]);
      if !Contains(FromList(pairs[..|pairs| - 1]), last.0) {
        PutSorted(FromList(pairs[..|pairs| - 1]), last.0, last.1);
      }
    }
  }

  /**
   * Building from a list keeps, for each key, the value of its FIRST
   * occurrence in the list (which is what a lookup in the list itself finds);
   * keys that do not occur are absent.
   */
  lemma {:induction false} FromListGet<V>(pairs: Entries<V>, x: string)
    ensures Get(FromList(pairs), x) == Get(pairs, x)
    decreases |pairs|
  {
    if pairs != [] {
      var init, last := pairs[..|pairs| - 1], pairs[|pairs| - 1];
      FromListGet(init, x);
      GetSnoc(init, last, x);
      assert pairs == init + [last];
      if !Contains(FromList(init), last.0) {
        PutGet(FromList(init), last.0, last.1, x);
      }
    }
  }

  lemma {:induction false} GetSnoc<V>(init: Entries<V>, last: (string, V), x: string)
    ensures Get(init + [last], x)
         == if Get(init, x).Some? then Get(init, x) else if last.0 == x then Some(last.1) else None
  {
    if init != [] {
      assert (init + [last])[0] == init[0];
      assert (init + [last])[1..] == init[1..] + [last];
      GetSnoc(init[1..], last, x);
    }
  }
}
