/** Adding to a list only what is not there yet, judged by a key. */
module Missing {

  /** The elements of `ds` whose key is not in `have`, in their order; repetitions inside `ds` stay. */
  function NotIn<D(==), K(==)>(have: set<K>, key: D -> K, ds: seq<D>): seq<D> {
    if ds == [] then []
    else if key(ds[0]) in have then NotIn(have, key, ds[1..])
    else [ds[0]] + NotIn(have, key, ds[1..])
  }

  function Keys<D(==), K(==)>(key: D -> K, ds: seq<D>): set<K> {
    set d | d in ds :: key(d)
  }

  lemma {:induction false} NotInMember<D, K>(have: set<K>, key: D -> K, ds: seq<D>, d: D)
    ensures d in NotIn(have, key, ds) <==> d in ds && key(d) !in have
  {
    if ds != [] {
      NotInMember(have, key, ds[1..], d);
      assert ds == [ds[0]] + ds[1..];
    }
  }

  /** Everything given is covered afterwards. */
  lemma Covers<D, K>(have: set<K>, key: D -> K, ds: seq<D>)
    ensures Keys(key, ds) <= have + Keys(key, NotIn(have, key, ds))
    ensures Keys(key, NotIn(have, key, ds)) == Keys(key, ds) - have
  {
    forall d ensures d in NotIn(have, key, ds) <==> d in ds && key(d) !in have {
      NotInMember(have, key, ds, d);
    }
  }

  lemma {:induction false} NothingMissing<D, K>(have: set<K>, key: D -> K, ds: seq<D>)
    requires Keys(key, ds) <= have
    ensures NotIn(have, key, ds) == []
  {
    if ds != [] {
      assert key(ds[0]) in Keys(key, ds);
      assert Keys(key, ds[1..]) <= Keys(key, ds);
      NothingMissing(have, key, ds[1..]);
    }
  }

  predicate Distinct<D(==), K(==)>(key: D -> K, ds: seq<D>) {
    forall i, j :: 0 <= i < j < |ds| ==> key(ds[i]) != key(ds[j])
  }

  /** What is added clashes neither with itself, if the input does not, nor with what was there. */
  lemma {:induction false} StaysDistinct<D, K>(have: set<K>, key: D -> K, ds: seq<D>)
    requires Distinct(key, ds)
    ensures Distinct(key, NotIn(have, key, ds))
    ensures forall i :: 0 <= i < |NotIn(have, key, ds)| ==> key(NotIn(have, key, ds)[i]) !in have
  {
    if ds != [] {
      var rest := NotIn(have, key, ds[1..]);
      StaysDistinct(have, key, ds[1..]);
      forall i | 0 <= i < |rest| ensures key(rest[i]) != key(ds[0]) {
        NotInMember(have, key, ds[1..], rest[i]);
        var j :| 0 <= j < |ds[1..]| && ds[1..][j] == rest[i];
        assert ds[j + 1] == rest[i];
      }
    }
  }

  /** NotIn grows at the end like its input. */
  lemma {:induction false} NotInAppend<D, K>(have: set<K>, key: D -> K, ds: seq<D>, d: D)
    ensures NotIn(have, key, ds + [d]) == NotIn(have, key, ds) + if key(d) in have then [] else [d]
  {
    if ds == [] {
      assert (ds + [d])[1..] == [];
    } else {
      assert (ds + [d])[1..] == ds[1..] + [d];
      NotInAppend(have, key, ds[1..], d);
    }
  }
}
