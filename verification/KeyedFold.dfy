/**
  Merging into an insertion-ordered dictionary, the shape of every deduplication in the
  repository: the first item of a key enters the dictionary and each later item of the key is
  combined into the entry.
 */
module KeyedFold {

  /** The items whose key is `k`, in order. */
  function Group<K(==), V>(items: seq<V>, key: V -> K, k: K): seq<V> {
    if items == [] then []
    else
      var last := items[|items| - 1];
      Group(items[..|items| - 1], key, k) + if key(last) == k then [last] else []
  }

  /** The distinct keys, each at its first occurrence. */
  function FirstKeys<K(==), V>(items: seq<V>, key: V -> K): seq<K> {
    if items == [] then []
    else
      var ks := FirstKeys(items[..|items| - 1], key);
      var k := key(items[|items| - 1]);
      if k in ks then ks else ks + [k]
  }

  /** The left fold of `combine` over a non-empty group. */
  function Fold<V>(items: seq<V>, combine: (V, V) -> V): V
    requires items != []
  {
    if |items| == 1 then items[0]
    else combine(Fold(items[..|items| - 1], combine), items[|items| - 1])
  }

  lemma {:induction false} GroupMembers<K, V>(items: seq<V>, key: V -> K, k: K)
    ensures forall v :: v in Group(items, key, k) <==> v in items && key(v) == k
  {
    if items != [] {
      GroupMembers(items[..|items| - 1], key, k);
      assert items == items[..|items| - 1] + [items[|items| - 1]];
    }
  }

  ghost predicate HasKey<K, V>(items: seq<V>, key: V -> K, k: K) {
    exists v :: v in items && key(v) == k
  }

  lemma {:induction false} FirstKeysMembers<K, V>(items: seq<V>, key: V -> K)
    ensures forall k :: k in FirstKeys(items, key) ==> HasKey(items, key, k)
    ensures forall v :: v in items ==> key(v) in FirstKeys(items, key)
    ensures forall i, j :: 0 <= i < j < |FirstKeys(items, key)| ==> FirstKeys(items, key)[i] != FirstKeys(items, key)[j]
  {
    if items != [] {
      var front, last := items[..|items| - 1], items[|items| - 1];
      FirstKeysMembers(front, key);
      assert items == front + [last];
      forall k | k in FirstKeys(items, key) ensures HasKey(items, key, k) {
        if k in FirstKeys(front, key) {
          assert HasKey(front, key, k);
          var v :| v in front && key(v) == k;
          assert v in items;
        } else {
          assert last in items;
        }
      }
    }
  }

  /** The item at `p` is the first of its key. */
  predicate FirstOfKey<K(==), V>(items: seq<V>, key: V -> K, p: nat) {
    p < |items| && forall q :: 0 <= q < p ==> key(items[q]) != key(items[p])
  }

  /** The places of the keys' first occurrences, in order. */
  predicate FirstPlaces<K(==), V>(items: seq<V>, key: V -> K, ks: seq<K>, at: seq<nat>) {
    && |at| == |ks| && (forall i, j :: 0 <= i < j < |at| ==> at[i] < at[j])
    && forall i :: 0 <= i < |at| ==> FirstOfKey(items, key, at[i]) && key(items[at[i]]) == ks[i]
  }

  /** The keys stand in the order in which they first occur. */
  lemma {:induction false} FirstKeysOrder<K, V>(items: seq<V>, key: V -> K) returns (at: seq<nat>)
    ensures FirstPlaces(items, key, FirstKeys(items, key), at)
  {
    if items == [] {
      at := [];
    } else {
      hide FirstPlaces, FirstOfKey;
      var n := |items| - 1;
      at := FirstKeysOrder(items[..n], key);
      var ks := FirstKeys(items[..n], key);
      PlacesStay(items, key, n, ks, at);
      if key(items[n]) !in ks {
        NewKey(items, key);
        PlacesGrow(items, key, n, ks, at);
        at := at + [n];
      }
    }
  }

  lemma PlacesStay<K, V>(items: seq<V>, key: V -> K, n: nat, ks: seq<K>, at: seq<nat>)
    requires n <= |items| && FirstPlaces(items[..n], key, ks, at)
    ensures FirstPlaces(items, key, ks, at) && forall i :: 0 <= i < |at| ==> at[i] < n
  {
    forall i | 0 <= i < |at| ensures FirstOfKey(items, key, at[i]) && key(items[at[i]]) == ks[i] {
      FirstStays(items, key, n, at[i]);
    }
  }

  lemma PlacesGrow<K, V>(items: seq<V>, key: V -> K, n: nat, ks: seq<K>, at: seq<nat>)
    requires FirstPlaces(items, key, ks, at) && (forall i :: 0 <= i < |at| ==> at[i] < n) && FirstOfKey(items, key, n)
    ensures FirstPlaces(items, key, ks + [key(items[n])], at + [n])
  {
    hide FirstOfKey;
  }

  lemma FirstStays<K, V>(items: seq<V>, key: V -> K, n: nat, p: nat)
    requires n <= |items| && FirstOfKey(items[..n], key, p)
    ensures FirstOfKey(items, key, p) && items[p] == items[..n][p]
  {
    assert forall q :: 0 <= q < n ==> items[q] == items[..n][q];
  }

  lemma NewKey<K, V>(items: seq<V>, key: V -> K)
    requires items != [] && key(items[|items| - 1]) !in FirstKeys(items[..|items| - 1], key)
    ensures FirstOfKey(items, key, |items| - 1)
  {
    hide FirstKeys;
    var n := |items| - 1;
    FirstKeysMembers(items[..n], key);
    forall q | 0 <= q < n ensures key(items[q]) != key(items[n]) { assert items[..n][q] in items[..n]; }
  }

  lemma GroupNonEmpty<K, V>(items: seq<V>, key: V -> K, k: K)
    ensures k in FirstKeys(items, key) <==> Group(items, key, k) != []
  {
    GroupMembers(items, key, k);
    FirstKeysMembers(items, key);
    if k in FirstKeys(items, key) {
      assert HasKey(items, key, k);
      var v :| v in items && key(v) == k;
      assert v in Group(items, key, k);
    }
    if Group(items, key, k) != [] {
      assert Group(items, key, k)[0] in Group(items, key, k);
      var v :| v in Group(items, key, k);
    }
  }

  /** For each key in first-occurrence order, the fold of the key's group. */
  function Merge<K(==), V>(items: seq<V>, key: V -> K, combine: (V, V) -> V): (out: seq<V>)
    ensures |out| == |FirstKeys(items, key)|
  {
    var ks := FirstKeys(items, key);
    seq(|ks|, i requires 0 <= i < |ks| =>
      GroupNonEmpty(items, key, ks[i]);
      assert ks[i] in ks;
      Fold(Group(items, key, ks[i]), combine))
  }

  ghost predicate KeepsKey<K, V(!new)>(key: V -> K, combine: (V, V) -> V) {
    forall a, b :: key(a) == key(b) ==> key(combine(a, b)) == key(a)
  }

  lemma {:induction false} FoldKey<K, V(!new)>(items: seq<V>, key: V -> K, combine: (V, V) -> V, k: K)
    requires items != [] && KeepsKey(key, combine)
    requires forall i :: 0 <= i < |items| ==> key(items[i]) == k
    ensures key(Fold(items, combine)) == k
  {
    if |items| > 1 { FoldKey(items[..|items| - 1], key, combine, k); }
  }

  lemma {:induction false} GroupKeys<K, V>(items: seq<V>, key: V -> K, k: K)
    ensures forall i :: 0 <= i < |Group(items, key, k)| ==> key(Group(items, key, k)[i]) == k
  {
    if items != [] { GroupKeys(items[..|items| - 1], key, k); }
  }

  /** The entry of a key, and the keys of the dictionary in order. */
  lemma MergeAt<K, V(!new)>(items: seq<V>, key: V -> K, combine: (V, V) -> V, i: nat)
    requires KeepsKey(key, combine) && i < |Merge(items, key, combine)|
    ensures var k := FirstKeys(items, key)[i];
      Group(items, key, k) != [] && Merge(items, key, combine)[i] == Fold(Group(items, key, k), combine) &&
        key(Merge(items, key, combine)[i]) == k
  {
    var k := FirstKeys(items, key)[i];
    GroupNonEmpty(items, key, k);
    GroupKeys(items, key, k);
    FoldKey(Group(items, key, k), key, combine, k);
  }

  /** An item's key has an entry. */
  lemma MergeHas<K, V(!new)>(items: seq<V>, key: V -> K, combine: (V, V) -> V, v: V) returns (i: nat)
    requires KeepsKey(key, combine) && v in items
    ensures i < |Merge(items, key, combine)| && FirstKeys(items, key)[i] == key(v)
    ensures Group(items, key, key(v)) != [] && Merge(items, key, combine)[i] == Fold(Group(items, key, key(v)), combine)
    ensures v in Group(items, key, key(v))
  {
    FirstKeysMembers(items, key);
    GroupMembers(items, key, key(v));
    var ks := FirstKeys(items, key);
    assert key(v) in ks;
    i :| 0 <= i < |ks| && ks[i] == key(v);
    MergeAt(items, key, combine, i);
  }

  /** Items whose keys are all different stay as they are. */
  lemma {:induction false} MergeDistinct<K, V(!new)>(items: seq<V>, key: V -> K, combine: (V, V) -> V)
    requires forall i, j :: 0 <= i < j < |items| ==> key(items[i]) != key(items[j])
    ensures Merge(items, key, combine) == items
  {
    DistinctKeys(items, key);
    forall i | 0 <= i < |items| ensures Group(items, key, key(items[i])) == [items[i]] {
      DistinctGroup(items, key, i);
    }
  }

  lemma {:induction false} DistinctKeys<K, V>(items: seq<V>, key: V -> K)
    requires forall i, j :: 0 <= i < j < |items| ==> key(items[i]) != key(items[j])
    ensures FirstKeys(items, key) == seq(|items|, i requires 0 <= i < |items| => key(items[i]))
  {
    if items != [] {
      var front, last := items[..|items| - 1], items[|items| - 1];
      DistinctKeys(front, key);
      FirstKeysMembers(front, key);
      forall i | 0 <= i < |front| ensures FirstKeys(front, key)[i] != key(last) {
        assert key(items[i]) != key(items[|items| - 1]);
      }
    }
  }

  lemma {:induction false} GroupEmpty<K, V>(items: seq<V>, key: V -> K, k: K)
    requires forall i :: 0 <= i < |items| ==> key(items[i]) != k
    ensures Group(items, key, k) == []
  {
    if items != [] { GroupEmpty(items[..|items| - 1], key, k); }
  }

  lemma {:induction false} DistinctGroup<K, V>(items: seq<V>, key: V -> K, i: nat)
    requires i < |items|
    requires forall i, j :: 0 <= i < j < |items| ==> key(items[i]) != key(items[j])
    ensures Group(items, key, key(items[i])) == [items[i]]
  {
    var front := items[..|items| - 1];
    if i < |items| - 1 {
      DistinctGroup(front, key, i);
    } else {
      GroupEmpty(front, key, key(items[i]));
    }
  }

  /** One entry per key; merging what was merged changes nothing. */
  lemma MergeIdempotent<K, V(!new)>(items: seq<V>, key: V -> K, combine: (V, V) -> V)
    requires KeepsKey(key, combine)
    ensures var out := Merge(items, key, combine);
      (forall i, j :: 0 <= i < j < |out| ==> key(out[i]) != key(out[j])) && Merge(out, key, combine) == out
  {
    var out := Merge(items, key, combine);
    FirstKeysMembers(items, key);
    forall i | 0 <= i < |out| ensures key(out[i]) == FirstKeys(items, key)[i] {
      MergeAt(items, key, combine, i);
    }
    MergeDistinct(out, key, combine);
  }

  /** The dictionary itself, without its order. */
  ghost function Dict<K, V>(items: seq<V>, key: V -> K, combine: (V, V) -> V): (d: map<K, V>)
    ensures d.Keys == set k | k in FirstKeys(items, key)
  {
    map k | k in FirstKeys(items, key) :: (GroupNonEmpty(items, key, k); Fold(Group(items, key, k), combine))
  }

  /** One more item enters the dictionary or is combined into its entry: the step of every merging loop. */
  lemma DictStep<K, V>(items: seq<V>, n: nat, key: V -> K, combine: (V, V) -> V)
    requires n < |items|
    ensures var before, v := Dict(items[..n], key, combine), items[n];
      && Dict(items[..n + 1], key, combine) ==
        before[key(v) := if key(v) in before then combine(before[key(v)], v) else v]
      && FirstKeys(items[..n + 1], key) == FirstKeys(items[..n], key) + if key(v) in before then [] else [key(v)]
  {
    var v := items[n];
    var front, all := items[..n], items[..n + 1];
    assert all[..n] == front && all[n] == v;
    forall k ensures Group(all, key, k) == Group(front, key, k) + if key(v) == k then [v] else [] {}
    var g := Group(front, key, key(v));
    GroupNonEmpty(front, key, key(v));
    assert (g + [v])[..|g|] == g;
    var before, after := Dict(front, key, combine), Dict(all, key, combine);
    forall k | k in FirstKeys(all, key)
      ensures after[k] == if k != key(v) then before[k] else if k in before then combine(before[k], v) else v
    {
      if k != key(v) { assert Group(all, key, k) == Group(front, key, k); }
    }
  }

  lemma DictEnter<K, V>(items: seq<V>, n: nat, key: V -> K, combine: (V, V) -> V, k: K)
    requires n < |items| && k == key(items[n]) && k !in Dict(items[..n], key, combine)
    ensures Dict(items[..n + 1], key, combine) == Dict(items[..n], key, combine)[k := items[n]]
    ensures FirstKeys(items[..n + 1], key) == FirstKeys(items[..n], key) + [k]
  {
    DictStep(items, n, key, combine);
  }

  lemma DictCombine<K, V>(items: seq<V>, n: nat, key: V -> K, combine: (V, V) -> V, k: K, v: V)
    requires n < |items| && k == key(items[n]) && k in Dict(items[..n], key, combine)
    requires v == combine(Dict(items[..n], key, combine)[k], items[n])
    ensures Dict(items[..n + 1], key, combine) == Dict(items[..n], key, combine)[k := v]
    ensures FirstKeys(items[..n + 1], key) == FirstKeys(items[..n], key)
  {
    DictStep(items, n, key, combine);
  }

  /** Reading the dictionary in key order gives the merged list. */
  lemma MergeIsDict<K, V>(items: seq<V>, key: V -> K, combine: (V, V) -> V, i: nat)
    requires i < |FirstKeys(items, key)|
    ensures FirstKeys(items, key)[i] in Dict(items, key, combine)
    ensures Merge(items, key, combine)[i] == Dict(items, key, combine)[FirstKeys(items, key)[i]]
  {
    var ks := FirstKeys(items, key);
    assert ks[i] in ks;
    GroupNonEmpty(items, key, ks[i]);
  }

  lemma DictEmpty<K, V>(items: seq<V>, key: V -> K, combine: (V, V) -> V)
    requires items == []
    ensures FirstKeys(items, key) == [] && Dict(items, key, combine) == map[]
  {}

  // ---------------------------------------------------------------- folds that choose

  /** `better(a, b)` is a strict order in which incomparable items form classes. */
  ghost predicate StrictWeakOrder<V(!new)>(better: (V, V) -> bool) {
    && (forall a, b :: better(a, b) ==> !better(b, a))
    && (forall a, b, c :: better(a, c) ==> better(a, b) || better(b, c))
  }

  /** `v` is the first of the items that none of them betters. */
  ghost predicate FirstBest<V>(items: seq<V>, better: (V, V) -> bool, v: V) {
    exists i :: BestAt(items, better, i) && items[i] == v
  }

  ghost predicate BestAt<V>(items: seq<V>, better: (V, V) -> bool, i: int) {
    && 0 <= i < |items|
    && (forall j :: 0 <= j < |items| ==> !better(items[j], items[i]))
    && (forall j :: 0 <= j < i ==> better(items[i], items[j]))
  }

  lemma BestOfMore<V(!new)>(items: seq<V>, better: (V, V) -> bool, i: int)
    requires items != [] && StrictWeakOrder(better) && BestAt(items[..|items| - 1], better, i)
    ensures var n := |items| - 1;
      BestAt(items, better, if better(items[n], items[i]) then n else i)
  {
    var n := |items| - 1;
    forall j | 0 <= j < n ensures items[..n][j] == items[j] &&
      (better(items[n], items[i]) ==> better(items[n], items[j])) {
      assert !better(items[..n][j], items[i]);
    }
  }

  /** Replacing the entry only by a strictly better item leaves the first best one. */
  lemma {:induction false} FoldFirstBest<V(!new)>(items: seq<V>, better: (V, V) -> bool, combine: (V, V) -> V)
    requires items != [] && StrictWeakOrder(better)
    requires forall a, b :: combine(a, b) == if better(b, a) then b else a
    ensures FirstBest(items, better, Fold(items, combine))
  {
    var n := |items| - 1;
    if n == 0 {
      assert BestAt(items, better, 0);
    } else {
      FoldFirstBest(items[..n], better, combine);
      var i :| BestAt(items[..n], better, i) && items[..n][i] == Fold(items[..n], combine);
      BestOfMore(items, better, i);
    }
  }

  function Map<V, W>(items: seq<V>, f: V -> W): (r: seq<W>)
    ensures |r| == |items| && forall i :: 0 <= i < |items| ==> r[i] == f(items[i])
  {
    seq(|items|, i requires 0 <= i < |items| => f(items[i]))
  }

  /** A field that is combined on its own is the fold of that field. */
  lemma {:induction false} FoldField<V(!new), W>(items: seq<V>, combine: (V, V) -> V, f: V -> W, g: (W, W) -> W)
    requires items != [] && forall a, b :: f(combine(a, b)) == g(f(a), f(b))
    ensures f(Fold(items, combine)) == Fold(Map(items, f), g)
  {
    var n := |items| - 1;
    if n > 0 {
      FoldField(items[..n], combine, f, g);
      assert Map(items, f)[..n] == Map(items[..n], f);
    }
  }

  // ---------------------------------------------------------------- parts of the keys

  function Filter<V>(items: seq<V>, keep: V -> bool): seq<V> {
    if items == [] then []
    else
      var front, last := items[..|items| - 1], items[|items| - 1];
      if keep(last) then Filter(front, keep) + [last] else Filter(front, keep)
  }

  lemma {:induction false} FilterMembers<V>(items: seq<V>, keep: V -> bool)
    ensures forall v :: v in Filter(items, keep) <==> v in items && keep(v)
  {
    if items != [] {
      FilterMembers(items[..|items| - 1], keep);
      assert items == items[..|items| - 1] + [items[|items| - 1]];
    }
  }

  lemma FilterMember<V>(items: seq<V>, keep: V -> bool, v: V)
    ensures v in Filter(items, keep) <==> v in items && keep(v)
  {
    FilterMembers(items, keep);
  }

  lemma {:induction false} FilterAppend<V>(a: seq<V>, b: seq<V>, keep: V -> bool)
    ensures Filter(a + b, keep) == Filter(a, keep) + Filter(b, keep)
  {
    if b == [] {
      assert a + b == a;
    } else {
      FilterAppend(a, b[..|b| - 1], keep);
      assert (a + b)[..|a + b| - 1] == a + b[..|b| - 1];
    }
  }

  lemma {:induction false} FilterAll<V>(items: seq<V>, keep: V -> bool, yes: bool)
    requires forall i :: 0 <= i < |items| ==> keep(items[i]) == yes
    ensures Filter(items, keep) == if yes then items else []
  {
    if items != [] {
      FilterAll(items[..|items| - 1], keep, yes);
      assert items == items[..|items| - 1] + [items[|items| - 1]];
    }
  }

  lemma {:induction false} GroupOfFilter<K, V>(items: seq<V>, key: V -> K, keep: V -> bool, k: K)
    requires forall v :: v in items && key(v) == k ==> keep(v)
    ensures Group(Filter(items, keep), key, k) == Group(items, key, k)
  {
    if items != [] {
      var front, last := items[..|items| - 1], items[|items| - 1];
      GroupOfFilter(front, key, keep, k);
      if keep(last) { assert (Filter(front, keep) + [last])[..|Filter(front, keep)|] == Filter(front, keep); }
    }
  }

  /** Whether an item is kept is decided by its key. */
  ghost predicate ByKey<K, V(!new)>(key: V -> K, keep: V -> bool, keepKey: K -> bool) {
    forall v :: keep(v) == keepKey(key(v))
  }

  lemma FilterSnoc<V>(items: seq<V>, v: V, keep: V -> bool)
    ensures Filter(items + [v], keep) == if keep(v) then Filter(items, keep) + [v] else Filter(items, keep)
  {
    assert (items + [v])[..|items|] == items;
  }

  lemma FirstKeysSnoc<K, V>(items: seq<V>, v: V, key: V -> K)
    ensures var ks := FirstKeys(items, key);
      FirstKeys(items + [v], key) == if key(v) in ks then ks else ks + [key(v)]
  {
    assert (items + [v])[..|items|] == items;
  }

  lemma {:induction false} FirstKeysOfFilter<K, V(!new)>(
    items: seq<V>, key: V -> K, keep: V -> bool, keepKey: K -> bool)
    requires ByKey(key, keep, keepKey)
    ensures FirstKeys(Filter(items, keep), key) == Filter(FirstKeys(items, key), keepKey)
  {
    if items != [] {
      var front, last := items[..|items| - 1], items[|items| - 1];
      FirstKeysOfFilter(front, key, keep, keepKey);
      var ks, kept, k := FirstKeys(front, key), Filter(front, keep), key(last);
      FilterMember(ks, keepKey, k);
      assert keep(last) == keepKey(k);
      if keep(last) {
        FirstKeysSnoc(kept, last, key);
        assert k in Filter(ks, keepKey) <==> k in ks;
        assert FirstKeys(Filter(items, keep), key) ==
          if k in ks then Filter(ks, keepKey) else Filter(ks, keepKey) + [k];
      } else {
        assert FirstKeys(Filter(items, keep), key) == Filter(ks, keepKey);
      }
      FilterSnoc(ks, k, keepKey);
      assert FirstKeys(items, key) == if k in ks then ks else ks + [k];
    }
  }

  lemma MapSnoc<V, W>(items: seq<V>, v: V, f: V -> W)
    ensures Map(items + [v], f) == Map(items, f) + [f(v)]
  {}

  lemma {:induction false} FilterMap<K, V>(ks: seq<K>, vs: seq<V>, keep: V -> bool, keepKey: K -> bool, f: K -> V)
    requires |vs| == |ks| && forall i :: 0 <= i < |ks| ==> vs[i] == f(ks[i]) && keep(vs[i]) == keepKey(ks[i])
    ensures Filter(vs, keep) == Map(Filter(ks, keepKey), f)
  {
    if ks != [] {
      var n := |ks| - 1;
      FilterMap(ks[..n], vs[..n], keep, keepKey, f);
      assert vs[n] == f(ks[n]) && keep(vs[n]) == keepKey(ks[n]);
      MapSnoc(Filter(ks[..n], keepKey), ks[n], f);
    }
  }

  /** Merging and then keeping some of the keys is the same as keeping their items and then merging. */
  lemma MergeOfFilter<K, V(!new)>(items: seq<V>, key: V -> K, combine: (V, V) -> V, keep: V -> bool, keepKey: K -> bool)
    requires KeepsKey(key, combine) && ByKey(key, keep, keepKey)
    ensures Filter(Merge(items, key, combine), keep) == Merge(Filter(items, keep), key, combine)
  {
    hide Merge, Dict, FirstKeys, Group, Filter;
    var out, kept, ks := Merge(items, key, combine), Filter(items, keep), FirstKeys(items, key);
    FirstKeysOfFilter(items, key, keep, keepKey);
    FilterMembers(ks, keepKey);
    if out == [] {
      FilterAll(out, keep, true);
      FilterAll(ks, keepKey, true);
    } else {
      var dict := Dict(items, key, combine);
      var f := (k: K) => if k in dict then dict[k] else out[0];
      forall i | 0 <= i < |ks| ensures out[i] == f(ks[i]) && keep(out[i]) == keepKey(ks[i]) {
        MergeIsDict(items, key, combine, i);
        MergeAt(items, key, combine, i);
      }
      FilterMap(ks, out, keep, keepKey, f);
      forall i | 0 <= i < |FirstKeys(kept, key)| ensures Merge(kept, key, combine)[i] == f(FirstKeys(kept, key)[i]) {
        var k := FirstKeys(kept, key)[i];
        EntryOfFilter(items, key, combine, keep, keepKey, i);
      }
    }
  }

  lemma EntryOfFilter<K, V(!new)>(
    items: seq<V>, key: V -> K, combine: (V, V) -> V, keep: V -> bool, keepKey: K -> bool, i: nat)
    requires KeepsKey(key, combine) && ByKey(key, keep, keepKey)
    requires i < |FirstKeys(Filter(items, keep), key)|
    ensures var k := FirstKeys(Filter(items, keep), key)[i];
      k in Dict(items, key, combine) && Merge(Filter(items, keep), key, combine)[i] == Dict(items, key, combine)[k]
  {
    hide Merge;
    var kept := Filter(items, keep);
    var k := FirstKeys(kept, key)[i];
    FirstKeysOfFilter(items, key, keep, keepKey);
    FilterMembers(FirstKeys(items, key), keepKey);
    var ks := Filter(FirstKeys(items, key), keepKey);
    assert ks == FirstKeys(kept, key);
    var member :| member in ks && member == k;
    MergeAt(kept, key, combine, i);
    forall v | key(v) == k ensures keep(v) { assert keep(v) == keepKey(key(v)); }
    GroupOfFilter(items, key, keep, k);
  }

  // ---------------------------------------------------------------- sizes

  lemma {:induction false} AtMostOnce<T>(s: seq<T>, x: T)
    requires forall i, j :: 0 <= i < j < |s| ==> s[i] != s[j]
    ensures multiset(s)[x] == if x in s then 1 else 0
  {
    if s != [] {
      var n := |s| - 1;
      AtMostOnce(s[..n], x);
      assert s == s[..n] + [s[n]];
    }
  }

  lemma {:induction false} SubsetSize<T>(a: set<T>, b: set<T>)
    requires a <= b
    ensures |a| <= |b|
  {
    if a != {} {
      var x :| x in a;
      SubsetSize(a - {x}, b - {x});
    }
  }
}
