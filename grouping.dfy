/**
 * Insertion-ordered grouping, as PHP's `$groups[$key][] = $value`, Laravel's
 * `Collection::groupBy` and a JavaScript object filled with
 * `grupos[key] ??= …; grupos[key].items.push(…)` all behave: a key's group is
 * created when the key is first seen, groups keep the order in which their
 * keys first appeared, and each group keeps its values in input order.
 */
module Grouping {

  /** One group: its key and the values pushed under it, in order. */
  datatype Group<K, V> = Group(key: K, items: seq<V>)

  /** The keys of the groups, in group order. */
  function Keys<K, V>(gs: seq<Group<K, V>>): (ks: seq<K>)
    ensures |ks| == |gs|
    ensures forall i :: 0 <= i < |gs| ==> ks[i] == gs[i].key
  {
    if |gs| == 0 then [] else [gs[0].key] + Keys(gs[1..])
  }

  /** No key names two groups. */
  predicate DistinctKeys<K(==), V>(gs: seq<Group<K, V>>) {
    forall i, j :: 0 <= i < j < |gs| ==> gs[i].key != gs[j].key
  }

  /** The position of the group with key `k`, if there is one. */
  function Find<K(==), V>(gs: seq<Group<K, V>>, k: K): (r: int)
    ensures -1 <= r < |gs|
    ensures r >= 0 ==> gs[r].key == k && forall j :: 0 <= j < r ==> gs[j].key != k
    ensures r < 0 ==> forall j :: 0 <= j < |gs| ==> gs[j].key != k
  {
    if |gs| == 0 then -1
    else if gs[0].key == k then 0
    else
      var r := Find(gs[1..], k);
      if r < 0 then -1 else r + 1
  }

  /**
   * Push `v` under key `k`: onto the end of `k`'s group when there is one,
   * otherwise into a new group `k` added after all the others.
   */
  function Append<K(==), V>(gs: seq<Group<K, V>>, k: K, v: V): (r: seq<Group<K, V>>)
  {
    var i := Find(gs, k);
    if i < 0 then gs + [Group(k, [v])]
    else gs[i := Group(k, gs[i].items + [v])]
  }

  /**
   * What `Append` does to groups with distinct keys: keys stay distinct, the
   * group of `k` (or a new last group `Group(k, [v])`) gains `v` at its end,
   * and every other group is left as it was, in place.
   */
  lemma AppendGroups<K, V>(gs: seq<Group<K, V>>, k: K, v: V)
    requires DistinctKeys(gs)
    ensures var r := Append(gs, k, v);
      && DistinctKeys(r)
      && |r| == (if k in Keys(gs) then |gs| else |gs| + 1)
      && (forall i :: 0 <= i < |gs| ==> r[i] == Group(gs[i].key, gs[i].items + (if gs[i].key == k then [v] else [])))
      && (k !in Keys(gs) ==> r[|gs|] == Group(k, [v]))
  {
    var i := Find(gs, k);
    var r := Append(gs, k, v);
    if i >= 0 {
      assert Keys(gs)[i] == k;
      assert r == gs[i := Group(k, gs[i].items + [v])];
      assert forall j :: 0 <= j < |gs| ==> r[j].key == gs[j].key;
    } else {
      assert forall j :: 0 <= j < |gs| ==> Keys(gs)[j] != k;
      assert r == gs + [Group(k, [v])];
      assert forall j :: 0 <= j < |gs| ==> r[j] == gs[j];
    }
  }

  /** The values pushed under `k`, in input order. */
  function ItemsWith<K(==), V>(ps: seq<(K, V)>, k: K): (vs: seq<V>)
    ensures |vs| <= |ps|
  {
    if |ps| == 0 then []
    else
      var rest := ItemsWith(ps[..|ps| - 1], k);
      var last := ps[|ps| - 1];
      if last.0 == k then rest + [last.1] else rest
  }

  /** Every value pushed under `k` comes from a pair of `ps` with key `k`. */
  lemma {:induction false} ItemsWithFrom<K, V>(ps: seq<(K, V)>, k: K, j: nat)
    requires j < |ItemsWith(ps, k)|
    ensures exists i :: 0 <= i < |ps| && ps[i] == (k, ItemsWith(ps, k)[j])
    decreases |ps|
  {
    var init := ps[..|ps| - 1];
    var rest := ItemsWith(init, k);
    if j < |rest| {
      ItemsWithFrom(init, k, j);
      var i :| 0 <= i < |init| && init[i] == (k, rest[j]);
      assert ps[i] == init[i];
    } else {
      assert ps[|ps| - 1] == (k, ItemsWith(ps, k)[j]);
    }
  }

  /** The keys of `ps`, as a set. */
  function KeySet<K, V>(ps: seq<(K, V)>): (s: set<K>)
  {
    set i | 0 <= i < |ps| :: ps[i].0
  }

  /** Total number of values across all groups. */
  function TotalSize<K, V>(gs: seq<Group<K, V>>): nat
  {
    if |gs| == 0 then 0 else |gs[0].items| + TotalSize(gs[1..])
  }

  /** Push the pairs of `ps` one after the other, starting from no groups. */
  function GroupBy<K(==), V>(ps: seq<(K, V)>): (gs: seq<Group<K, V>>)
  {
    if |ps| == 0 then []
    else
      var last := ps[|ps| - 1];
      Append(GroupBy(ps[..|ps| - 1]), last.0, last.1)
  }

  /** Grouping one more pair is one more `Append`: the step a loop takes. */
  lemma GroupBySnoc<K, V>(ps: seq<(K, V)>, k: K, v: V)
    ensures GroupBy(ps + [(k, v)]) == Append(GroupBy(ps), k, v)
  {
    assert (ps + [(k, v)])[..|ps|] == ps;
  }

  /**
   * What grouping guarantees: distinct keys, exactly the keys of the input,
   * and each group holds precisely the values pushed under its key, in input
   * order.
   */
  ghost predicate GroupsOf<K, V>(gs: seq<Group<K, V>>, ps: seq<(K, V)>) {
    && DistinctKeys(gs)
    && (forall i :: 0 <= i < |gs| ==> gs[i].key in KeySet(ps))
    && (forall i :: 0 <= i < |ps| ==> ps[i].0 in Keys(gs))
    && (forall i :: 0 <= i < |gs| ==> gs[i].items == ItemsWith(ps, gs[i].key))
  }

  lemma {:induction false} ItemsWithNone<K, V>(ps: seq<(K, V)>, k: K)
    requires k !in KeySet(ps)
    ensures ItemsWith(ps, k) == []
    decreases |ps|
  {
    if |ps| > 0 {
      var init := ps[..|ps| - 1];
      assert ps[|ps| - 1].0 in KeySet(ps);
      assert KeySet(init) <= KeySet(ps) by {
        forall j | 0 <= j < |init| ensures init[j].0 in KeySet(ps) {
          assert init[j] == ps[j];
        }
      }
      ItemsWithNone(init, k);
    }
  }

  lemma KeySetSnoc<K, V>(ps: seq<(K, V)>, k: K, v: V)
    ensures KeySet(ps + [(k, v)]) == KeySet(ps) + {k}
  {
    var qs := ps + [(k, v)];
    forall x | x in KeySet(qs) ensures x in KeySet(ps) + {k} {
      var j :| 0 <= j < |qs| && qs[j].0 == x;
      if j < |ps| { assert qs[j] == ps[j]; }
    }
    forall x | x in KeySet(ps) ensures x in KeySet(qs) {
      var j :| 0 <= j < |ps| && ps[j].0 == x;
      assert qs[j] == ps[j];
    }
    assert qs[|ps|].0 == k;
  }

  lemma ItemsWithSnoc<K, V>(ps: seq<(K, V)>, k: K, v: V, key: K)
    ensures ItemsWith(ps + [(k, v)], key) == ItemsWith(ps, key) + (if key == k then [v] else [])
  {
    assert (ps + [(k, v)])[..|ps|] == ps;
  }

  /** A key not yet among the groups of `ps` occurs nowhere in `ps`. */
  lemma NewKeyAbsent<K, V>(gs: seq<Group<K, V>>, ps: seq<(K, V)>, k: K)
    requires GroupsOf(gs, ps)
    requires k !in Keys(gs)
    ensures k !in KeySet(ps)
  {
    forall j | 0 <= j < |ps| ensures ps[j].0 != k {
      assert ps[j].0 in Keys(gs);
    }
  }

  /** One `Append` step keeps each group equal to the values pushed under its key. */
  lemma AppendItems<K, V>(gs: seq<Group<K, V>>, ps: seq<(K, V)>, k: K, v: V)
    requires GroupsOf(gs, ps)
    ensures var r := Append(gs, k, v);
      forall i :: 0 <= i < |r| ==> r[i].items == ItemsWith(ps + [(k, v)], r[i].key)
  {
    var r := Append(gs, k, v);
    AppendGroups(gs, k, v);
    forall i | 0 <= i < |r| ensures r[i].items == ItemsWith(ps + [(k, v)], r[i].key) {
      ItemsWithSnoc(ps, k, v, r[i].key);
      if i == |gs| {
        NewKeyAbsent(gs, ps, k);
        ItemsWithNone(ps, k);
      }
    }
  }

  /** After one `Append` step every group's key is a key that was pushed. */
  lemma AppendKeysPushed<K, V>(gs: seq<Group<K, V>>, ps: seq<(K, V)>, k: K, v: V)
    requires GroupsOf(gs, ps)
    ensures var r := Append(gs, k, v);
      forall i :: 0 <= i < |r| ==> r[i].key in KeySet(ps + [(k, v)])
  {
    var r := Append(gs, k, v);
    AppendGroups(gs, k, v);
    KeySetSnoc(ps, k, v);
    forall i | 0 <= i < |r| ensures r[i].key in KeySet(ps) + {k} {
      if i < |gs| {
        assert r[i].key == gs[i].key;
      }
    }
  }

  /** After one `Append` step every key pushed has a group. */
  lemma AppendKeysCovered<K, V>(gs: seq<Group<K, V>>, ps: seq<(K, V)>, k: K, v: V)
    requires GroupsOf(gs, ps)
    ensures var r := Append(gs, k, v);
      forall j :: 0 <= j < |ps| + 1 ==> (ps + [(k, v)])[j].0 in Keys(r)
  {
    var r := Append(gs, k, v);
    AppendKeepsKeys(gs, k, v);
    forall j | 0 <= j < |ps| + 1 ensures (ps + [(k, v)])[j].0 in Keys(r) {
      if j < |ps| {
        assert (ps + [(k, v)])[j] == ps[j];
        assert ps[j].0 in Keys(gs);
        var m :| 0 <= m < |gs| && Keys(gs)[m] == ps[j].0;
        assert Keys(r)[m] == ps[j].0;
      } else {
        assert (ps + [(k, v)])[j].0 == k;
      }
    }
  }

  /** `Append` keeps every key in its place, and `k` is a key afterwards. */
  lemma AppendKeepsKeys<K, V>(gs: seq<Group<K, V>>, k: K, v: V)
    ensures |Append(gs, k, v)| >= |gs|
    ensures forall m :: 0 <= m < |gs| ==> Append(gs, k, v)[m].key == gs[m].key
    ensures k in Keys(Append(gs, k, v))
  {
    var i := Find(gs, k);
    var r := Append(gs, k, v);
    if i < 0 {
      assert Keys(r)[|gs|] == k;
    } else {
      assert Keys(r)[i] == k;
    }
  }

  /** Grouping by `GroupBy` meets `GroupsOf`. */
  lemma {:induction false} GroupByGroupsOf<K, V>(ps: seq<(K, V)>)
    ensures GroupsOf(GroupBy(ps), ps)
    decreases |ps|
  {
    if |ps| > 0 {
      var init, k, v := ps[..|ps| - 1], ps[|ps| - 1].0, ps[|ps| - 1].1;
      assert ps == init + [(k, v)];
      GroupByGroupsOf(init);
      var gs := GroupBy(init);
      assert GroupBy(ps) == Append(gs, k, v);
      AppendGroups(gs, k, v);
      AppendItems(gs, init, k, v);
      AppendKeysPushed(gs, init, k, v);
      AppendKeysCovered(gs, init, k, v);
    }
  }

  lemma {:induction false} TotalSizeAppend<K, V>(gs: seq<Group<K, V>>, k: K, v: V)
    ensures TotalSize(Append(gs, k, v)) == TotalSize(gs) + 1
    decreases |gs|
  {
    if |gs| == 0 {
    } else if gs[0].key == k {
      assert Append(gs, k, v)[1..] == gs[1..];
    } else {
      var i := Find(gs[1..], k);
      assert Find(gs, k) == (if i < 0 then -1 else i + 1);
      TotalSizeAppend(gs[1..], k, v);
      assert Append(gs, k, v) == [gs[0]] + Append(gs[1..], k, v);
    }
  }

  /** Grouping loses no value and invents none: the group sizes add up to the input length. */
  lemma {:induction false} GroupBySize<K, V>(ps: seq<(K, V)>)
    ensures TotalSize(GroupBy(ps)) == |ps|
    decreases |ps|
  {
    if |ps| > 0 {
      var init, last := ps[..|ps| - 1], ps[|ps| - 1];
      GroupBySize(init);
      TotalSizeAppend(GroupBy(init), last.0, last.1);
    }
  }

  /** Every group produced by grouping holds at least one value. */
  lemma GroupByNonEmpty<K, V>(ps: seq<(K, V)>, i: nat)
    requires i < |GroupBy(ps)|
    ensures |GroupBy(ps)[i].items| > 0
  {
    GroupByGroupsOf(ps);
    var gs := GroupBy(ps);
    var k := gs[i].key;
    assert k in KeySet(ps);
    ItemsWithSome(ps, k);
  }

  lemma {:induction false} ItemsWithSome<K, V>(ps: seq<(K, V)>, k: K)
    requires k in KeySet(ps)
    ensures |ItemsWith(ps, k)| > 0
    decreases |ps|
  {
    var init, last := ps[..|ps| - 1], ps[|ps| - 1];
    if last.0 != k {
      var j :| 0 <= j < |ps| && ps[j].0 == k;
      assert j < |init| && init[j] == ps[j];
      ItemsWithSome(init, k);
    }
  }

  /** The key of every pair names one of the groups. */
  lemma PairHasGroup<K, V>(ps: seq<(K, V)>, n: nat)
    requires n < |ps|
    ensures exists i :: 0 <= i < |GroupBy(ps)| && GroupBy(ps)[i].key == ps[n].0
  {
    var gs := GroupBy(ps);
    GroupByGroupsOf(ps);
    assert ps[n].0 in Keys(gs);
    var i :| 0 <= i < |gs| && Keys(gs)[i] == ps[n].0;
  }
}
