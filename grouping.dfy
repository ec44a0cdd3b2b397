/** `groupby`: rows with a missing key are dropped, every other row joins
    the group of its key. */
module Grouping {
  import opened Wrappers
  import opened Seqs

  datatype Group<K, T> = Group(key: K, members: seq<T>)

  /** The rows whose key is `k`, in table order. */
  function Members<T, K(==)>(xs: seq<T>, key: T -> Option<K>, k: K): (ms: seq<T>)
    ensures forall i :: 0 <= i < |ms| ==> key(ms[i]) == Some(k)
    ensures forall i :: 0 <= i < |xs| && key(xs[i]) == Some(k) ==> xs[i] in ms
  {
    Filter(xs, x => key(x) == Some(k))
  }

  /** A key has rows exactly when some row carries it. */
  lemma MembersNonEmpty<T, K>(xs: seq<T>, key: T -> Option<K>, k: K)
    ensures |Members(xs, key, k)| > 0 <==> exists i :: 0 <= i < |xs| && key(xs[i]) == Some(k)
  {
    var ms := Members(xs, key, k);
    if |ms| > 0 {
      SubMember(ms, xs, 0);
    }
  }

  /** The distinct keys present, in order of first appearance. */
  function Keys<T, K(==)>(xs: seq<T>, key: T -> Option<K>): (ks: seq<K>)
    ensures forall a, b :: 0 <= a < b < |ks| ==> ks[a] != ks[b]
    ensures forall j :: 0 <= j < |ks| ==> exists i :: 0 <= i < |xs| && key(xs[i]) == Some(ks[j])
    ensures forall i :: 0 <= i < |xs| && key(xs[i]).Some? ==> key(xs[i]).value in ks
    decreases |xs|
  {
    if xs == [] then []
    else
      var init := xs[..|xs| - 1];
      var ks := Keys(init, key);
      var last := key(xs[|xs| - 1]);
      assert forall i :: 0 <= i < |init| ==> init[i] == xs[i];
      if last.Some? && last.value !in ks then ks + [last.value] else ks
  }

  /** One group per present key, in order of first appearance. */
  function GroupBy<T, K(==)>(xs: seq<T>, key: T -> Option<K>): (gs: seq<Group<K, T>>)
    ensures |gs| == |Keys(xs, key)|
    ensures forall j :: 0 <= j < |gs| ==>
              gs[j].key == Keys(xs, key)[j] && gs[j].members == Members(xs, key, gs[j].key)
  {
    MapSeq(Keys(xs, key), k => Group(k, Members(xs, key, k)))
  }

  /** Every group is non-empty; a row belongs to a group exactly when its key
      is that group's key; a row with a key is in exactly one group; a row
      without one is in none. */
  lemma GroupByPartitions<T, K>(xs: seq<T>, key: T -> Option<K>)
    ensures forall j :: 0 <= j < |GroupBy(xs, key)| ==> |GroupBy(xs, key)[j].members| > 0
    ensures forall j, i :: 0 <= j < |GroupBy(xs, key)| && 0 <= i < |xs| ==>
              (xs[i] in GroupBy(xs, key)[j].members <==> key(xs[i]) == Some(GroupBy(xs, key)[j].key))
    ensures forall i :: 0 <= i < |xs| && key(xs[i]).Some? ==>
              exists j :: 0 <= j < |GroupBy(xs, key)| && GroupBy(xs, key)[j].key == key(xs[i]).value
    ensures forall a, b :: 0 <= a < b < |GroupBy(xs, key)| ==> GroupBy(xs, key)[a].key != GroupBy(xs, key)[b].key
  {
    var gs := GroupBy(xs, key);
    var ks := Keys(xs, key);
    forall j | 0 <= j < |gs| ensures |gs[j].members| > 0 {
      var i :| 0 <= i < |xs| && key(xs[i]) == Some(ks[j]);
      assert xs[i] in gs[j].members;
    }
    forall j, i | 0 <= j < |gs| && 0 <= i < |xs|
      ensures xs[i] in gs[j].members <==> key(xs[i]) == Some(gs[j].key)
    {
      if xs[i] in gs[j].members {
        var p :| 0 <= p < |gs[j].members| && gs[j].members[p] == xs[i];
      }
    }
    forall i | 0 <= i < |xs| && key(xs[i]).Some?
      ensures exists j :: 0 <= j < |gs| && gs[j].key == key(xs[i]).value
    {
      var j :| 0 <= j < |ks| && ks[j] == key(xs[i]).value;
      assert gs[j].key == ks[j];
    }
  }

  /** A grouping on a fixed list of keys (a categorical column with
      `observed=True`, or a `reindex` followed by `dropna`): one group for each
      key of `order` that has rows, in the order of `order`. */
  function OrderedGroups<T, K(==)>(order: seq<K>, xs: seq<T>, key: T -> Option<K>): (gs: seq<Group<K, T>>)
    ensures forall j :: 0 <= j < |gs| ==>
              |gs[j].members| > 0 && gs[j].members == Members(xs, key, gs[j].key)
  {
    if order == [] then []
    else
      var k := order[0];
      var rest := OrderedGroups(order[1..], xs, key);
      if |Members(xs, key, k)| > 0 then [Group(k, Members(xs, key, k))] + rest else rest
  }

  /** Whether a key has at least one row: the keys `observed=True` keeps. */
  function HasRows<T, K(==)>(xs: seq<T>, key: T -> Option<K>): K -> bool {
    k => |Members(xs, key, k)| > 0
  }

  function GroupKeys<K, T>(gs: seq<Group<K, T>>): (ks: seq<K>)
    ensures |ks| == |gs| && forall i :: 0 <= i < |gs| ==> ks[i] == gs[i].key
  {
    if gs == [] then [] else [gs[0].key] + GroupKeys(gs[1..])
  }

  /** The keys of the ordered grouping are exactly the keys of `order` that
      have at least one row, kept in the order of `order`; keys without rows
      are left out. */
  lemma {:induction false} OrderedGroupsKeys<T, K>(order: seq<K>, xs: seq<T>, key: T -> Option<K>)
    ensures GroupKeys(OrderedGroups(order, xs, key)) == Filter(order, HasRows(xs, key))
  {
    if order != [] {
      var k := order[0];
      var has := HasRows(xs, key);
      var rest := OrderedGroups(order[1..], xs, key);
      OrderedGroupsKeys(order[1..], xs, key);
      OrderedGroupsHead(order, xs, key);
      FilterHead(order, has);
      if has(k) {
        GroupKeysCons(Group(k, Members(xs, key, k)), rest);
      } else {
        assert [] + Filter(order[1..], has) == Filter(order[1..], has);
      }
    }
  }

  /** The first key of the order opens a group when it has rows. */
  lemma OrderedGroupsHead<T, K>(order: seq<K>, xs: seq<T>, key: T -> Option<K>)
    requires order != []
    ensures OrderedGroups(order, xs, key) ==
              if HasRows(xs, key)(order[0]) then [Group(order[0], Members(xs, key, order[0]))] + OrderedGroups(order[1..], xs, key)
              else OrderedGroups(order[1..], xs, key)
  {
  }

  /** Grouping on a fixed key order gives at most one group per key. */
  lemma {:induction false} OrderedGroupsLength<T, K>(order: seq<K>, xs: seq<T>, key: T -> Option<K>)
    ensures |OrderedGroups(order, xs, key)| <= |order|
  {
    if order != [] {
      OrderedGroupsLength(order[1..], xs, key);
    }
  }

  lemma GroupKeysCons<K, T>(g: Group<K, T>, rest: seq<Group<K, T>>)
    ensures GroupKeys([g] + rest) == [g.key] + GroupKeys(rest)
  {
    assert ([g] + rest)[1..] == rest;
  }

  /** Every row whose key is in the order sits in the group of its key. */
  lemma OrderedGroupsCover<T, K>(order: seq<K>, xs: seq<T>, key: T -> Option<K>, i: nat)
    requires i < |xs| && key(xs[i]).Some? && key(xs[i]).value in order
    ensures exists j :: 0 <= j < |OrderedGroups(order, xs, key)| &&
              OrderedGroups(order, xs, key)[j].key == key(xs[i]).value && xs[i] in OrderedGroups(order, xs, key)[j].members
  {
    var gs := OrderedGroups(order, xs, key);
    var k := key(xs[i]).value;
    assert xs[i] in Members(xs, key, k);
    var l :| 0 <= l < |order| && order[l] == k;
    assert HasRows(xs, key)(order[l]);
    OrderedGroupsKeys(order, xs, key);
    var j := IndexOf(GroupKeys(gs), k);
    assert gs[j].key == k;
  }
}
