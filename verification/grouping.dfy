/** `DataFrame.groupby(keys).agg(...)` over entries that carry a group key, a
    label aggregated with `first` and the ten counters aggregated with `sum`.
    The regrouping lemmas relate a grouping of grouped rows to a grouping of the
    original rows. */
module Grouping {
  import opened Wrappers
  import opened Counters

  /** One row as the grouping sees it. A grouping without a `first` column uses
      the label type `()`. */
  datatype Entry<K, L> = Entry(key: K, tag: L, counters: Counters)

  /** The counters of the entries filed under `k`, summed. */
  function Total<K(==), L>(entries: seq<Entry<K, L>>, k: K): Counters
  {
    if entries == [] then ZERO
    else
      var last := entries[|entries| - 1];
      var before := Total(entries[..|entries| - 1], k);
      if last.key == k then Add(before, last.counters) else before
  }

  /** The counters of all entries, summed. */
  function GrandTotal<K, L>(entries: seq<Entry<K, L>>): Counters
  {
    if entries == [] then ZERO else Add(GrandTotal(entries[..|entries| - 1]), entries[|entries| - 1].counters)
  }

  function KeySet<K, L>(entries: seq<Entry<K, L>>): set<K>
  {
    set i | 0 <= i < |entries| :: entries[i].key
  }

  function KeysOf<K, L>(entries: seq<Entry<K, L>>): (keys: seq<K>)
    ensures |keys| == |entries| && forall i | 0 <= i < |entries| :: keys[i] == entries[i].key
  {
    seq(|entries|, i requires 0 <= i < |entries| => entries[i].key)
  }

  predicate Distinct<K(==)>(keys: seq<K>)
  {
    forall i, j | 0 <= i < j < |keys| :: keys[i] != keys[j]
  }

  /** `first`: the label of the earliest entry filed under `k`. */
  function FirstLabel<K(==), L>(entries: seq<Entry<K, L>>, k: K): Option<L>
  {
    if entries == [] then None
    else
      var before := FirstLabel(entries[..|entries| - 1], k);
      if before.Some? then before
      else if entries[|entries| - 1].key == k then Some(entries[|entries| - 1].tag)
      else None
  }

  /** What appending one entry does to the totals, the labels and the keys. */
  lemma Snoc<K, L>(entries: seq<Entry<K, L>>, e: Entry<K, L>, k: K)
    ensures Total(entries + [e], k) == if e.key == k then Add(Total(entries, k), e.counters) else Total(entries, k)
    ensures FirstLabel(entries + [e], k)
         == if FirstLabel(entries, k).Some? then FirstLabel(entries, k)
            else if e.key == k then Some(e.tag) else None
    ensures KeySet(entries + [e]) == KeySet(entries) + {e.key}
    ensures GrandTotal(entries + [e]) == Add(GrandTotal(entries), e.counters)
  {
    assert (entries + [e])[..|entries|] == entries;
    var s := entries + [e];
    assert forall i | 0 <= i < |entries| :: s[i] == entries[i];
    assert s[|entries|] == e;
  }

  /** A key that no entry carries has the zero total and no label. */
  lemma {:induction false} AbsentKey<K, L>(entries: seq<Entry<K, L>>, k: K)
    requires k !in KeySet(entries)
    ensures Total(entries, k) == ZERO && FirstLabel(entries, k) == None
  {
    if entries != [] {
      var init := entries[..|entries| - 1];
      assert entries == init + [entries[|entries| - 1]];
      Snoc(init, entries[|entries| - 1], k);
      AbsentKey(init, k);
    }
  }

  /** The label `first` picks is the label of the earliest entry with the key. */
  lemma {:induction false} FirstLabelIsEarliest<K, L>(entries: seq<Entry<K, L>>, k: K, i: nat)
    requires i < |entries| && entries[i].key == k
    requires forall j | 0 <= j < i :: entries[j].key != k
    ensures FirstLabel(entries, k) == Some(entries[i].tag)
  {
    var init := entries[..|entries| - 1];
    assert entries == init + [entries[|entries| - 1]];
    Snoc(init, entries[|entries| - 1], k);
    if i < |init| {
      FirstLabelIsEarliest(init, k, i);
    } else {
      assert k !in KeySet(init);
      AbsentKey(init, k);
    }
  }

  /** Entries that all carry the same key and counters total `Scale` of their count. */
  lemma {:induction false} TotalOfCopies<K, L>(entries: seq<Entry<K, L>>, k: K, c: Counters)
    requires forall i | 0 <= i < |entries| :: entries[i].key == k && entries[i].counters == c
    ensures Total(entries, k) == Scale(c, |entries|)
    ensures |entries| > 0 ==> KeySet(entries) == {k}
  {
    if entries != [] {
      var init := entries[..|entries| - 1];
      TotalOfCopies(init, k, c);
      assert entries == init + [entries[|entries| - 1]];
      Snoc(init, entries[|entries| - 1], k);
    }
  }

  /** `groups` is the grouping of `entries`: one group per distinct key, holding
      the first label and the summed counters of the entries with that key. */
  ghost predicate IsGrouping<K, L>(entries: seq<Entry<K, L>>, groups: seq<Entry<K, L>>)
  {
    && Distinct(KeysOf(groups))
    && KeySet(groups) == KeySet(entries)
    && forall j | 0 <= j < |groups| ::
      FirstLabel(entries, groups[j].key) == Some(groups[j].tag) && groups[j].counters == Total(entries, groups[j].key)
  }

  /** An entry whose key has a group is added to that group. */
  lemma JoinGroup<K, L>(entries: seq<Entry<K, L>>, groups: seq<Entry<K, L>>, e: Entry<K, L>, j: nat)
    requires IsGrouping(entries, groups) && j < |groups| && groups[j].key == e.key
    ensures IsGrouping(entries + [e], groups[j := Entry(e.key, groups[j].tag, Add(groups[j].counters, e.counters))])
  {
    var updated := groups[j := Entry(e.key, groups[j].tag, Add(groups[j].counters, e.counters))];
    assert KeysOf(updated) == KeysOf(groups);
    assert KeySet(updated) == KeySet(groups) by {
      assert forall x | 0 <= x < |groups| :: updated[x].key == groups[x].key;
    }
    forall x | 0 <= x < |updated|
      ensures FirstLabel(entries + [e], updated[x].key) == Some(updated[x].tag)
      ensures updated[x].counters == Total(entries + [e], updated[x].key)
    {
      Snoc(entries, e, updated[x].key);
    }
    Snoc(entries, e, e.key);
  }

  /** An entry with a new key opens a group of its own at the end. */
  lemma OpenGroup<K, L>(entries: seq<Entry<K, L>>, groups: seq<Entry<K, L>>, e: Entry<K, L>)
    requires IsGrouping(entries, groups) && e.key !in KeySet(entries)
    ensures IsGrouping(entries + [e], groups + [e])
  {
    AbsentKey(entries, e.key);
    assert KeysOf(groups + [e]) == KeysOf(groups) + [e.key];
    Snoc(groups, e, e.key);
    forall x | 0 <= x < |groups + [e]|
      ensures FirstLabel(entries + [e], (groups + [e])[x].key) == Some((groups + [e])[x].tag)
      ensures (groups + [e])[x].counters == Total(entries + [e], (groups + [e])[x].key)
    {
      Snoc(entries, e, (groups + [e])[x].key);
    }
    Snoc(entries, e, e.key);
  }

  /** `groupby(...).agg(...)`: one group per distinct key, in order of first
      appearance, holding the first label and the summed counters of its entries. */
  method GroupBy<K(==), L>(entries: seq<Entry<K, L>>) returns (groups: seq<Entry<K, L>>)
    ensures Distinct(KeysOf(groups))
    ensures KeySet(groups) == KeySet(entries)
    ensures forall j | 0 <= j < |groups| ::
      FirstLabel(entries, groups[j].key) == Some(groups[j].tag) && groups[j].counters == Total(entries, groups[j].key)
  {
    groups := [];
    var slot: map<K, nat> := map[];
    for i := 0 to |entries|
      invariant IsGrouping(entries[..i], groups)
      invariant slot.Keys == KeySet(groups)
      invariant forall k | k in slot :: slot[k] < |groups| && groups[slot[k]].key == k
    {
      var e := entries[i];
      assert entries[..i + 1] == entries[..i] + [e];
      if e.key in slot {
        var j := slot[e.key];
        JoinGroup(entries[..i], groups, e, j);
        groups := groups[j := Entry(e.key, groups[j].tag, Add(groups[j].counters, e.counters))];
      } else {
        OpenGroup(entries[..i], groups, e);
        slot := slot[e.key := |groups|];
        groups := groups + [e];
      }
    }
    assert entries[..|entries|] == entries;
  }

  // ---------------------------------------------------------------------------
  // Regrouping

  /** Each entry filed under a new key computed from its old key; labels are dropped. */
  function Relabel<K, L, K2>(entries: seq<Entry<K, L>>, f: K -> K2): (r: seq<Entry<K2, ()>>)
    ensures |r| == |entries|
    ensures forall i | 0 <= i < |entries| :: r[i] == Entry(f(entries[i].key), (), entries[i].counters)
  {
    seq(|entries|, i requires 0 <= i < |entries| => Entry(f(entries[i].key), (), entries[i].counters))
  }

  /** One entry per key of `order`, holding that key's total in `entries`, filed
      under its new key. */
  function Collapse<K(==), L, K2>(order: seq<K>, entries: seq<Entry<K, L>>, f: K -> K2): (r: seq<Entry<K2, ()>>)
    ensures |r| == |order|
  {
    if order == [] then []
    else
      var o := order[|order| - 1];
      Collapse(order[..|order| - 1], entries, f) + [Entry(f(o), (), Total(entries, o))]
  }

  lemma {:induction false} CollapseOfNothing<K, L, K2>(order: seq<K>, nothing: seq<Entry<K, L>>, f: K -> K2, k2: K2)
    requires nothing == []
    ensures Total(Collapse(order, nothing, f), k2) == ZERO
  {
    if order != [] {
      var init := order[..|order| - 1];
      var o := order[|order| - 1];
      CollapseOfNothing(init, nothing, f, k2);
      Snoc(Collapse(init, nothing, f), Entry(f(o), (), ZERO), k2);
    }
  }

  /** Appending an entry whose key occurs once in `order` adds its counters to
      the one collapsed total it belongs to. */
  lemma {:induction false} CollapseSnoc<K, L, K2>(order: seq<K>, entries: seq<Entry<K, L>>, e: Entry<K, L>, f: K -> K2, k2: K2)
    requires Distinct(order)
    ensures var before := Total(Collapse(order, entries, f), k2);
      Total(Collapse(order, entries + [e], f), k2)
      == if e.key in order && f(e.key) == k2 then Add(before, e.counters) else before
  {
    if order != [] {
      var init := order[..|order| - 1];
      var o := order[|order| - 1];
      assert Distinct(init);
      assert e.key in order <==> e.key in init || e.key == o;
      assert o == e.key ==> e.key !in init;
      CollapseSnoc(init, entries, e, f, k2);
      Snoc(entries, e, o);
      Snoc(Collapse(init, entries, f), Entry(f(o), (), Total(entries, o)), k2);
      Snoc(Collapse(init, entries + [e], f), Entry(f(o), (), Total(entries + [e], o)), k2);
    }
  }

  /** Collapsing by a distinct key list and then grouping under the new keys gives
      the same totals as filing every original entry under its new key. */
  lemma {:induction false} Regroup<K, L, K2>(order: seq<K>, entries: seq<Entry<K, L>>, f: K -> K2, k2: K2)
    requires Distinct(order)
    requires forall k | k in KeySet(entries) :: k in order
    ensures Total(Collapse(order, entries, f), k2) == Total(Relabel(entries, f), k2)
  {
    if entries == [] {
      CollapseOfNothing(order, entries, f, k2);
    } else {
      var init := entries[..|entries| - 1];
      var e := entries[|entries| - 1];
      assert entries == init + [e];
      forall k | k in KeySet(init) ensures k in order {
        Snoc(init, e, k);
      }
      Snoc(init, e, e.key);
      Regroup(order, init, f, k2);
      CollapseSnoc(order, init, e, f, k2);
      assert Relabel(entries, f) == Relabel(init, f) + [Entry(f(e.key), (), e.counters)];
      Snoc(Relabel(init, f), Entry(f(e.key), (), e.counters), k2);
    }
  }

  /** Grouped rows relabelled are the collapse of the original entries by the group keys. */
  lemma {:induction false} GroupsAreCollapse<K, L, K2>(groups: seq<Entry<K, L>>, entries: seq<Entry<K, L>>, f: K -> K2)
    requires forall j | 0 <= j < |groups| :: groups[j].counters == Total(entries, groups[j].key)
    ensures Relabel(groups, f) == Collapse(KeysOf(groups), entries, f)
  {
    if groups != [] {
      var init := groups[..|groups| - 1];
      GroupsAreCollapse(init, entries, f);
      assert KeysOf(groups)[..|groups| - 1] == KeysOf(init);
      assert Relabel(groups, f) == Relabel(init, f) + [Relabel(groups, f)[|groups| - 1]];
    }
  }

  /** Grouping the result of `GroupBy` again under new keys computed from the old
      ones gives, for every new key, the total of the original entries filed
      under it, and the same set of new keys. */
  lemma TwoStageGrouping<K, L, K2>(groups: seq<Entry<K, L>>, entries: seq<Entry<K, L>>, f: K -> K2, k2: K2)
    requires Distinct(KeysOf(groups)) && KeySet(groups) == KeySet(entries)
    requires forall j | 0 <= j < |groups| :: groups[j].counters == Total(entries, groups[j].key)
    ensures Total(Relabel(groups, f), k2) == Total(Relabel(entries, f), k2)
    ensures KeySet(Relabel(groups, f)) == KeySet(Relabel(entries, f))
  {
    GroupsAreCollapse(groups, entries, f);
    forall k | k in KeySet(entries) ensures k in KeysOf(groups) {
      var j :| 0 <= j < |groups| && groups[j].key == k;
      assert KeysOf(groups)[j] == k;
    }
    Regroup(KeysOf(groups), entries, f, k2);
    forall x | x in KeySet(Relabel(entries, f)) ensures x in KeySet(Relabel(groups, f)) {
      var i :| 0 <= i < |entries| && Relabel(entries, f)[i].key == x;
      assert entries[i].key in KeySet(groups);
      var j :| 0 <= j < |groups| && groups[j].key == entries[i].key;
      assert Relabel(groups, f)[j].key == x;
    }
    forall x | x in KeySet(Relabel(groups, f)) ensures x in KeySet(Relabel(entries, f)) {
      var j :| 0 <= j < |groups| && Relabel(groups, f)[j].key == x;
      assert groups[j].key in KeySet(entries);
      var i :| 0 <= i < |entries| && entries[i].key == groups[j].key;
      assert Relabel(entries, f)[i].key == x;
    }
  }

  /** Grouping neither creates nor loses counts: the groups add up to the whole input. */
  lemma GroupingConservesTotals<K, L>(groups: seq<Entry<K, L>>, entries: seq<Entry<K, L>>)
    requires Distinct(KeysOf(groups)) && KeySet(groups) == KeySet(entries)
    requires forall j | 0 <= j < |groups| :: groups[j].counters == Total(entries, groups[j].key)
    ensures GrandTotal(groups) == GrandTotal(entries)
  {
    var f := (k: K) => ();
    TwoStageGrouping(groups, entries, f, ());
    GrandTotalIsOneGroup(groups, f);
    GrandTotalIsOneGroup(entries, f);
  }

  lemma {:induction false} GrandTotalIsOneGroup<K, L>(entries: seq<Entry<K, L>>, f: K -> ())
    ensures GrandTotal(entries) == Total(Relabel(entries, f), ())
  {
    if entries == [] {
      var none := Relabel(entries, f);
      assert none == [];
      assert Total(none, ()) == ZERO;
      assert GrandTotal(entries) == ZERO;
    } else {
      var init := entries[..|entries| - 1];
      var e := entries[|entries| - 1];
      GrandTotalIsOneGroup(init, f);
      var before := Relabel(init, f);
      var x := Entry(f(e.key), (), e.counters);
      assert x.key == ();
      assert Relabel(entries, f) == before + [x] by {
        assert forall i | 0 <= i < |init| :: init[i] == entries[i];
      }
      Snoc(before, x, ());
      assert GrandTotal(entries) == Add(GrandTotal(init), e.counters);
    }
  }
}
