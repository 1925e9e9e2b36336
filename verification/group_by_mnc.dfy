/** `group_by_mnc`: raw records partitioned into lists keyed by the text of
    their `mnc` metric, filled in one pass in input order. */
module GroupByMnc {
  import opened Wrappers
  import opened Text

  /** The metric values the key depends on: Python's `None`, booleans, integers
      and strings. */
  datatype MetricValue = NoneValue | Bool(b: bool) | Int(i: int) | Str(s: string)

  /** A raw record as read from a source file. */
  datatype RawData = RawData(timestamp: string, cell: string, metrics: map<string, MetricValue>)

  const UNKNOWN_KEY: string := "unknown"

  /** Python truthiness: `None`, `False`, `0` and `""` are falsy. */
  predicate Falsy(v: MetricValue)
  {
    v == NoneValue || v == Bool(false) || v == Int(0) || v == Str("")
  }

  /** Python's `str` on a truthy value. */
  function StrOf(v: MetricValue): (t: string)
    requires !Falsy(v)
    ensures t != ""
  {
    match v
    case Bool(_) => "True"
    case Int(i) => IntToString(i)
    case Str(s) => s
  }

  /** `str(r.metrics.get('mnc') or 'unknown')`: "unknown" for a missing or
      falsy mnc, the text itself for a non-empty string, "True" for `True`, and
      the decimal text of a non-zero integer. */
  function MncKey(r: RawData): (k: string)
    ensures k != ""
    ensures "mnc" !in r.metrics || Falsy(r.metrics["mnc"]) ==> k == UNKNOWN_KEY
    ensures "mnc" in r.metrics && r.metrics["mnc"].Int? && r.metrics["mnc"].i != 0 ==> ParseInt(k) == Some(r.metrics["mnc"].i)
    ensures "mnc" in r.metrics && r.metrics["mnc"].Str? && r.metrics["mnc"].s != "" ==> k == r.metrics["mnc"].s
    ensures "mnc" in r.metrics && r.metrics["mnc"] == Bool(true) ==> k == "True"
  {
    if "mnc" in r.metrics && !Falsy(r.metrics["mnc"]) then
      var v := r.metrics["mnc"];
      if v.Int? then ParseIntOfIntToString(v.i); StrOf(v) else StrOf(v)
    else UNKNOWN_KEY
  }

  /** The records with key `k`, in input order. */
  function Filter(records: seq<RawData>, k: string): (group: seq<RawData>)
    ensures |group| <= |records|
    ensures forall j | 0 <= j < |group| :: MncKey(group[j]) == k
  {
    if records == [] then []
    else
      var last := records[|records| - 1];
      Filter(records[..|records| - 1], k) + (if MncKey(last) == k then [last] else [])
  }

  /** The distinct keys in order of first appearance. */
  function FirstAppearance(records: seq<RawData>): seq<string>
  {
    if records == [] then []
    else
      var before := FirstAppearance(records[..|records| - 1]);
      var k := MncKey(records[|records| - 1]);
      before + (if k in before then [] else [k])
  }

  /** What one more record does to the groups and to the key order. */
  lemma Snoc(records: seq<RawData>, x: RawData, k: string)
    ensures Filter(records + [x], k) == Filter(records, k) + if MncKey(x) == k then [x] else []
    ensures FirstAppearance(records + [x]) == FirstAppearance(records) + if MncKey(x) in FirstAppearance(records) then [] else [MncKey(x)]
  {
    assert (records + [x])[..|records|] == records;
  }

  /** The keys listed are exactly the keys of the records. */
  lemma {:induction false} FirstAppearanceKeys(records: seq<RawData>, k: string)
    ensures k in FirstAppearance(records) <==> exists i | 0 <= i < |records| :: MncKey(records[i]) == k
  {
    if records != [] {
      var init := records[..|records| - 1];
      FirstAppearanceKeys(init, k);
      assert forall i | 0 <= i < |init| :: init[i] == records[i];
    }
  }

  predicate Distinct(keys: seq<string>)
  {
    forall i, j | 0 <= i < j < |keys| :: keys[i] != keys[j]
  }

  lemma {:induction false} FirstAppearanceIsDistinct(records: seq<RawData>)
    ensures Distinct(FirstAppearance(records))
  {
    if records != [] {
      FirstAppearanceIsDistinct(records[..|records| - 1]);
    }
  }

  /** A key that occurs has a non-empty group. */
  lemma {:induction false} GroupOfPresentKey(records: seq<RawData>, k: string)
    requires k in FirstAppearance(records)
    ensures Filter(records, k) != []
  {
    var init := records[..|records| - 1];
    var last := records[|records| - 1];
    if MncKey(last) != k {
      assert k in FirstAppearance(init);
      GroupOfPresentKey(init, k);
    }
  }

  /** The sizes of the groups of `keys`, added up. */
  function SizeSum(records: seq<RawData>, keys: seq<string>): nat
  {
    if keys == [] then 0 else SizeSum(records, keys[..|keys| - 1]) + |Filter(records, keys[|keys| - 1])|
  }

  lemma {:induction false} SizeSumSnoc(records: seq<RawData>, x: RawData, keys: seq<string>)
    requires Distinct(keys)
    ensures SizeSum(records + [x], keys) == SizeSum(records, keys) + if MncKey(x) in keys then 1 else 0
  {
    assert (records + [x])[..|records|] == records;
    if keys != [] {
      var init := keys[..|keys| - 1];
      assert MncKey(x) in keys <==> MncKey(x) in init || MncKey(x) == keys[|keys| - 1];
      SizeSumSnoc(records, x, init);
    }
  }

  lemma {:induction false} AbsentKeyHasNoGroup(records: seq<RawData>, k: string)
    requires k !in FirstAppearance(records)
    ensures Filter(records, k) == []
  {
    if records != [] {
      var init := records[..|records| - 1];
      assert k !in FirstAppearance(init);
      AbsentKeyHasNoGroup(init, k);
    }
  }

  lemma {:induction false} SizeSumExtend(records: seq<RawData>, keys: seq<string>, k: string)
    requires Filter(records, k) == []
    ensures SizeSum(records, keys + [k]) == SizeSum(records, keys)
  {
    assert (keys + [k])[..|keys|] == keys;
  }

  /** Every record lands in exactly one group: the group sizes add up to the input length. */
  lemma {:induction false} GroupSizesAddUp(records: seq<RawData>)
    ensures SizeSum(records, FirstAppearance(records)) == |records|
  {
    if records != [] {
      var init := records[..|records| - 1];
      var x := records[|records| - 1];
      var before := FirstAppearance(init);
      var k := MncKey(x);
      assert records == init + [x];
      GroupSizesAddUp(init);
      FirstAppearanceIsDistinct(init);
      SizeSumSnoc(init, x, before);
      Snoc(init, x, k);
      if k !in before {
        AbsentKeyHasNoGroup(init, k);
        var after := before + [k];
        assert after[..|after| - 1] == before;
        assert SizeSum(records, after) == SizeSum(records, before) + |Filter(records, k)|;
        assert Filter(records, k) == [x];
        assert FirstAppearance(records) == after;
      } else {
        assert FirstAppearance(records) == before;
      }
    }
  }

  /** `group_by_mnc`: the dictionary of groups together with its key order (a
      Python dictionary keeps insertion order). */
  method GroupBy(records: seq<RawData>) returns (groups: map<string, seq<RawData>>, order: seq<string>)
    ensures order == FirstAppearance(records)
    ensures forall k :: k in groups <==> k in order
    ensures forall k | k in groups :: groups[k] == Filter(records, k) && groups[k] != []
    ensures Distinct(order) && SizeSum(records, order) == |records|
    ensures records == [] ==> groups == map[]
  {
    groups := map[];
    order := [];
    for i := 0 to |records|
      invariant order == FirstAppearance(records[..i])
      invariant forall k :: k in groups <==> k in order
      invariant forall k | k in groups :: groups[k] == Filter(records[..i], k)
    {
      var r := records[i];
      var k := MncKey(r);
      assert records[..i + 1] == records[..i] + [r];
      forall key {
        Snoc(records[..i], r, key);
      }
      if k in groups {
        groups := groups[k := groups[k] + [r]];
      } else {
        AbsentKeyHasNoGroup(records[..i], k);
        groups := groups[k := [r]];
        order := order + [k];
      }
    }
    assert records[..|records|] == records;
    forall k | k in groups ensures groups[k] != [] {
      GroupOfPresentKey(records, k);
    }
    FirstAppearanceIsDistinct(records);
    GroupSizesAddUp(records);
  }
}
