/** `KQIProcessor._map_tower_data`, the mapped/unmapped split of `process`,
    `_aggregate_daily` and `_aggregate_unmapped`: a left join of the decoded
    measurement rows with the tower mapping on the eNodeB id, then grouped sums
    per tower (in two stages) and per unmapped cell, each turned into report rows. */
module Aggregation {
  import opened Wrappers
  import opened Counters
  import opened Entities
  import opened TimeColumn
  import opened Grouping
  import opened Report

  /** A measurement row after the cell identifier and the time column have been converted. */
  datatype Record = Record(id: NetworkIdentifier, stamp: Stamp, counters: Counters)

  /** The tower columns the join attaches. */
  datatype Tower = Tower(towerId: string, sweL5: string)

  /** A row of the joined frame; `tower` is `None` where the join found no match (NaN). */
  datatype Joined = Joined(rec: Record, tower: Option<Tower>)

  /** A joined row that has tower data. */
  datatype Placed = Placed(rec: Record, tower: Tower)

  datatype EnodebKey = EnodebKey(operator: string, date: string, enodebId: nat)
  datatype TowerKey = TowerKey(operator: string, date: string, towerId: string, sweL5: string)
  datatype CellKey = CellKey(operator: string, date: string, enodebId: nat, plmn: string)

  // ---------------------------------------------------------------------------
  // Join and split

  /** The towers of every mapping row with the record's eNodeB id, in table order. */
  function Matches(rec: Record, table: seq<TowerMapping>): (towers: seq<Tower>)
    ensures |towers| <= |table|
  {
    if table == [] then []
    else
      var last := table[|table| - 1];
      Matches(rec, table[..|table| - 1])
      + (if last.enodebId == rec.id.enodebId then [Tower(last.towerId, last.sweL5)] else [])
  }

  /** The mapping row at `j` has the record's eNodeB id. */
  predicate MatchesAt(rec: Record, table: seq<TowerMapping>, j: nat)
    requires j < |table|
  {
    table[j].enodebId == rec.id.enodebId
  }

  /** `Matches` holds the tower of every mapping row with the record's eNodeB id
      and nothing else; it is empty exactly when no row has that id, and
      otherwise starts with the tower of the earliest such row. */
  lemma {:induction false} MatchesAreTheMatchingRows(rec: Record, table: seq<TowerMapping>)
    ensures forall t :: t in Matches(rec, table) <==>
      exists j | 0 <= j < |table| && MatchesAt(rec, table, j) :: t == Tower(table[j].towerId, table[j].sweL5)
    ensures Matches(rec, table) == [] <==> forall j | 0 <= j < |table| :: !MatchesAt(rec, table, j)
    ensures forall first | 0 <= first < |table| && MatchesAt(rec, table, first)
      && (forall j | 0 <= j < first :: !MatchesAt(rec, table, j)) ::
      Matches(rec, table)[0] == Tower(table[first].towerId, table[first].sweL5)
  {
    if table != [] {
      var init := table[..|table| - 1];
      MatchesAreTheMatchingRows(rec, init);
      assert forall j | 0 <= j < |init| :: MatchesAt(rec, init, j) == MatchesAt(rec, table, j);
      if MatchesAt(rec, table, |init|) {
        assert Matches(rec, table)[|Matches(rec, init)|] == Tower(table[|init|].towerId, table[|init|].sweL5);
      }
      forall first | 0 <= first < |table| && MatchesAt(rec, table, first)
        && (forall j | 0 <= j < first :: !MatchesAt(rec, table, j))
        ensures Matches(rec, table)[0] == Tower(table[first].towerId, table[first].sweL5)
      {
        if first < |init| {
          assert MatchesAt(rec, init, first);
        } else {
          assert Matches(rec, init) == [];
        }
      }
    }
  }

  /** The joined rows of one record: one per matching mapping row, or a single
      row without tower data when nothing matches. */
  function JoinOne(rec: Record, table: seq<TowerMapping>): (rows: seq<Joined>)
    ensures Matches(rec, table) == [] ==> rows == [Joined(rec, None)]
    ensures Matches(rec, table) != [] ==>
      |rows| == |Matches(rec, table)| && forall j | 0 <= j < |rows| :: rows[j] == Joined(rec, Some(Matches(rec, table)[j]))
  {
    var m := Matches(rec, table);
    if m == [] then [Joined(rec, None)]
    else seq(|m|, j requires 0 <= j < |m| => Joined(rec, Some(m[j])))
  }

  /** `df.merge(sourceraw, on='enodeb_id', how='left')`. */
  function LeftJoin(recs: seq<Record>, table: seq<TowerMapping>): seq<Joined>
  {
    if recs == [] then [] else LeftJoin(recs[..|recs| - 1], table) + JoinOne(recs[|recs| - 1], table)
  }

  /** `kqiraw[kqiraw['tower_id'].notna()]`. */
  function MappedPart(joined: seq<Joined>): seq<Placed>
  {
    if joined == [] then []
    else
      var last := joined[|joined| - 1];
      MappedPart(joined[..|joined| - 1]) + (if last.tower.Some? then [Placed(last.rec, last.tower.value)] else [])
  }

  /** `kqiraw[kqiraw['tower_id'].isna()]`. */
  function UnmappedPart(joined: seq<Joined>): seq<Record>
  {
    if joined == [] then []
    else
      var last := joined[|joined| - 1];
      UnmappedPart(joined[..|joined| - 1]) + (if last.tower.None? then [last.rec] else [])
  }

  /** The records nothing in the table matches, in input order. */
  function Unmatched(recs: seq<Record>, table: seq<TowerMapping>): seq<Record>
  {
    if recs == [] then []
    else
      var last := recs[|recs| - 1];
      Unmatched(recs[..|recs| - 1], table) + (if Matches(last, table) == [] then [last] else [])
  }

  /** Every joined row lands in exactly one of the two parts. */
  lemma {:induction false} SplitIsPartition(joined: seq<Joined>)
    ensures |MappedPart(joined)| + |UnmappedPart(joined)| == |joined|
  {
    if joined != [] {
      SplitIsPartition(joined[..|joined| - 1]);
    }
  }

  lemma {:induction false} SplitDistributes(a: seq<Joined>, b: seq<Joined>)
    ensures MappedPart(a + b) == MappedPart(a) + MappedPart(b)
    ensures UnmappedPart(a + b) == UnmappedPart(a) + UnmappedPart(b)
  {
    if b != [] {
      assert (a + b)[..|a + b| - 1] == a + b[..|b| - 1];
      SplitDistributes(a, b[..|b| - 1]);
    } else {
      assert a + b == a;
    }
  }

  lemma SplitOfOne(rec: Record, table: seq<TowerMapping>)
    ensures UnmappedPart(JoinOne(rec, table)) == if Matches(rec, table) == [] then [rec] else []
    ensures |MappedPart(JoinOne(rec, table))| == |Matches(rec, table)|
  {
    var rows := JoinOne(rec, table);
    if Matches(rec, table) == [] {
      assert rows[..0] == [];
    } else {
      NoneUnmapped(rows);
      SplitIsPartition(rows);
    }
  }

  lemma {:induction false} NoneUnmapped(rows: seq<Joined>)
    requires forall j | 0 <= j < |rows| :: rows[j].tower.Some?
    ensures UnmappedPart(rows) == []
  {
    if rows != [] {
      NoneUnmapped(rows[..|rows| - 1]);
    }
  }

  /** The join keeps every record: a record without a match becomes exactly one
      unmapped row, and the unmapped part is precisely the unmatched records in
      input order. */
  lemma {:induction false} UnmappedAreTheUnmatched(recs: seq<Record>, table: seq<TowerMapping>)
    ensures UnmappedPart(LeftJoin(recs, table)) == Unmatched(recs, table)
  {
    if recs != [] {
      var init := recs[..|recs| - 1];
      var last := recs[|recs| - 1];
      UnmappedAreTheUnmatched(init, table);
      SplitDistributes(LeftJoin(init, table), JoinOne(last, table));
      SplitOfOne(last, table);
    }
  }

  /** The join multiplies: a record contributes one joined row per matching
      mapping row, and at least one row. */
  lemma {:induction false} JoinSize(recs: seq<Record>, table: seq<TowerMapping>)
    ensures |LeftJoin(recs, table)| >= |recs|
    ensures |MappedPart(LeftJoin(recs, table))| == MatchCount(recs, table)
  {
    if recs != [] {
      var init := recs[..|recs| - 1];
      var last := recs[|recs| - 1];
      JoinSize(init, table);
      SplitDistributes(LeftJoin(init, table), JoinOne(last, table));
      SplitOfOne(last, table);
    }
  }

  /** The number of (record, mapping row) pairs with equal eNodeB ids. */
  function MatchCount(recs: seq<Record>, table: seq<TowerMapping>): nat
  {
    if recs == [] then 0 else MatchCount(recs[..|recs| - 1], table) + |Matches(recs[|recs| - 1], table)|
  }

  /** A run without matching towers has an empty mapped report and reports
      every row as unmapped. */
  lemma EmptyTableLeavesEverythingUnmapped(recs: seq<Record>)
    ensures MappedPart(LeftJoin(recs, [])) == [] && UnmappedPart(LeftJoin(recs, [])) == recs
  {
    JoinSize(recs, []);
    NoMatchCount(recs);
    UnmappedAreTheUnmatched(recs, []);
    AllUnmatched(recs);
  }

  lemma {:induction false} NoMatchCount(recs: seq<Record>)
    ensures MatchCount(recs, []) == 0
  {
    if recs != [] {
      NoMatchCount(recs[..|recs| - 1]);
    }
  }

  lemma {:induction false} AllUnmatched(recs: seq<Record>)
    ensures Unmatched(recs, []) == recs
  {
    if recs != [] {
      AllUnmatched(recs[..|recs| - 1]);
      assert recs == recs[..|recs| - 1] + [recs[|recs| - 1]];
    }
  }

  // ---------------------------------------------------------------------------
  // Mapped aggregation

  function EnodebKeyOf(rec: Record): EnodebKey
  {
    EnodebKey(rec.id.operator, rec.stamp.date, rec.id.enodebId)
  }

  /** The stage-1 rows: grouped per (operator, Date, enodeb_id), tower columns taken with `first`. */
  function ByEnodeb(rows: seq<Placed>): (entries: seq<Entry<EnodebKey, Tower>>)
    ensures |entries| == |rows|
    ensures forall i | 0 <= i < |rows| :: entries[i] == Entry(EnodebKeyOf(rows[i].rec), rows[i].tower, rows[i].rec.counters)
  {
    seq(|rows|, i requires 0 <= i < |rows| => Entry(EnodebKeyOf(rows[i].rec), rows[i].tower, rows[i].rec.counters))
  }

  /** The stage-2 key of a stage-1 group: its operator and date with the tower
      label of the group's first row. Only keys that occur are ever looked up. */
  function CarriedKey(rows: seq<Placed>, key: EnodebKey): TowerKey
  {
    match FirstLabel(ByEnodeb(rows), key)
    case Some(t) => TowerKey(key.operator, key.date, t.towerId, t.sweL5)
    case None => TowerKey(key.operator, key.date, "", "")
  }

  /** Row `first` opens the (operator, Date, eNodeB) group that row `i` belongs to. */
  predicate OpensGroupOf(rows: seq<Placed>, first: nat, i: nat)
    requires first <= i < |rows|
  {
    && EnodebKeyOf(rows[first].rec) == EnodebKeyOf(rows[i].rec)
    && forall j | 0 <= j < first :: EnodebKeyOf(rows[j].rec) != EnodebKeyOf(rows[i].rec)
  }

  /** Every measurement row filed under a tower label, keeping its own operator,
      date and counters: the label is that of the earliest row of its
      (operator, Date, eNodeB) group, whatever tower the row itself was joined to. */
  function ByTower(rows: seq<Placed>): (entries: seq<Entry<TowerKey, ()>>)
    ensures |entries| == |rows|
    ensures forall i | 0 <= i < |rows| ::
      && entries[i].counters == rows[i].rec.counters
      && entries[i].key.operator == rows[i].rec.id.operator
      && entries[i].key.date == rows[i].rec.stamp.date
    ensures forall first, i | 0 <= first <= i < |rows| && OpensGroupOf(rows, first, i) ::
      entries[i].key.towerId == rows[first].tower.towerId && entries[i].key.sweL5 == rows[first].tower.sweL5
  {
    CarriedKeysAreEarliest(rows);
    seq(|rows|, i requires 0 <= i < |rows| => Entry(CarriedKey(rows, EnodebKeyOf(rows[i].rec)), (), rows[i].rec.counters))
  }

  /** The stage-2 key carried for a row's group comes from the group's earliest row. */
  lemma CarriedKeysAreEarliest(rows: seq<Placed>)
    ensures forall first, i | 0 <= first <= i < |rows| && OpensGroupOf(rows, first, i) ::
      var rec := rows[i].rec;
      CarriedKey(rows, EnodebKeyOf(rec)) == TowerKey(rec.id.operator, rec.stamp.date, rows[first].tower.towerId, rows[first].tower.sweL5)
  {
    forall first, i | 0 <= first <= i < |rows| && OpensGroupOf(rows, first, i)
      ensures var rec := rows[i].rec;
        CarriedKey(rows, EnodebKeyOf(rec)) == TowerKey(rec.id.operator, rec.stamp.date, rows[first].tower.towerId, rows[first].tower.sweL5)
    {
      FirstLabelIsEarliest(ByEnodeb(rows), EnodebKeyOf(rows[i].rec), first);
    }
  }

  lemma {:induction false} AllPlaced(rows: seq<Joined>)
    requires forall j | 0 <= j < |rows| :: rows[j].tower.Some?
    ensures MappedPart(rows) == seq(|rows|, j requires 0 <= j < |rows| => Placed(rows[j].rec, rows[j].tower.value))
  {
    if rows != [] {
      AllPlaced(rows[..|rows| - 1]);
    }
  }

  /** A record whose eNodeB id appears in several mapping rows is joined once per
      row, and the copies are all credited to the tower of the first matching
      mapping row: that tower receives the record's counters once per match. */
  lemma RecordWithSeveralMatches(rec: Record, table: seq<TowerMapping>)
    requires Matches(rec, table) != []
    ensures var m := Matches(rec, table);
      var credited := ByTower(MappedPart(JoinOne(rec, table)));
      var k := TowerKey(rec.id.operator, rec.stamp.date, m[0].towerId, m[0].sweL5);
      KeySet(credited) == {k} && Total(credited, k) == Scale(rec.counters, |m|)
  {
    var m := Matches(rec, table);
    var joined := JoinOne(rec, table);
    AllPlaced(joined);
    var rows := MappedPart(joined);
    var k := TowerKey(rec.id.operator, rec.stamp.date, m[0].towerId, m[0].sweL5);
    forall i | 0 <= i < |rows| ensures ByTower(rows)[i].key == k {
      assert OpensGroupOf(rows, 0, i);
    }
    TotalOfCopies(ByTower(rows), k, rec.counters);
  }

  /** Two mapping rows for eNodeB 7 (towers T1 and T2): a record of that eNodeB is
      counted twice, both times under T1, and T2 gets nothing. */
  lemma DuplicateMappingExample(rec: Record)
    requires rec.id.enodebId == 7
    ensures var table := [TowerMapping("T1", "L5-A", 7), TowerMapping("T2", "L5-B", 7)];
      var credited := ByTower(MappedPart(JoinOne(rec, table)));
      var t1 := TowerKey(rec.id.operator, rec.stamp.date, "T1", "L5-A");
      KeySet(credited) == {t1} && Total(credited, t1) == Scale(rec.counters, 2)
  {
    var table := [TowerMapping("T1", "L5-A", 7), TowerMapping("T2", "L5-B", 7)];
    assert table[..1] == [TowerMapping("T1", "L5-A", 7)];
    assert table[..1][..0] == [];
    assert Matches(rec, table) == [Tower("T1", "L5-A"), Tower("T2", "L5-B")];
    RecordWithSeveralMatches(rec, table);
  }

  function MappedRow(g: Entry<TowerKey, ()>): seq<Value>
  {
    Row(g.key.operator, g.key.date, Str(g.key.sweL5), Str(g.key.towerId), g.counters)
  }

  /** `frame` is the mapped daily report of `rows`, listing `groups`: the empty
      frame for no rows; otherwise one row per distinct (operator, Date, tower_id,
      swe_l5), each holding the sum of the counters of the measurement rows
      credited to that tower label. */
  predicate IsDailyReport(rows: seq<Placed>, frame: Frame, groups: seq<Entry<TowerKey, ()>>)
  {
    && (rows == [] ==> frame == EmptyFrame && groups == [])
    && (rows != [] ==> frame == Frame(MAPPED_COLUMNS, seq(|groups|, j requires 0 <= j < |groups| => MappedRow(groups[j]))))
    && Distinct(KeysOf(groups))
    && KeySet(groups) == KeySet(ByTower(rows))
    && (forall j | 0 <= j < |groups| :: groups[j].counters == Total(ByTower(rows), groups[j].key))
  }

  /** The counters in a daily report add up to the counters of all its rows. */
  lemma DailyReportConservesCounters(rows: seq<Placed>, frame: Frame, groups: seq<Entry<TowerKey, ()>>)
    requires IsDailyReport(rows, frame, groups)
    ensures GrandTotal(groups) == GrandTotal(ByTower(rows))
  {
    GroupingConservesTotals(groups, ByTower(rows));
  }

  /** `_aggregate_daily`: group per (operator, Date, enodeb_id) keeping the first
      tower label, then group those groups per (operator, Date, tower_id, swe_l5). */
  method AggregateDaily(rows: seq<Placed>) returns (frame: Frame, groups: seq<Entry<TowerKey, ()>>)
    ensures IsDailyReport(rows, frame, groups)
  {
    if rows == [] {
      return EmptyFrame, [];
    }
    var entries := ByEnodeb(rows);
    var byEnodeb := GroupBy(entries);
    var regrouped := seq(|byEnodeb|, j requires 0 <= j < |byEnodeb| =>
      var g := byEnodeb[j];
      Entry(TowerKey(g.key.operator, g.key.date, g.tag.towerId, g.tag.sweL5), (), g.counters));
    var carried := (key: EnodebKey) => CarriedKey(rows, key);
    assert regrouped == Relabel(byEnodeb, carried);
    assert ByTower(rows) == Relabel(entries, carried);
    forall k2 {
      TwoStageGrouping(byEnodeb, entries, carried, k2);
    }
    groups := GroupBy(regrouped);
    frame := Frame(MAPPED_COLUMNS, seq(|groups|, j requires 0 <= j < |groups| => MappedRow(groups[j])));
  }

  // ---------------------------------------------------------------------------
  // Unmapped aggregation

  function CellKeyOf(rec: Record): CellKey
  {
    CellKey(rec.id.operator, rec.stamp.date, rec.id.enodebId, rec.id.plmn)
  }

  /** Every unmapped row filed under its (operator, Date, enodeb_id, plmn). */
  function ByCell(recs: seq<Record>): (entries: seq<Entry<CellKey, ()>>)
    ensures |entries| == |recs|
    ensures forall i | 0 <= i < |recs| :: entries[i] == Entry(CellKeyOf(recs[i]), (), recs[i].counters)
  {
    seq(|recs|, i requires 0 <= i < |recs| => Entry(CellKeyOf(recs[i]), (), recs[i].counters))
  }

  function UnmappedRow(g: Entry<CellKey, ()>): seq<Value>
  {
    Row(g.key.operator, g.key.date, Str(g.key.plmn), Whole(g.key.enodebId), g.counters)
  }

  /** `frame` is the unmapped report of `recs`, listing `groups`: the empty frame
      for no rows; otherwise one row per distinct (operator, Date, enodeb_id, plmn)
      with the ten counters summed. */
  predicate IsUnmappedReport(recs: seq<Record>, frame: Frame, groups: seq<Entry<CellKey, ()>>)
  {
    && (recs == [] ==> frame == EmptyFrame && groups == [])
    && (recs != [] ==> frame == Frame(UNMAPPED_COLUMNS, seq(|groups|, j requires 0 <= j < |groups| => UnmappedRow(groups[j]))))
    && Distinct(KeysOf(groups))
    && KeySet(groups) == KeySet(ByCell(recs))
    && (forall j | 0 <= j < |groups| :: groups[j].counters == Total(ByCell(recs), groups[j].key))
  }

  /** `_aggregate_unmapped`: one grouping per (operator, Date, enodeb_id, plmn). */
  method AggregateUnmapped(recs: seq<Record>) returns (frame: Frame, groups: seq<Entry<CellKey, ()>>)
    ensures IsUnmappedReport(recs, frame, groups)
  {
    if recs == [] {
      return EmptyFrame, [];
    }
    groups := GroupBy(ByCell(recs));
    frame := Frame(UNMAPPED_COLUMNS, seq(|groups|, j requires 0 <= j < |groups| => UnmappedRow(groups[j])));
  }
}
