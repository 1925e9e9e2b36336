/** `KQIProcessor.process`: decode every row's cell identifier, then every row's
    time column, join with the tower mapping, split into mapped and unmapped
    rows and aggregate each part. A conversion that fails aborts the whole run. */
module Processor {
  import opened Wrappers
  import opened Text
  import opened Counters
  import opened Entities
  import opened TimeColumn
  import opened Grouping
  import opened Report
  import opened Aggregation

  /** A measurement row as it enters `process`: the time column as an integer,
      the packed cell identifier and the ten counters. */
  datatype RawRow = RawRow(timecolumn: int, cgisai: string, counters: Counters)

  /** The exception that ends `process`, with the position of the offending row. */
  datatype PipelineError =
    | BadCellId(row: nat, decodeError: DecodeError)
    | BadTime(row: nat, timeError: TimeError)

  /** The two result frames, `{"mapped": ..., "unmapped": ...}`. */
  datatype Reports = Reports(mapped: Frame, unmapped: Frame)

  predicate CellIdDecodes(row: RawRow)
  {
    FromCgisai(row.cgisai).Success?
  }

  predicate TimeNormalizes(row: RawRow)
  {
    Normalize(row.timecolumn).Success?
  }

  /** The converted record of a row both of whose conversions succeed. */
  function ToRecord(row: RawRow): (rec: Record)
    requires CellIdDecodes(row) && TimeNormalizes(row)
    ensures FromCgisai(row.cgisai) == Success(rec.id) && Normalize(row.timecolumn) == Success(rec.stamp)
    ensures rec.counters == row.counters
    ensures rec.id.plmn == ZFill(row.cgisai, CGISAI_WIDTH)[..5] && rec.id.operator == OperatorName(rec.id.plmn)
  {
    Record(FromCgisai(row.cgisai).value, Normalize(row.timecolumn).value, row.counters)
  }

  /** The rows after both conversions, in input order: each record holds the
      decoded identifier and the normalized stamp of its row, and its counters. */
  function Records(raw: seq<RawRow>): (recs: seq<Record>)
    requires forall i | 0 <= i < |raw| :: CellIdDecodes(raw[i]) && TimeNormalizes(raw[i])
    ensures |recs| == |raw|
    ensures forall i | 0 <= i < |raw| ::
      && FromCgisai(raw[i].cgisai) == Success(recs[i].id)
      && Normalize(raw[i].timecolumn) == Success(recs[i].stamp)
      && recs[i].counters == raw[i].counters
  {
    seq(|raw|, i requires 0 <= i < |raw| => ToRecord(raw[i]))
  }

  /** `_convert_network_id`: `from_cgisai` applied row by row; the first row whose
      identifier does not decode raises. */
  method ConvertNetworkIds(raw: seq<RawRow>) returns (r: Result<seq<NetworkIdentifier>, PipelineError>)
    ensures r.Success? ==>
      |r.value| == |raw| && forall i | 0 <= i < |raw| :: FromCgisai(raw[i].cgisai) == Success(r.value[i])
    ensures r.Failure? ==>
      && r.error.BadCellId? && r.error.row < |raw|
      && FromCgisai(raw[r.error.row].cgisai) == Failure(r.error.decodeError)
      && forall j | 0 <= j < r.error.row :: CellIdDecodes(raw[j])
  {
    var ids: seq<NetworkIdentifier> := [];
    for i := 0 to |raw|
      invariant |ids| == i
      invariant forall j | 0 <= j < i :: FromCgisai(raw[j].cgisai) == Success(ids[j])
    {
      var decoded := FromCgisai(raw[i].cgisai);
      if decoded.Failure? {
        return Failure(BadCellId(i, decoded.error));
      }
      ids := ids + [decoded.value];
    }
    return Success(ids);
  }

  /** `_convert_time_column`: the time column of every row normalised; the first
      row that is not a valid date and time raises. */
  method ConvertTimes(raw: seq<RawRow>) returns (r: Result<seq<Stamp>, PipelineError>)
    ensures r.Success? ==>
      |r.value| == |raw| && forall i | 0 <= i < |raw| :: Normalize(raw[i].timecolumn) == Success(r.value[i])
    ensures r.Failure? ==>
      && r.error.BadTime? && r.error.row < |raw|
      && Normalize(raw[r.error.row].timecolumn) == Failure(r.error.timeError)
      && forall j | 0 <= j < r.error.row :: TimeNormalizes(raw[j])
  {
    var stamps: seq<Stamp> := [];
    for i := 0 to |raw|
      invariant |stamps| == i
      invariant forall j | 0 <= j < i :: Normalize(raw[j].timecolumn) == Success(stamps[j])
    {
      var normalized := Normalize(raw[i].timecolumn);
      if normalized.Failure? {
        return Failure(BadTime(i, normalized.error));
      }
      stamps := stamps + [normalized.value];
    }
    return Success(stamps);
  }

  /** `process`. It fails exactly when some row does not convert: with the first
      undecodable cell identifier if there is one, otherwise with the first bad
      time column. On success the mapped report covers the joined rows that found
      a tower and the unmapped report covers the rows that did not. */
  method Process(raw: seq<RawRow>, table: seq<TowerMapping>)
    returns (r: Result<Reports, PipelineError>, mappedGroups: seq<Entry<TowerKey, ()>>, unmappedGroups: seq<Entry<CellKey, ()>>)
    ensures r.Success? <==> forall i | 0 <= i < |raw| :: CellIdDecodes(raw[i]) && TimeNormalizes(raw[i])
    ensures r.Failure? && r.error.BadCellId? ==>
      && r.error.row < |raw|
      && FromCgisai(raw[r.error.row].cgisai) == Failure(r.error.decodeError)
      && forall j | 0 <= j < r.error.row :: CellIdDecodes(raw[j])
    ensures r.Failure? && r.error.BadTime? ==>
      && (forall j | 0 <= j < |raw| :: CellIdDecodes(raw[j]))
      && r.error.row < |raw|
      && Normalize(raw[r.error.row].timecolumn) == Failure(r.error.timeError)
      && forall j | 0 <= j < r.error.row :: TimeNormalizes(raw[j])
    ensures r.Success? ==>
      var joined := LeftJoin(Records(raw), table);
      && IsDailyReport(MappedPart(joined), r.value.mapped, mappedGroups)
      && IsUnmappedReport(UnmappedPart(joined), r.value.unmapped, unmappedGroups)
  {
    var ids := ConvertNetworkIds(raw);
    if ids.Failure? {
      return Failure(ids.error), [], [];
    }
    var stamps := ConvertTimes(raw);
    if stamps.Failure? {
      return Failure(stamps.error), [], [];
    }
    var recs := seq(|raw|, i requires 0 <= i < |raw| => Record(ids.value[i], stamps.value[i], raw[i].counters));
    assert recs == Records(raw);
    var joined := LeftJoin(recs, table);
    var mapped, unmapped;
    mapped, mappedGroups := AggregateDaily(MappedPart(joined));
    unmapped, unmappedGroups := AggregateUnmapped(UnmappedPart(joined));
    r := Success(Reports(mapped, unmapped));
  }
}
