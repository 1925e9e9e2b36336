# KQI daily aggregation, modelled in Dafny

KQI-Maakmaay turns raw KQI (key quality indicator) measurement rows into two
daily reports per operator.

- Each row carries a packed CGI/SAI cell identifier (`cgisai`), a
  `YYYYMMDDHHMM` time column and ten TCP counters.
- The identifier is decoded into PLMN, MCC, MNC, eNodeB id, cell id and
  operator name. The time column is turned into a `Date` and a `Time`.
- The rows are left-joined with a tower mapping table on the eNodeB id.
- Rows that found a tower are summed per (operator, Date, tower). This happens
  in two stages: first per eNodeB, keeping the first tower label, then per
  tower.
- Rows that found no tower are summed per (operator, Date, eNodeB, PLMN).
- For every group the report computes guarded mean delays and loss rates, the
  NATIONAL label, and numpy's half-to-even rounding.

The project also models the mapping-file loader and the small
separator-based cell identifier parser with its `full_id` rendering. It also
models the `group_by_mnc` use case.

## Modules

- `wrappers.dfy`: `Option` and `Result`.
- `text.dfy`: the Python string built-ins the source relies on, restricted to
  what it uses:
  - `zfill`, `split`, `join` and `strip`;
  - `int(s)` and `int(s, 16)`;
  - zero-padded decimal rendering.
- `entities.dfy`: the operator directory, `NetworkIdentifier.from_cgisai`
  and `TowerMapping`.
- `time_column.dfy`: the conversion of one time column value.
- `mapping_table.dfy`: `load_mapping_file` from the point where the CSV has
  been read.
- `counters.dfy`: the ten summed counters.
- `kpi.dfy`: the KPI formulas and rounding.
- `grouping.dfy`: `groupby(...).agg(...)` with `sum` and `first`, as a loop.
  It also holds the lemmas that relate a two-stage grouping to a one-stage
  one.
- `report.dfy`: the 22-column layout of the reports and the cells of one row.
- `aggregation.dfy`: the join, the mapped/unmapped split, `_aggregate_daily`
  and `_aggregate_unmapped`.
- `processor.dfy`: `KQIProcessor.process` and its two conversion steps.
- `cell_identifier.dfy`: `CellIdentifier`, `full_id` and `extract_cell_id`.
- `group_by_mnc.dfy`: `group_by_mnc`.

A record whose eNodeB id appears k times in the mapping table is joined k
times by the left merge (infrastructure/file_operations.py:203-210). The
stage-1 `first` then credits every copy to the first tower, so that tower
receives the record's counters k times. `Aggregation.RecordWithSeveralMatches`
and `Aggregation.DuplicateMappingExample` state this.

## Model

| member | source | states |
|---|---|---|
| Entities.OperatorCodes | core/entities.py:5-16 | the directory holds exactly the ten listed PLMN codes |
| Entities.OperatorCount | core/entities.py:5-16 | there are ten codes |
| Entities.UnknownIffNotListed | core/entities.py:42 | the operator is "Unknown" exactly when the PLMN code is not in the directory |
| Entities.FromCgisai | core/entities.py:28-51 | the text is zero-filled to 12 characters. Decoding succeeds exactly when characters [5,10) and [10,12) are hexadecimal; otherwise the error names the eNodeB field, or else the cell field. On success the PLMN is the first five characters and equals MCC (3 characters) followed by MNC (2 characters). The eNodeB id is the hexadecimal value of characters [5,10) and below 16^5, the cell id is that of characters [10,12) and below 256, and the operator is the directory lookup of the PLMN |
| Entities.DecodeEncode | core/entities.py:28-51 | decoding the packed form of a PLMN, an eNodeB id below 16^5 and a cell id below 256 gives those values back (round trip) |
| Entities.TrailingCharactersIgnored | core/entities.py:31-40 | characters after the twelfth never affect the result |
| Entities.Example510101234501 | core/entities.py:28-51 | "510101234501" decodes to Telkomsel, PLMN 51010, eNodeB 0x12345, cell 1 |
| Text.ZFill | core/entities.py:31 | `zfill` reaches the width; it leaves a long enough text unchanged and puts zeros in front of an unsigned short one |
| Text.ParseHex | core/entities.py:37 | `int(s, 16)` succeeds exactly on non-empty hexadecimal text and yields a value below 16^len |
| Text.HexValueOfPadHex | core/entities.py:36-40 | a value padded to a width in hexadecimal reads back as itself |
| Text.PadHexOfHexValue | core/entities.py:36-40 | hexadecimal text read as a value and padded back to its width is the text itself, with upper-case A-F lowered: each digit, in either case, stands for its own value |
| Text.ParseIntOfIntToString | src/domain/use_cases/extract_cell_id_usecase.py:15 | `int(str(i)) == i` for every integer |
| Text.Split | src/domain/use_cases/extract_cell_id_usecase.py:12 | `split` yields one more piece than there are separators, and no piece contains the separator |
| Text.JoinSplit | src/domain/use_cases/extract_cell_id_usecase.py:12 | joining the pieces of a split gives back the text |
| Text.SplitJoin | src/domain/entities/cell_identifier.py:16-17 | splitting pieces joined by a separator none of them contains gives back the pieces |
| Text.StripIdempotent | infrastructure/file_operations.py:132-133 | `strip` is idempotent and leaves no whitespace at either end |
| Text.DecimalValueOfPad | infrastructure/file_operations.py:197 | a value rendered with `:012d` (and any width that fits it) reads back as itself |
| Text.PadDecimalInjective | infrastructure/file_operations.py:199 | two zero-padded renderings of the same width are equal exactly when the values are |
| TimeColumn.Render | infrastructure/file_operations.py:197 | `f"{n:012d}"` is twelve digits exactly when 0 <= n < 10^12, and then it is the zero-padded decimal of n |
| TimeColumn.Normalize | infrastructure/file_operations.py:194-201 | a value converts exactly when it is in [0, 10^12), its twelve digits form a real calendar minute, and it lies within pandas' Timestamp range. A failure carries the rendered text |
| TimeColumn.FieldsOfTimestamp | infrastructure/file_operations.py:198 | `%Y%m%d%H%M` reads the base-100 digits of the timestamp |
| TimeColumn.StampRearrangesDigits | infrastructure/file_operations.py:199-200 | Date is MM/DD/YYYY and Time is HH:MM, made of the digits of the rendered timestamp |
| TimeColumn.DateIsCalendarDay | infrastructure/file_operations.py:199 | two converted timestamps share a Date exactly when they agree above the hour digits |
| MappingTable.StripHeader | infrastructure/file_operations.py:112 | every column name is stripped, the count is kept |
| MappingTable.MissingFrom | infrastructure/file_operations.py:118 | the missing names are exactly the required names absent from the header, in required order |
| MappingTable.Locate | infrastructure/file_operations.py:128 | each required column is found at a position holding that name |
| MappingTable.ParseNumeric | infrastructure/file_operations.py:136 | a number is accepted only if it is non-empty and made of digits, '.' and a sign in first position |
| MappingTable.ParseNumericOfInt | infrastructure/file_operations.py:136 | an integer in decimal is read back as itself |
| MappingTable.ParseNumericTruncates | infrastructure/file_operations.py:136-146 | `n.f` is read as `n`: `astype(int)` drops the fraction |
| MappingTable.CleanRow | infrastructure/file_operations.py:132-136 | a row survives exactly when its eNodeB field is numeric; an empty field never survives |
| MappingTable.SurvivorsAreTheNumericRows | infrastructure/file_operations.py:139-141 | the kept rows are exactly the rows with a numeric id, and the dropped count is the number of the others |
| MappingTable.SurvivorsAreTrimmed | infrastructure/file_operations.py:132-133 | every kept tower id and SWE_L5 value has no surrounding whitespace |
| MappingTable.LoadMapping | infrastructure/file_operations.py:99-148 | missing required columns give the error listing them and the available columns. A required column named twice gives the length-mismatch error. Otherwise the result is the surviving rows and the dropped count |
| Counters.ScaleMultiplies | infrastructure/file_operations.py:220-233 | k copies of a counter set sum to k times every field |
| Kpi.RoundHalfEven | infrastructure/file_operations.py:335-337 | `round(0)` gives a nearest integer, and an even one on a tie |
| Kpi.RoundHalfEvenUnique | infrastructure/file_operations.py:335-337 | that nearest-with-ties-to-even integer is unique |
| Kpi.TiesToEven | infrastructure/file_operations.py:335-337 | 0.5, 1.5, 2.5, -0.5 and -1.5 round to 0, 2, 2, 0 and -2 |
| Kpi.RoundCents | infrastructure/file_operations.py:339-342 | `round(2)` moves a value by at most 0.005 and leaves at most two decimals; 100 times the result is a nearest integer to 100 times the value, an even one on a tie |
| Kpi.HundredthsOfNearest | infrastructure/file_operations.py:339-342 | an integer n nearest to 100 x gives n / 100, which is within 0.005 of x, has at most two decimals and has n as its hundredths |
| Kpi.CentRoundingUnique | infrastructure/file_operations.py:339-342 | the cent rounding with ties to the even cent is unique, so the rounding property fixes the value |
| Kpi.CentTiesToEven | infrastructure/file_operations.py:339-342 | 3.125 rounds to 3.12 and 3.135 to 3.14 |
| Kpi.RoundCentsKeepsCents | infrastructure/file_operations.py:339-342 | a value with two decimals is unchanged by `round(2)` |
| Kpi.MeanDelay | infrastructure/file_operations.py:256-266 | with a positive count the delay times the count is the total; with no count it is 0 |
| Kpi.LossRate | infrastructure/file_operations.py:270-292 | with packets the rate times the packets is 100 times the losses; with none it is 0 |
| Kpi.LossRateAtMostHundred | infrastructure/file_operations.py:270-292 | a rate is at most 100 when no more packets are lost than carried |
| Kpi.DeriveKpis | infrastructure/file_operations.py:256-342 | with good samples, the E2E and SYN-SYN ACK delays are a nearest integer to total / count, an even one on a tie; without good samples they are 0. SYN ACK-ACK is a nearest integer (ties to even) to the difference of the two unrounded means. With payload packets each rate is within 0.005 of lost / packets * 100 over the packets of its own direction (uplink losses over uplink packets, downlink over downlink); without them it is 0. Every rate is its guarded ratio rounded to cents with ties to the even cent |
| Kpi.ZeroDenominatorsGiveZero | infrastructure/file_operations.py:256-292 | zero denominators give all-zero KPIs instead of a division by zero |
| Kpi.SynAckAckWithinOne | infrastructure/file_operations.py:268 | the rounded SYN ACK-ACK delay is within one of the difference of the two rounded delays |
| Kpi.RoundedDifferenceExample | infrastructure/file_operations.py:268 | means 2.5 and 1.5 round to 2 and 2 while their difference rounds to 1 |
| Kpi.NegativeSynAckAckExample | infrastructure/file_operations.py:268 | SYN ACK-ACK has no guard of its own and can be negative |
| Kpi.E2EExample | infrastructure/file_operations.py:256-260 | 250 ms over 25 samples is an E2E delay of 10 |
| Kpi.LossRateTieExample | infrastructure/file_operations.py:339-342 | one uplink loss in 32 packets (3.125 %) is reported as 3.12 |
| Kpi.NationalIsInjective | infrastructure/file_operations.py:294-296 | NATIONAL is "Unknown" exactly for operator "Unknown", and distinct operators get distinct labels |
| Report.ColumnLayout | infrastructure/file_operations.py:314-333 | both reports have 22 columns. They share the 17 metric columns and differ only in the fourth and fifth |
| Report.MetricCells | infrastructure/file_operations.py:314-333 | one cell per metric column |
| Report.RateColumnsHoldCents | infrastructure/file_operations.py:335-342 | exactly the four rate columns hold decimals, and those have at most two decimals |
| Report.RateColumnsAreMarked | infrastructure/file_operations.py:339 | a metric column name contains "(%)" exactly when it is one of the four loss-rate columns |
| Report.MetricCellsFollowColumns | infrastructure/file_operations.py:314-342 | under the mapped report's column names, a metric cell is a decimal exactly when its column name contains "(%)", every metric cell is a decimal or a whole number, and every decimal has at most two places |
| Report.Row | infrastructure/file_operations.py:294-344 | a row has as many cells as either report has columns: operator, Date, NATIONAL, the two report-specific keys, then the metric cells of the group. NATIONAL is "Unknown" exactly for the operator "Unknown". A metric cell is a decimal exactly under a column whose name contains "(%)" (the `round(2)` loop), and that decimal has at most two places; every other metric cell is a whole number |
| Grouping.Snoc | infrastructure/file_operations.py:220-235 | one more row adds its counters to its key's sum only, and sets the key's `first` label only if it had none |
| Grouping.AbsentKey | infrastructure/file_operations.py:220-235 | a key no row carries has the zero sum and no label |
| Grouping.FirstLabelIsEarliest | infrastructure/file_operations.py:231-232 | `first` is the label of the earliest row with the key |
| Grouping.TotalOfCopies | infrastructure/file_operations.py:235 | k rows with the same key and counters sum to k times the counters |
| Grouping.JoinGroup | infrastructure/file_operations.py:235 | a row whose key has a group keeps the grouping valid when added to that group |
| Grouping.OpenGroup | infrastructure/file_operations.py:235 | a row with a new key keeps the grouping valid when it opens a group |
| Grouping.GroupBy | infrastructure/file_operations.py:235 | one group per distinct key, each holding the key's `first` label and the sum of its rows' counters |
| Grouping.Collapse | infrastructure/file_operations.py:238-253 | one entry per listed key |
| Grouping.CollapseOfNothing | infrastructure/file_operations.py:238-253 | collapsing no rows gives zero sums |
| Grouping.CollapseSnoc | infrastructure/file_operations.py:238-253 | one more row adds to exactly the collapsed sum of its key |
| Grouping.Regroup | infrastructure/file_operations.py:238-253 | collapsing then grouping by new keys equals grouping the rows under their new keys |
| Grouping.GroupsAreCollapse | infrastructure/file_operations.py:238-253 | grouped rows, relabelled, are the collapse of the original rows |
| Grouping.TwoStageGrouping | infrastructure/file_operations.py:235-253 | grouping the groups again gives, per new key, the sum of the original rows and the same key set |
| Grouping.GroupingConservesTotals | infrastructure/file_operations.py:235 | the groups' counters add up to the counters of all rows |
| Grouping.GrandTotalIsOneGroup | infrastructure/file_operations.py:235 | the sum of everything is the sum of a single group holding everything |
| Aggregation.MatchesAreTheMatchingRows | infrastructure/file_operations.py:203-210 | a record's matches are the towers of exactly the mapping rows with its eNodeB id; there are none exactly when no row has that id, and otherwise the first is the tower of the earliest such row |
| Aggregation.JoinOne | infrastructure/file_operations.py:205-209 | a record with no match gives one row without tower data; otherwise it gives one row per matching mapping row, in table order |
| Aggregation.SplitIsPartition | infrastructure/file_operations.py:172-173 | every joined row lands in exactly one of mapped and unmapped |
| Aggregation.SplitDistributes | infrastructure/file_operations.py:172-173 | the split of a concatenation is the concatenation of the splits |
| Aggregation.SplitOfOne | infrastructure/file_operations.py:172-173 | one record gives one unmapped row exactly when it has no match, and otherwise one mapped row per match |
| Aggregation.NoneUnmapped | infrastructure/file_operations.py:173 | rows that all have tower data contribute nothing to the unmapped part |
| Aggregation.UnmappedAreTheUnmatched | infrastructure/file_operations.py:169-173 | the unmapped part is exactly the records without a match, in input order |
| Aggregation.JoinSize | infrastructure/file_operations.py:205-209 | the join never loses a record, and the mapped part has one row per matching (record, mapping row) pair |
| Aggregation.EmptyTableLeavesEverythingUnmapped | infrastructure/file_operations.py:169-173 | with an empty table nothing is mapped and every record is unmapped |
| Aggregation.ByTower | infrastructure/file_operations.py:218-253 | every mapped row is credited, with its own operator, date and counters, to the tower id and SWE_L5 of the earliest row of its (operator, Date, eNodeB) group |
| Aggregation.CarriedKeysAreEarliest | infrastructure/file_operations.py:231-232 | the stage-2 key carried by a stage-1 group is the tower label of the group's earliest row |
| Aggregation.AllPlaced | infrastructure/file_operations.py:172 | rows that all have tower data are all kept as mapped, in order |
| Aggregation.RecordWithSeveralMatches | infrastructure/file_operations.py:205-235 | a record matching several mapping rows is credited only to the first matching tower, once per match |
| Aggregation.DuplicateMappingExample | infrastructure/file_operations.py:205-235 | two mapping rows for eNodeB 7 (T1, T2): T1 receives the record's counters twice, T2 nothing |
| Aggregation.DailyReportConservesCounters | infrastructure/file_operations.py:212-253 | the mapped report's groups add up to the counters of all mapped rows |
| Aggregation.AggregateDaily | infrastructure/file_operations.py:212-344 | no rows give the empty frame. Otherwise there is one 22-column row per distinct (operator, Date, tower, SWE_L5) of the rows as credited by the first-tower rule, each with the sum of the counters credited to it |
| Aggregation.AggregateUnmapped | infrastructure/file_operations.py:346-456 | no rows give the empty frame. Otherwise there is one 22-column row per distinct (operator, Date, eNodeB, PLMN), each with the sum of its rows' counters |
| Processor.ToRecord | infrastructure/file_operations.py:181-201 | a converted row holds the decoded identifier of its `cgisai` and the converted stamp of its time column, and keeps its counters; its PLMN and operator are those of the zero-filled identifier |
| Processor.Records | infrastructure/file_operations.py:181-201 | one record per row, in order, holding the row's decoded identifier, its converted stamp and its counters |
| Processor.ConvertNetworkIds | infrastructure/file_operations.py:181-192 | either every row's identifier decodes and the results line up with the rows, or the error names the first row that does not |
| Processor.ConvertTimes | infrastructure/file_operations.py:194-201 | either every row's time converts, or the error names the first row that does not |
| Processor.Process | infrastructure/file_operations.py:158-179 | success exactly when every row converts. An undecodable identifier is reported before any bad time. On success the two reports are the daily reports of the mapped and the unmapped rows of the left join |
| CellIdentifiers.FullIdPieces | src/domain/entities/cell_identifier.py:16-17 | with non-negative fields, `full_id` has exactly three '-' and splits back into the four decimal fields |
| CellIdentifiers.ParseFour | src/domain/use_cases/extract_cell_id_usecase.py:15 | the four leading pieces give an identifier exactly when all four parse as integers, with those values |
| CellIdentifiers.ExtractCellId | src/domain/use_cases/extract_cell_id_usecase.py:5-26 | None for a missing or empty text, and None unless there are three '-' or at least three ',' or '/' |
| CellIdentifiers.JoinedCount | src/domain/use_cases/extract_cell_id_usecase.py:18-23 | pieces joined by a separator they lack contain one separator fewer than there are pieces |
| CellIdentifiers.DashedTextIsFinal | src/domain/use_cases/extract_cell_id_usecase.py:12-16 | four '-' pieces decide the result, whether they parse or not; the fallbacks are not tried |
| CellIdentifiers.CommaFallback | src/domain/use_cases/extract_cell_id_usecase.py:18-23 | without four '-' pieces, a text of at least four ',' pieces is read from its first four |
| CellIdentifiers.SlashFallback | src/domain/use_cases/extract_cell_id_usecase.py:18-23 | '/' is tried only when ',' gives fewer than four pieces, and then the first four '/' pieces are read |
| CellIdentifiers.ExtractFullId | src/domain/use_cases/extract_cell_id_usecase.py:12-16 | `extract_cell_id(full_id(c)) == c` for non-negative fields (round trip) |
| CellIdentifiers.HexIsRejected | src/domain/use_cases/extract_cell_id_usecase.py:6 | despite the docstring, a text starting with "0x" never gives an identifier |
| CellIdentifiers.DashPiecesAreFinalExample | src/domain/use_cases/extract_cell_id_usecase.py:12-23 | "1,2,3,4,x-y-z-w" gives None, although its ',' pieces would give 1-2-3-4 |
| GroupByMnc.StrOf | src/domain/use_cases/group_by_mnc_usecase.py:10 | `str` of a truthy value is non-empty |
| GroupByMnc.MncKey | src/domain/use_cases/group_by_mnc_usecase.py:9-10 | the key is never empty. It is "unknown" for a missing or falsy mnc, the text itself for a non-empty string, "True" for `True`, and for a non-zero integer it reads back as that integer |
| GroupByMnc.Filter | src/domain/use_cases/group_by_mnc_usecase.py:8-10 | a group only holds records with its key |
| GroupByMnc.Snoc | src/domain/use_cases/group_by_mnc_usecase.py:8-10 | one more record is appended to its own group only, and adds its key at the end if new |
| GroupByMnc.FirstAppearanceKeys | src/domain/use_cases/group_by_mnc_usecase.py:6-11 | the keys of the result are exactly the keys of the records |
| GroupByMnc.FirstAppearanceIsDistinct | src/domain/use_cases/group_by_mnc_usecase.py:6-11 | no key is listed twice |
| GroupByMnc.GroupOfPresentKey | src/domain/use_cases/group_by_mnc_usecase.py:10 | every listed key has a non-empty group |
| GroupByMnc.AbsentKeyHasNoGroup | src/domain/use_cases/group_by_mnc_usecase.py:10 | a key not listed has no records |
| GroupByMnc.GroupSizesAddUp | src/domain/use_cases/group_by_mnc_usecase.py:6-11 | the group sizes add up to the number of records, so every record is in exactly one group |
| GroupByMnc.GroupBy | src/domain/use_cases/group_by_mnc_usecase.py:6-11 | the dictionary's keys, in insertion order, are the distinct keys by first appearance. Each group is the non-empty list of records with that key, in input order. The sizes add up to the input length, and no records give an empty dictionary |

## Left out

- File reading and writing (`read_csv`, `to_csv`, gzip), the GUI, the
  repositories, the use-case orchestration and the `src/` service layers are
  not part of this model. The model starts from rows already read.
- Processor.Process: the time column is an integer. The `int(float(x))`
  conversion of scientific-notation input is left out, because it is floating
  point.
- Processor.ConvertNetworkIds: the error names the first row whose identifier
  does not decode. `apply` raises the decoding error without a row number, so
  the row position is added information.
- Aggregation.AggregateDaily: output rows come in order of first appearance.
  pandas sorts the groups by key, so the order is not modelled.
- Aggregation.AggregateUnmapped: output rows come in order of first
  appearance. pandas sorts the groups by key, so the order is not modelled.
- `dropna=False` has no effect in the model: no group key can be missing. The
  decoded fields are total, and `astype(str)` turns an empty tower field into
  the text "nan".
- Kpi.DeriveKpis: arithmetic is on exact rationals, so double-precision
  rounding and the float64 division results are not modelled.
- Entities.FromCgisai: `int(x, 16)` also accepts surrounding whitespace,
  underscores, a sign, a "0x" prefix and non-ASCII decimal digits (such as
  the fullwidth '３'). The model accepts ASCII hexadecimal digits only, so
  those texts decode to an error here.
- CellIdentifiers.ExtractCellId: `int()` also accepts surrounding whitespace,
  underscores and non-ASCII digits. The model accepts an optional sign
  followed by ASCII digits.
- CellIdentifiers.ExtractCellId: its contract states only the None cases.
  The successful cases are stated by `DashedTextIsFinal`, `CommaFallback`,
  `SlashFallback` and `ExtractFullId`.
- CellIdentifiers.FullIdPieces: a negative field adds a '-' of its own.
  `full_id` then does not parse back, and that case is not proved.
- MappingTable.ParseNumeric: `pd.to_numeric` also accepts exponents,
  whitespace, "inf" and leading "." forms. Only an optional sign, digits and an
  optional fraction are modelled.
- MappingTable.ParseNumeric: the model needs at least one digit after a '.'.
  pandas reads "5." as 5.0 and keeps that row, while the model drops it.
- MappingTable.ParseNumeric: pandas reads "inf" as infinity, which survives
  `dropna`, and then `astype(int)` raises. The model drops that row instead of
  failing.
- MappingTable.LoadMapping: the dtype inference of `read_csv` (a column read
  as numbers rather than text) is not modelled. Cells are text or empty.
- MappingTable.LoadMapping: the printed warning is modelled as the returned
  dropped count.
- The per-column `round` loop over the rate columns is modelled as rounding
  each rate cell.
- GroupByMnc.MncKey: metric values are None, booleans, integers and strings.
  Floats and other Python objects are left out, because their `str` is
  floating point or unspecified.
