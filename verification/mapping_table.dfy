/** `DataRepository.load_mapping_file` after the CSV has been read: header
    validation, column selection and renaming, whitespace trimming, numeric
    coercion of the eNodeB id and the dropping (and counting) of rows whose id is
    not a number. */
module MappingTable {
  import opened Wrappers
  import opened Text
  import opened Entities

  /** A field as `read_csv` delivers it: its text, or NaN for an empty field. */
  datatype Cell = Text(text: string) | Blank

  /** The columns the table must have, in the order they are checked and selected. */
  const REQUIRED_COLUMNS: seq<string> := ["TOWER ID", "SWE_L5", "eNodeBId"]

  datatype MappingError =
    | MissingColumns(missing: seq<string>, available: seq<string>)
      // the `ValueError` listing the missing names and every available column
    | DuplicatedColumns(available: seq<string>)
      // the length mismatch raised when a required name occurs twice after trimming

  /** The cleaned table and the number of rows dropped for an invalid eNodeB id. */
  datatype Loaded = Loaded(mappings: seq<TowerMapping>, dropped: nat)

  /** Where the three required columns sit in the header. */
  datatype Positions = Positions(tower: nat, swe: nat, enodeb: nat)

  /** `astype(str)`: the text of a field, "nan" for an empty one. */
  function AsText(c: Cell): string
  {
    match c
    case Text(s) => s
    case Blank => "nan"
  }

  /** The field at a position; a short row is padded with NaN. */
  function CellAt(row: seq<Cell>, i: nat): Cell
  {
    if i < |row| then row[i] else Blank
  }

  /** `df.columns.str.strip()`. */
  function StripHeader(header: seq<string>): (cols: seq<string>)
    ensures |cols| == |header|
    ensures forall i | 0 <= i < |header| :: cols[i] == Strip(header[i])
  {
    if header == [] then [] else [Strip(header[0])] + StripHeader(header[1..])
  }

  /** `a` is `b` with some elements left out, the rest kept in order. */
  predicate IsSubsequence<T(==)>(a: seq<T>, b: seq<T>)
    decreases |b|
  {
    a == [] || (b != [] && ((a[0] == b[0] && IsSubsequence(a[1..], b[1..])) || IsSubsequence(a, b[1..])))
  }

  /** The required names absent from the columns, in the order they are required. */
  function MissingFrom(required: seq<string>, cols: seq<string>): (missing: seq<string>)
    ensures forall name :: name in missing <==> name in required && name !in cols
    ensures IsSubsequence(missing, required)
  {
    if required == [] then []
    else
      var rest := MissingFrom(required[1..], cols);
      if required[0] in cols then rest
      else
        assert ([required[0]] + rest)[1..] == rest;
        [required[0]] + rest
  }

  function Occurrences(cols: seq<string>, name: string): (n: nat)
    ensures n == 0 <==> name !in cols
  {
    if cols == [] then 0 else (if cols[0] == name then 1 else 0) + Occurrences(cols[1..], name)
  }

  /** Every required name occurs at most once, so the selection has three columns. */
  predicate SelectsThreeColumns(cols: seq<string>)
  {
    forall name | name in REQUIRED_COLUMNS :: Occurrences(cols, name) <= 1
  }

  /** The position of the first column with a given name. */
  function IndexOf(cols: seq<string>, name: string): (i: nat)
    requires name in cols
    ensures i < |cols| && cols[i] == name && name !in cols[..i]
  {
    if cols[0] == name then 0
    else
      var i := 1 + IndexOf(cols[1..], name);
      assert cols[..i] == [cols[0]] + cols[1..][..i - 1];
      i
  }

  function Locate(cols: seq<string>): (pos: Positions)
    requires MissingFrom(REQUIRED_COLUMNS, cols) == []
    ensures pos.tower < |cols| && pos.swe < |cols| && pos.enodeb < |cols|
    ensures cols[pos.tower] == "TOWER ID" && cols[pos.swe] == "SWE_L5" && cols[pos.enodeb] == "eNodeBId"
  {
    assert "TOWER ID" in REQUIRED_COLUMNS && "SWE_L5" in REQUIRED_COLUMNS && "eNodeBId" in REQUIRED_COLUMNS;
    Positions(IndexOf(cols, "TOWER ID"), IndexOf(cols, "SWE_L5"), IndexOf(cols, "eNodeBId"))
  }

  /** `pd.to_numeric(..., errors='coerce')` followed by `astype(int)`: an optional
      sign, decimal digits and an optional decimal fraction; the fraction is
      discarded, which truncates toward zero. `None` is the NaN of a value that
      is not a number. */
  function ParseNumeric(s: string): (r: Option<int>)
    ensures r.Some? ==> |s| > 0 && forall i | 0 <= i < |s| :: IsDigit(s[i]) || s[i] == '.' || (i == 0 && (s[i] == '-' || s[i] == '+'))
  {
    var parts := Split(s, '.');
    JoinSplit(s, '.');
    if |parts| == 1 then ParseInt(s)
    else if |parts| == 2 && |parts[1]| > 0 && AllDigits(parts[1]) then
      match ParseInt(parts[0])
      case None => None
      case Some(whole) =>
        assert s == parts[0] + "." + parts[1];
        assert forall i | 0 <= i < |s| :: (i < |parts[0]| ==> s[i] == parts[0][i]) && (i > |parts[0]| ==> s[i] == parts[1][i - |parts[0]| - 1]);
        Some(whole)
    else None
  }

  /** An integer written out in decimal reads back as itself. */
  lemma ParseNumericOfInt(n: int)
    ensures ParseNumeric(IntToString(n)) == Some(n)
  {
    ParseIntOfIntToString(n);
    SplitWithoutSeparator(IntToString(n), '.');
  }

  /** A decimal fraction is discarded: `n.f` reads as `n`, toward zero for a negative value. */
  lemma ParseNumericTruncates(n: int, fraction: string)
    requires |fraction| > 0 && AllDigits(fraction)
    ensures ParseNumeric(IntToString(n) + "." + fraction) == Some(n)
  {
    var whole := IntToString(n);
    ParseIntOfIntToString(n);
    assert '.' !in fraction;
    SplitAtSeparator(whole, fraction, '.');
    SplitWithoutSeparator(fraction, '.');
  }

  /** One row after selection, trimming and coercion; `None` when its eNodeB id is NaN. */
  function CleanRow(row: seq<Cell>, pos: Positions): (r: Option<TowerMapping>)
    ensures CellAt(row, pos.enodeb) == Blank ==> r == None
    ensures r.Some? <==> ParseNumeric(AsText(CellAt(row, pos.enodeb))).Some?
  {
    var id := ParseNumeric(AsText(CellAt(row, pos.enodeb)));
    if id.None? then None
    else Some(TowerMapping(Strip(AsText(CellAt(row, pos.tower))), Strip(AsText(CellAt(row, pos.swe))), id.value))
  }

  /** The present values of a column of optional values, in order. */
  function Somes<T>(xs: seq<Option<T>>): (kept: seq<T>)
    ensures |kept| <= |xs|
  {
    if xs == [] then []
    else
      var last := xs[|xs| - 1];
      Somes(xs[..|xs| - 1]) + (if last.Some? then [last.value] else [])
  }

  /** The number of absent values. */
  function CountNone<T>(xs: seq<Option<T>>): nat
  {
    if xs == [] then 0 else CountNone(xs[..|xs| - 1]) + (if xs[|xs| - 1].None? then 1 else 0)
  }

  lemma {:induction false} SomeIsKept<T>(xs: seq<Option<T>>, i: nat)
    requires i < |xs| && xs[i].Some?
    ensures xs[i].value in Somes(xs)
  {
    var init := xs[..|xs| - 1];
    if i < |init| {
      assert xs[i] == init[i];
      SomeIsKept(init, i);
    }
  }

  lemma {:induction false} KeptIsSome<T>(xs: seq<Option<T>>, m: T)
    requires m in Somes(xs)
    ensures exists i | 0 <= i < |xs| :: xs[i] == Some(m)
  {
    var init := xs[..|xs| - 1];
    if m in Somes(init) {
      KeptIsSome(init, m);
      var i :| 0 <= i < |init| && init[i] == Some(m);
      assert xs[i] == init[i];
    } else {
      assert xs[|xs| - 1] == Some(m);
    }
  }

  lemma {:induction false} NonesAreDropped<T>(xs: seq<Option<T>>)
    ensures |xs| - |Somes(xs)| == CountNone(xs)
  {
    if xs != [] {
      NonesAreDropped(xs[..|xs| - 1]);
    }
  }

  /** The cleaned rows, one optional mapping per input row. */
  function Cleaned(rows: seq<seq<Cell>>, pos: Positions): (cleaned: seq<Option<TowerMapping>>)
    ensures |cleaned| == |rows|
    ensures forall i | 0 <= i < |rows| :: cleaned[i] == CleanRow(rows[i], pos)
  {
    seq(|rows|, i requires 0 <= i < |rows| => CleanRow(rows[i], pos))
  }

  /** `dropna(subset=['enodeb_id'])` over the cleaned rows, keeping their order. */
  function Survivors(rows: seq<seq<Cell>>, pos: Positions): seq<TowerMapping>
  {
    Somes(Cleaned(rows, pos))
  }

  /** The number of rows whose eNodeB id is not a number. */
  function InvalidCount(rows: seq<seq<Cell>>, pos: Positions): nat
  {
    CountNone(Cleaned(rows, pos))
  }

  /** The rows that survive are exactly the cleaned rows with a numeric id. */
  lemma SurvivorsAreTheNumericRows(rows: seq<seq<Cell>>, pos: Positions)
    ensures forall i | 0 <= i < |rows| && CleanRow(rows[i], pos).Some? :: CleanRow(rows[i], pos).value in Survivors(rows, pos)
    ensures forall m | m in Survivors(rows, pos) :: exists i | 0 <= i < |rows| :: CleanRow(rows[i], pos) == Some(m)
    ensures |rows| - |Survivors(rows, pos)| == InvalidCount(rows, pos)
  {
    var cleaned := Cleaned(rows, pos);
    forall i | 0 <= i < |rows| && CleanRow(rows[i], pos).Some?
      ensures CleanRow(rows[i], pos).value in Survivors(rows, pos)
    {
      SomeIsKept(cleaned, i);
    }
    forall m | m in Survivors(rows, pos)
      ensures exists i | 0 <= i < |rows| :: CleanRow(rows[i], pos) == Some(m)
    {
      KeptIsSome(cleaned, m);
    }
    NonesAreDropped(cleaned);
  }

  /** Every surviving tower id and SWE_L5 value is already trimmed. */
  lemma SurvivorsAreTrimmed(rows: seq<seq<Cell>>, pos: Positions)
    ensures forall m | m in Survivors(rows, pos) :: Strip(m.towerId) == m.towerId && Strip(m.sweL5) == m.sweL5
  {
    SurvivorsAreTheNumericRows(rows, pos);
    forall m | m in Survivors(rows, pos)
      ensures Strip(m.towerId) == m.towerId && Strip(m.sweL5) == m.sweL5
    {
      var i :| 0 <= i < |rows| && CleanRow(rows[i], pos) == Some(m);
      StripIdempotent(AsText(CellAt(rows[i], pos.tower)));
      StripIdempotent(AsText(CellAt(rows[i], pos.swe)));
    }
  }

  /** `load_mapping_file` from the point where the CSV has been read. */
  method LoadMapping(header: seq<string>, rows: seq<seq<Cell>>) returns (r: Result<Loaded, MappingError>)
    ensures var cols := StripHeader(header);
      var missing := MissingFrom(REQUIRED_COLUMNS, cols);
      && (missing != [] ==> r == Failure(MissingColumns(missing, cols)))
      && (missing == [] && !SelectsThreeColumns(cols) ==> r == Failure(DuplicatedColumns(cols)))
      && (missing == [] && SelectsThreeColumns(cols) ==>
            && r.Success?
            && r.value.mappings == Survivors(rows, Locate(cols))
            && r.value.dropped == InvalidCount(rows, Locate(cols)))
  {
    var cols := StripHeader(header);
    var missing := MissingFrom(REQUIRED_COLUMNS, cols);
    if missing != [] {
      return Failure(MissingColumns(missing, cols));
    }
    if !SelectsThreeColumns(cols) {
      return Failure(DuplicatedColumns(cols));
    }
    var pos := Locate(cols);
    var initialCount := |rows|;
    var kept := Survivors(rows, pos);
    var droppedCount := initialCount - |kept|;
    SurvivorsAreTheNumericRows(rows, pos);
    return Success(Loaded(kept, droppedCount));
  }
}
