/** The separator-based cell identifier: the `CellIdentifier` value with its
    `full_id` text, and the permissive `extract_cell_id` parser. */
module CellIdentifiers {
  import opened Wrappers
  import opened Text

  /** MCC, MNC, eNodeB and cell id as Python integers (immutable). */
  datatype CellIdentifier = CellIdentifier(mcc: int, mnc: int, enodeb: int, cellId: int)

  predicate NonNegative(c: CellIdentifier)
  {
    c.mcc >= 0 && c.mnc >= 0 && c.enodeb >= 0 && c.cellId >= 0
  }

  /** The four fields in decimal, unpadded, in the order of `full_id`. */
  function Fields(c: CellIdentifier): seq<string>
  {
    [IntToString(c.mcc), IntToString(c.mnc), IntToString(c.enodeb), IntToString(c.cellId)]
  }

  /** `full_id`: the four fields with '-' between them. */
  function FullId(c: CellIdentifier): string
  {
    Join(Fields(c), '-')
  }

  /** With non-negative fields the identifier text has exactly three '-', and
      splitting on them gives back the four decimal fields in order. */
  lemma FullIdPieces(c: CellIdentifier)
    requires NonNegative(c)
    ensures Split(FullId(c), '-') == Fields(c)
    ensures CountChar(FullId(c), '-') == 3
  {
    var parts := Fields(c);
    forall i | 0 <= i < 4 ensures '-' !in parts[i] {
      assert AllDigits(parts[i]);
    }
    SplitJoin(parts, '-');
  }

  /** `map(int, parts[:4])` into a `CellIdentifier`; `None` for the `ValueError`. */
  function ParseFour(parts: seq<string>): (r: Option<CellIdentifier>)
    requires |parts| >= 4
    ensures r.Some? <==> forall i | 0 <= i < 4 :: ParseInt(parts[i]).Some?
    ensures r.Some? ==>
      && Some(r.value.mcc) == ParseInt(parts[0]) && Some(r.value.mnc) == ParseInt(parts[1])
      && Some(r.value.enodeb) == ParseInt(parts[2]) && Some(r.value.cellId) == ParseInt(parts[3])
  {
    var mcc, mnc, enodeb, cellId := ParseInt(parts[0]), ParseInt(parts[1]), ParseInt(parts[2]), ParseInt(parts[3]);
    if mcc.Some? && mnc.Some? && enodeb.Some? && cellId.Some? then
      Some(CellIdentifier(mcc.value, mnc.value, enodeb.value, cellId.value))
    else None
  }

  /** `extract_cell_id`: `None` for a missing or empty text; four '-' pieces are
      parsed and nothing else is tried; otherwise ',' and then '/' are tried, the
      first present one that gives at least four pieces deciding the result. */
  function ExtractCellId(cell: Option<string>): (r: Option<CellIdentifier>)
    ensures cell.None? || cell == Some("") ==> r.None?
    ensures cell.Some? && CountChar(cell.value, '-') != 3 && CountChar(cell.value, ',') < 3 && CountChar(cell.value, '/') < 3
      ==> r.None?
  {
    if cell.None? || cell.value == "" then None
    else
      var s := cell.value;
      var dashed := Split(s, '-');
      if |dashed| == 4 then ParseFour(dashed)
      else if ',' in s && |Split(s, ',')| >= 4 then ParseFour(Split(s, ','))
      else if '/' in s && |Split(s, '/')| >= 4 then ParseFour(Split(s, '/'))
      else None
  }

  /** Pieces joined by a separator they do not contain: the text has one
      separator fewer than there are pieces. */
  lemma JoinedCount(parts: seq<string>, sep: char)
    requires |parts| > 0 && forall i | 0 <= i < |parts| :: sep !in parts[i]
    ensures CountChar(Join(parts, sep), sep) == |parts| - 1
    ensures |parts| > 1 ==> sep in Join(parts, sep)
  {
    SplitJoin(parts, sep);
  }

  /** Four '-' pieces decide the result, whether or not they parse and whatever
      ',' or '/' they contain: the fallbacks are not tried. */
  lemma DashedTextIsFinal(parts: seq<string>)
    requires |parts| == 4 && forall i | 0 <= i < 4 :: '-' !in parts[i]
    ensures ExtractCellId(Some(Join(parts, '-'))) == ParseFour(parts)
  {
    SplitJoin(parts, '-');
  }

  /** Without exactly three '-', a text of at least four ','-pieces is read from
      its first four pieces. */
  lemma CommaFallback(parts: seq<string>)
    requires |parts| >= 4 && forall i | 0 <= i < |parts| :: ',' !in parts[i]
    requires CountChar(Join(parts, ','), '-') != 3
    ensures ExtractCellId(Some(Join(parts, ','))) == ParseFour(parts)
  {
    JoinedCount(parts, ',');
    SplitJoin(parts, ',');
  }

  /** ',' comes before '/': only when ',' gives fewer than four pieces is a text
      of at least four '/'-pieces read from its first four pieces. */
  lemma SlashFallback(parts: seq<string>)
    requires |parts| >= 4 && forall i | 0 <= i < |parts| :: '/' !in parts[i]
    requires CountChar(Join(parts, '/'), '-') != 3 && CountChar(Join(parts, '/'), ',') < 3
    ensures ExtractCellId(Some(Join(parts, '/'))) == ParseFour(parts)
  {
    var s := Join(parts, '/');
    JoinedCount(parts, '/');
    SplitJoin(parts, '/');
    assert |Split(s, '-')| != 4;
    assert !(',' in s && |Split(s, ',')| >= 4);
  }

  /** `full_id` and `extract_cell_id` are partners: the text of an identifier
      with non-negative fields parses back to the same identifier. */
  lemma ExtractFullId(c: CellIdentifier)
    requires NonNegative(c)
    ensures ExtractCellId(Some(FullId(c))) == Some(c)
  {
    FullIdPieces(c);
    ParseIntOfIntToString(c.mcc);
    ParseIntOfIntToString(c.mnc);
    ParseIntOfIntToString(c.enodeb);
    ParseIntOfIntToString(c.cellId);
  }

  /** There is no hexadecimal branch: a text starting with "0x" never parses,
      whichever separator it uses. */
  lemma HexIsRejected(s: string)
    requires |s| >= 2 && s[..2] == "0x"
    ensures ExtractCellId(Some(s)) == None
  {
    forall sep | sep in "-,/" ensures ParseInt(Split(s, sep)[0]).None? {
      SplitFirstPieceKeepsPrefix(s, sep, 2);
      var first := Split(s, sep)[0];
      assert first[1] == 'x';
    }
  }

  lemma SmallNumerals()
    ensures ParseInt("1") == Some(1) && ParseInt("2") == Some(2) && ParseInt("3") == Some(3) && ParseInt("4") == Some(4)
  {
    assert DecimalValue("1") == 1 && DecimalValue("2") == 2 && DecimalValue("3") == 3 && DecimalValue("4") == 4;
  }

  /** Four '-' pieces that do not all parse give `None` even where the ','
      pieces would give 1-2-3-4. */
  lemma DashPiecesAreFinalExample()
    ensures ExtractCellId(Some(Join(["1,2,3,4,x", "y", "z", "w"], '-'))) == None
    ensures ParseFour(["1", "2", "3", "4", "x-y-z-w"]) == Some(CellIdentifier(1, 2, 3, 4))
  {
    var dashed := ["1,2,3,4,x", "y", "z", "w"];
    DashedTextIsFinal(dashed);
    assert ParseInt(dashed[0]) == None by {
      assert !IsDigit(dashed[0][1]);
    }
    SmallNumerals();
  }
}
