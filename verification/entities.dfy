/** The value objects of the decoder: the operator directory, the decoded
    `NetworkIdentifier` of a packed CGI/SAI cell identifier, and a row of the
    tower mapping table. */
module Entities {
  import opened Wrappers
  import opened Text

  /** The Indonesian operators, keyed by five-character PLMN code (MCC + MNC). */
  const INDONESIA_OPERATORS: map<string, string> := map[
    "51010" := "Telkomsel",
    "51001" := "Telkomsel",
    "51021" := "Indosat",
    "51011" := "XL",
    "51009" := "SF",
    "51028" := "SF",
    "51089" := "Tri",
    "51088" := "Tri",
    "51008" := "Axis",
    "51027" := "Bolt"
  ]

  const UNKNOWN_OPERATOR: string := "Unknown"

  /** `INDONESIA_OPERATORS.get(plmn, "Unknown")`: a lookup that never fails. */
  function OperatorName(plmn: string): string
  {
    if plmn in INDONESIA_OPERATORS then INDONESIA_OPERATORS[plmn] else UNKNOWN_OPERATOR
  }

  lemma OperatorCodes()
    ensures INDONESIA_OPERATORS.Keys
         == {"51010", "51001", "51021", "51011", "51009", "51028", "51089", "51088", "51008", "51027"}
  {
  }

  /** The directory holds exactly ten codes. */
  lemma OperatorCount()
    ensures |INDONESIA_OPERATORS| == 10
  {
    OperatorCodes();
  }

  /** The operator is "Unknown" exactly for codes that are not in the directory. */
  lemma UnknownIffNotListed(plmn: string)
    ensures OperatorName(plmn) == UNKNOWN_OPERATOR <==> plmn !in INDONESIA_OPERATORS
  {
    if plmn in INDONESIA_OPERATORS {
      var name := INDONESIA_OPERATORS[plmn];
      assert name == "Telkomsel" || name == "Indosat" || name == "XL" || name == "SF"
          || name == "Tri" || name == "Axis" || name == "Bolt";
    }
  }

  /** A decoded cell identifier. */
  datatype NetworkIdentifier = NetworkIdentifier(
    mcc: string,
    mnc: string,
    plmn: string,
    enodebId: nat,
    cellId: nat,
    operator: string)

  /** One cleaned row of the tower mapping table. */
  datatype TowerMapping = TowerMapping(towerId: string, sweL5: string, enodebId: int)

  /** The `ValueError` raised by `int(..., 16)` on the field that is not hexadecimal. */
  datatype DecodeError = BadENodeBField(text: string) | BadCellField(text: string)

  const CGISAI_WIDTH: nat := 12

  /** `NetworkIdentifier.from_cgisai`: zero-fill to 12 characters, then read the
      fields PLMN = [0, 5) (MCC = [0, 3), MNC = [3, 5)), eNodeB = [5, 10) in
      hexadecimal and cell = [10, 12) in hexadecimal. */
  function FromCgisai(cgisai: string): (r: Result<NetworkIdentifier, DecodeError>)
    ensures var p := ZFill(cgisai, CGISAI_WIDTH);
      && (r.Success? <==> AllHex(p[5..10]) && AllHex(p[10..12]))
      && (!AllHex(p[5..10]) ==> r == Failure(BadENodeBField(p[5..10])))
      && (AllHex(p[5..10]) && !AllHex(p[10..12]) ==> r == Failure(BadCellField(p[10..12])))
    ensures r.Success? ==>
      var id := r.value;
      && id.plmn == ZFill(cgisai, CGISAI_WIDTH)[..5]
      && |id.mcc| == 3 && |id.mnc| == 2 && id.plmn == id.mcc + id.mnc
      && id.enodebId < 0x10_0000 && id.cellId < 0x100
      && id.operator == OperatorName(id.plmn)
    ensures r.Success? ==>
      var p := ZFill(cgisai, CGISAI_WIDTH);
      r.value.enodebId == HexValue(p[5..10]) && r.value.cellId == HexValue(p[10..12])
  {
    DecodeFields(ZFill(cgisai, CGISAI_WIDTH))
  }

  /** The field reading of `from_cgisai`, on the already zero-filled text. */
  function DecodeFields(padded: string): Result<NetworkIdentifier, DecodeError>
    requires |padded| >= CGISAI_WIDTH
  {
    var plmn := padded[..5];
    var enodebHex := padded[5..10];
    var cellHex := padded[10..12];
    match ParseHex(enodebHex)
    case None => Failure(BadENodeBField(enodebHex))
    case Some(enodebId) =>
      match ParseHex(cellHex)
      case None => Failure(BadCellField(cellHex))
      case Some(cellId) =>
        assert Pow(16, 5) == 0x10_0000 && Pow(16, 2) == 0x100;
        Success(NetworkIdentifier(plmn[..3], plmn[3..5], plmn, enodebId, cellId, OperatorName(plmn)))
  }

  /** The packed form of a PLMN code, an eNodeB id and a cell id: the inverse the
      decoder is checked against. */
  function Encode(plmn: string, enodebId: nat, cellId: nat): string
  {
    plmn + PadHex(enodebId, 5) + PadHex(cellId, 2)
  }

  lemma DecodeEncode(plmn: string, enodebId: nat, cellId: nat)
    requires |plmn| == 5 && enodebId < 0x10_0000 && cellId < 0x100
    ensures FromCgisai(Encode(plmn, enodebId, cellId))
         == Success(NetworkIdentifier(plmn[..3], plmn[3..], plmn, enodebId, cellId, OperatorName(plmn)))
  {
    var s := Encode(plmn, enodebId, cellId);
    assert ZFill(s, CGISAI_WIDTH) == s;
    assert s[..5] == plmn && s[5..10] == PadHex(enodebId, 5) && s[10..12] == PadHex(cellId, 2);
    assert Pow(16, 5) == 0x10_0000 && Pow(16, 2) == 0x100;
    HexValueOfPadHex(enodebId, 5);
    HexValueOfPadHex(cellId, 2);
  }

  /** Characters after the twelfth are never read. */
  lemma TrailingCharactersIgnored(cgisai: string)
    requires |cgisai| >= CGISAI_WIDTH
    ensures FromCgisai(cgisai) == FromCgisai(cgisai[..CGISAI_WIDTH])
  {
    var head := cgisai[..CGISAI_WIDTH];
    assert ZFill(cgisai, CGISAI_WIDTH) == cgisai && ZFill(head, CGISAI_WIDTH) == head;
    assert cgisai[..5] == head[..5] && cgisai[5..10] == head[5..10] && cgisai[10..12] == head[10..12];
    assert DecodeFields(cgisai) == DecodeFields(head);
  }

  /** "510101234501" is Telkomsel's PLMN 51010, eNodeB 0x12345 and cell 0x01. */
  lemma Example510101234501()
    ensures FromCgisai("510101234501")
         == Success(NetworkIdentifier("510", "10", "51010", 74565, 1, "Telkomsel"))
  {
    var s := "510101234501";
    assert ZFill(s, CGISAI_WIDTH) == s;
    var enodeb, cell := s[5..10], s[10..12];
    assert enodeb == "12345" && cell == "01";
    assert HexValue(enodeb) == 74565 by {
      assert enodeb[..4] == "1234" && "1234"[..3] == "123" && "123"[..2] == "12" && "12"[..1] == "1";
      assert HexValue("1") == 1 && HexValue("12") == 0x12 && HexValue("123") == 0x123 && HexValue("1234") == 0x1234;
    }
    assert HexValue(cell) == 1 by {
      assert cell[..1] == "0" && HexValue("0") == 0;
    }
    assert s[..5] == "51010" && "51010"[..3] == "510" && "51010"[3..5] == "10";
  }
}
