/** The shape of the two daily reports: the fixed 22-column order, the cells of
    one output row, and the empty frame returned for an empty input. */
module Report {
  import opened Counters
  import opened Kpi

  /** A cell of an output row. */
  datatype Value = Str(s: string) | Whole(n: int) | Decimal(x: real)

  /** `pd.DataFrame()` for an empty input, otherwise the selected columns and one row per group. */
  datatype Frame = EmptyFrame | Frame(columns: seq<string>, rows: seq<seq<Value>>)

  /** The seventeen metric columns shared by both reports, after the five key columns. */
  const METRIC_COLUMNS: seq<string> := [
    "E2E Delay(ms)",
    "TCP Connect Delay(ms)",
    "TCP Connect RTT Count(times)",
    "SYN-SYN ACK Delay(ms)",
    "TCP Connect Step1 Delay(ms)",
    "TCP Connect RTT Step1 Count(times)",
    "SYN ACK-ACK Delay(ms)",
    "Server Side Uplink TCP Packet Loss Rate(%)",
    "Server Side Uplink TCP Packet Losses(Packets)",
    "TCP Uplink Packets (with Payload)(Packets)",
    "Server Side Downlink TCP Packet Loss Rate(%)",
    "Server Side Downlink TCP Packet Losses",
    "TCP Downlink Packets (with Payload)(Packets)",
    "Client Side Uplink TCP Packet Loss Rate(%)",
    "Client Side Uplink TCP Packet Losses(Packets)",
    "Client Side Downlink TCP Packet Loss Rate(%)",
    "Client Side Downlink TCP Packet Losses(Packets)"
  ]

  const MAPPED_COLUMNS: seq<string> := ["Opr", "Date", "NATIONAL", "SWE_L5", "SWE_L6"] + METRIC_COLUMNS
  const UNMAPPED_COLUMNS: seq<string> := ["Opr", "Date", "NATIONAL", "PLMN", "eNodeBID"] + METRIC_COLUMNS

  /** Both reports have 22 columns and differ only in the fourth and fifth. */
  lemma ColumnLayout()
    ensures |MAPPED_COLUMNS| == 22 && |UNMAPPED_COLUMNS| == 22
    ensures MAPPED_COLUMNS[..5] == ["Opr", "Date", "NATIONAL", "SWE_L5", "SWE_L6"]
    ensures UNMAPPED_COLUMNS[..5] == ["Opr", "Date", "NATIONAL", "PLMN", "eNodeBID"]
    ensures MAPPED_COLUMNS[5..] == UNMAPPED_COLUMNS[5..] == METRIC_COLUMNS
  {
    assert MAPPED_COLUMNS[5..] == METRIC_COLUMNS;
    assert UNMAPPED_COLUMNS[5..] == METRIC_COLUMNS;
  }

  /** The name marks a loss-rate column: it contains "(%)". */
  predicate IsRateColumn(name: string)
  {
    exists i | 0 <= i < |name| - 2 :: name[i] == '(' && name[i + 1] == '%' && name[i + 2] == ')'
  }

  /** The metric cells of a group with summed counters `c`, in column order. */
  function MetricCells(c: Counters): (cells: seq<Value>)
    ensures |cells| == |METRIC_COLUMNS|
  {
    var k := DeriveKpis(c);
    [ Whole(k.e2eDelay),
      Whole(c.tcpRtt),
      Whole(c.tcpRttGoodCount),
      Whole(k.synSynAckDelay),
      Whole(c.tcpRttStep1),
      Whole(c.tcpRttStep1GoodCount),
      Whole(k.synAckAckDelay),
      Decimal(k.serverUlLossRate),
      Whole(c.serverProbeUlLostPkt),
      Whole(c.tcpUlPackagesWithpl),
      Decimal(k.serverDlLossRate),
      Whole(c.serverProbeDwLostPkt),
      Whole(c.tcpDlPackagesWithpl),
      Decimal(k.clientUlLossRate),
      Whole(c.userProbeUlLostPkt),
      Decimal(k.clientDlLossRate),
      Whole(c.userProbeDwLostPkt) ]
  }

  /** The four rate columns are the ones rounded to two decimals; every other
      metric column holds a whole number. */
  lemma RateColumnsHoldCents(c: Counters)
    ensures forall i | 0 <= i < |METRIC_COLUMNS| ::
      MetricCells(c)[i].Decimal? <==> i in {7, 10, 13, 15}
    ensures forall i | 0 <= i < |METRIC_COLUMNS| && MetricCells(c)[i].Decimal? :: IsCents(MetricCells(c)[i].x)
  {
  }

  /** The metric columns whose name contains "(%)" are exactly the four rate
      columns, the ones rounded to two decimals. */
  lemma RateColumnsAreMarked()
    ensures forall i | 0 <= i < |METRIC_COLUMNS| :: IsRateColumn(METRIC_COLUMNS[i]) <==> i in {7, 10, 13, 15}
  {
    forall i | 0 <= i < |METRIC_COLUMNS|
      ensures IsRateColumn(METRIC_COLUMNS[i]) <==> i in {7, 10, 13, 15}
    {
      var name := METRIC_COLUMNS[i];
      if i in {7, 10, 13, 15} {
        var j := |name| - 3;
        assert name[j] == '(' && name[j + 1] == '%' && name[j + 2] == ')';
      } else {
        NoPercent(i);
      }
    }
  }

  /** The other metric names have no '%' at all: each is split into short
      pieces, and none of the pieces has one. */
  lemma NoPercent(i: nat)
    requires i < |METRIC_COLUMNS| && i !in {7, 10, 13, 15}
    ensures !IsRateColumn(METRIC_COLUMNS[i])
  {
    if i == 0 {
      NameInPieces0();
      assert '%' !in "E2E Delay(ms)";
    } else if i == 1 {
      NameInPieces1();
      assert '%' !in "TCP Connect " + "Delay(ms)";
    } else if i == 2 {
      NameInPieces2();
      assert '%' !in "TCP Connect " + "RTT Count" + "(times)";
    } else if i == 3 {
      NameInPieces3();
      assert '%' !in "SYN-SYN ACK " + "Delay(ms)";
    } else if i == 4 {
      NameInPieces4();
      assert '%' !in "TCP Connect " + "Step1 Delay" + "(ms)";
    } else if i == 5 {
      NameInPieces5();
      assert '%' !in "TCP Connect " + "RTT Step1 " + "Count(times)";
    } else if i == 6 {
      NameInPieces6();
      assert '%' !in "SYN ACK-ACK " + "Delay(ms)";
    } else if i == 8 {
      NameInPieces8();
      assert '%' !in "Server Side " + "Uplink TCP " + "Packet Losses" + "(Packets)";
    } else if i == 9 {
      NameInPieces9();
      assert '%' !in "TCP Uplink " + "Packets " + "(with Payload)" + "(Packets)";
    } else if i == 11 {
      NameInPieces11();
      assert '%' !in "Server Side " + "Downlink TCP " + "Packet Losses";
    } else if i == 12 {
      NameInPieces12();
      assert '%' !in "TCP Downlink " + "Packets " + "(with Payload)" + "(Packets)";
    } else if i == 14 {
      NameInPieces14();
      assert '%' !in "Client Side " + "Uplink TCP " + "Packet Losses" + "(Packets)";
    } else if i == 16 {
      NameInPieces16();
      assert '%' !in "Client Side " + "Downlink TCP " + "Packet Losses" + "(Packets)";
    }
    PercentFreeIsNotRate(METRIC_COLUMNS[i]);
  }

  // Proof scaffolding for NoPercent: each lemma below splits one long metric
  // name into short literals, which the solver can search for '%' cheaply.

  lemma NameInPieces0()
    ensures METRIC_COLUMNS[0] == "E2E Delay(ms)"
  {
  }

  lemma NameInPieces1()
    ensures METRIC_COLUMNS[1] == "TCP Connect " + "Delay(ms)"
  {
  }

  lemma NameInPieces2()
    ensures METRIC_COLUMNS[2] == "TCP Connect " + "RTT Count" + "(times)"
  {
  }

  lemma NameInPieces3()
    ensures METRIC_COLUMNS[3] == "SYN-SYN ACK " + "Delay(ms)"
  {
  }

  lemma NameInPieces4()
    ensures METRIC_COLUMNS[4] == "TCP Connect " + "Step1 Delay" + "(ms)"
  {
  }

  lemma NameInPieces5()
    ensures METRIC_COLUMNS[5] == "TCP Connect " + "RTT Step1 " + "Count(times)"
  {
  }

  lemma NameInPieces6()
    ensures METRIC_COLUMNS[6] == "SYN ACK-ACK " + "Delay(ms)"
  {
  }

  lemma NameInPieces8()
    ensures METRIC_COLUMNS[8] == "Server Side " + "Uplink TCP " + "Packet Losses" + "(Packets)"
  {
  }

  lemma NameInPieces9()
    ensures METRIC_COLUMNS[9] == "TCP Uplink " + "Packets " + "(with Payload)" + "(Packets)"
  {
  }

  lemma NameInPieces11()
    ensures METRIC_COLUMNS[11] == "Server Side " + "Downlink TCP " + "Packet Losses"
  {
  }

  lemma NameInPieces12()
    ensures METRIC_COLUMNS[12] == "TCP Downlink " + "Packets " + "(with Payload)" + "(Packets)"
  {
  }

  lemma NameInPieces14()
    ensures METRIC_COLUMNS[14] == "Client Side " + "Uplink TCP " + "Packet Losses" + "(Packets)"
  {
  }

  lemma NameInPieces16()
    ensures METRIC_COLUMNS[16] == "Client Side " + "Downlink TCP " + "Packet Losses" + "(Packets)"
  {
  }

  /** A name without '%' is not a rate column. */
  lemma PercentFreeIsNotRate(name: string)
    requires '%' !in name
    ensures !IsRateColumn(name)
  {
  }

  /** The cells of an output row: the operator, the date, NATIONAL, two key
      columns of the report, then the metrics. A metric cell holds a decimal
      exactly under a column whose name contains "(%)", and that decimal has
      at most two places; every other metric cell is a whole number. */
  function Row(operator: string, date: string, fourth: Value, fifth: Value, c: Counters): (row: seq<Value>)
    ensures |row| == |MAPPED_COLUMNS| == |UNMAPPED_COLUMNS|
    ensures row[..5] == [Str(operator), Str(date), Str(National(operator)), fourth, fifth]
    ensures row[2].s == UNKNOWN <==> operator == UNKNOWN
    ensures row[5..] == MetricCells(c)
    ensures forall i | 5 <= i < |row| :: row[i].Decimal? <==> IsRateColumn(MAPPED_COLUMNS[i])
    ensures forall i | 5 <= i < |row| :: row[i].Decimal? || row[i].Whole?
    ensures forall i | 5 <= i < |row| && row[i].Decimal? :: IsCents(row[i].x)
  {
    MetricCellsFollowColumns(c);
    NationalIsInjective(operator, operator);
    [Str(operator), Str(date), Str(National(operator)), fourth, fifth] + MetricCells(c)
  }

  /** The metric cells, read under the column names of the mapped report. */
  lemma MetricCellsFollowColumns(c: Counters)
    ensures |MAPPED_COLUMNS| == |UNMAPPED_COLUMNS| == 5 + |METRIC_COLUMNS|
    ensures forall i | 5 <= i < |MAPPED_COLUMNS| ::
      MetricCells(c)[i - 5].Decimal? <==> IsRateColumn(MAPPED_COLUMNS[i])
    ensures forall j | 0 <= j < |METRIC_COLUMNS| :: MetricCells(c)[j].Decimal? || MetricCells(c)[j].Whole?
    ensures forall j | 0 <= j < |METRIC_COLUMNS| && MetricCells(c)[j].Decimal? :: IsCents(MetricCells(c)[j].x)
  {
    ColumnLayout();
    RateColumnsHoldCents(c);
    RateColumnsAreMarked();
    forall i | 5 <= i < |MAPPED_COLUMNS|
      ensures MetricCells(c)[i - 5].Decimal? <==> IsRateColumn(MAPPED_COLUMNS[i])
    {
      assert MAPPED_COLUMNS[i] == MAPPED_COLUMNS[5..][i - 5] == METRIC_COLUMNS[i - 5];
    }
  }
}
