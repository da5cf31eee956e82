/**
 * The text one scan cycle of `app_main` writes: a count header, the table
 * header between two separators, one row per access point and a closing
 * separator. Lines are the formatted messages only; the log prefix that
 * ESP_LOGI adds (level, time stamp, tag) is not part of them.
 */
module ScanReport {
  import opened CTypes
  import opened Printf
  import opened ApRecords
  import opened Columns

  /** The separator line: 92 dashes. */
  const Rule: string := Fill('-', 92)

  /** The separator that closes a report carries one more newline, leaving a blank line between scans. */
  const ClosingRule: string := Rule + "\n"

  /**
   * "Found %u network%s": the count, which reads back, and the noun
   * "networks" for every count except 1, for which it is "network"
   * (0 included).
   */
  function Header(n: uint16): (h: string)
    ensures |h| >= 6 + |Digits(n)| && h[..6] == "Found "
    ensures ParseUnsigned(h[6..6 + |Digits(n)|]) == Some(n)
    ensures h[6 + |Digits(n)|..] == (if n == 1 then " network" else " networks")
  {
    var ds := Digits(n);
    var h := ("Found " + ds) + (" network" + (if n == 1 then "" else "s"));
    assert h[6..6 + |ds|] == ds;
    UnsignedRoundTrip(n);
    h
  }

  /** The cells of every line of the table but the last hold these widths. */
  const TableWidths: seq<nat> := [2, 32, 8, 4, 8]

  /** The cells of " # | %-32s | %8s | %4s | %-8s | %s" applied to SSID, RSSI, CH, AUTH and BSSID. */
  const ColumnHeaderCells: seq<string> :=
    [" #", PadRight("SSID", 32), PadLeft("RSSI", 8), PadLeft("CH", 4), PadRight("AUTH", 8), "BSSID"]

  const ColumnHeader: string := JoinColumns(ColumnHeaderCells)

  /** `%2d` of the index: right-justified in two columns, read back as the index. */
  function IndexCell(i: nat): (r: string)
    ensures |r| == if |Digits(i)| < 2 then 2 else |Digits(i)|
    ensures i < 100 ==> |r| == 2
    ensures TrimLeft(r) == Digits(i)
    ensures ParseUnsigned(TrimLeft(r)) == Some(i)
  {
    assert i < 100 ==> |Decimal(i)| <= 2 by {
      if i < 100 { DigitsFit(i, 2); }
    }
    PaddedUnsignedReads(i, 2);
    PadLeft(Decimal(i), 2)
  }

  /** `%4d dBm` of the RSSI: always eight columns, the number in the first four. */
  function RssiCell(rssi: int8): (r: string)
    ensures |r| == 8 && r[4..] == " dBm"
    ensures TrimLeft(r[..4]) == Decimal(rssi)
    ensures ParseSigned(TrimLeft(r[..4])) == Some(rssi)
  {
    DecimalFits(rssi, 3);
    PaddedDecimalReads(rssi, 4);
    var n := PadLeft(Decimal(rssi), 4);
    assert (n + " dBm")[..4] == n;
    n + " dBm"
  }

  /** `%4d` of the primary channel: always four columns, read back as the channel. */
  function ChannelCell(ch: byte): (r: string)
    ensures |r| == 4
    ensures TrimLeft(r) == Digits(ch)
    ensures ParseUnsigned(TrimLeft(r)) == Some(ch)
  {
    DigitsFit(ch, 3);
    PaddedUnsignedReads(ch, 4);
    PadLeft(Decimal(ch), 4)
  }

  /** `%-8s` of the authentication label: always eight columns, the label once the padding is dropped. */
  function AuthCell(m: AuthMode): (r: string)
    ensures |r| == 8
    ensures TrimRight(r) == AuthLabel(m)
  {
    var name := AuthLabel(m);
    assert name[|name| - 1] != ' ';
    PadRightTrim(name, 8);
    PadRight(name, 8)
  }

  /**
   * The cells of "%2d | %-32s | %4d dBm | %4d | %-8s | %02X:%02X:%02X:%02X:%02X:%02X":
   * the index, the SSID or "NONE" left-justified in 32 columns, the RSSI,
   * the primary channel, the authentication label and the BSSID.
   */
  function RowCells(i: nat, rec: ApRecord): (c: seq<string>)
    ensures |c| == 6 && |c[2]| == 8 && |c[3]| == 4 && |c[4]| == 8 && |c[5]| == 17
    ensures i < 100 ==> |c[0]| == 2
    ensures |SsidOrNone(rec.ssid)| <= 32 ==> |c[1]| == 32
    ensures c[0] == IndexCell(i) && c[1] == PadRight(SsidOrNone(rec.ssid), 32) && c[2] == RssiCell(rec.rssi)
    ensures c[3] == ChannelCell(rec.primary) && c[4] == AuthCell(rec.authmode) && c[5] == FormatBssid(rec.bssid)
  {
    SixCells(IndexCell(i), PadRight(SsidOrNone(rec.ssid), 32), RssiCell(rec.rssi),
                  ChannelCell(rec.primary), AuthCell(rec.authmode), FormatBssid(rec.bssid))
  }

  /** Six cells as one line's list of cells. */
  function SixCells(c0: string, c1: string, c2: string, c3: string, c4: string, c5: string): (c: seq<string>)
    ensures |c| == 6 && c[0] == c0 && c[1] == c1 && c[2] == c2 && c[3] == c3 && c[4] == c4 && c[5] == c5
  {
    [c0, c1, c2, c3, c4, c5]
  }

  /**
   * The row printed for record `rec` at index `i`: it starts with the
   * right-justified index, ends with the BSSID, and cut at the widths of its
   * own cells it gives back exactly those cells, whatever their widths.
   */
  function Row(i: nat, rec: ApRecord): (r: string)
    ensures |r| >= |IndexCell(i)| && r[..|IndexCell(i)|] == IndexCell(i)
    ensures |r| >= 17 && r[|r| - 17..] == FormatBssid(rec.bssid)
    ensures SplitColumns(r, Widths(RowCells(i, rec))) == Some(RowCells(i, rec))
  {
    JoinColumnsLast(RowCells(i, rec));
    SplitJoin(RowCells(i, rec));
    JoinColumns(RowCells(i, rec))
  }

  /**
   * One ESP_LOGI call of the cycle: which message it logs, with its
   * arguments. Text gives the characters it prints.
   */
  datatype LogLine =
    | CountLine(count: uint16)
    | RuleLine
    | TableHeaderLine
    | RowLine(index: nat, rec: ApRecord)
    | ClosingRuleLine

  function Text(line: LogLine): string
  {
    match line
    case CountLine(n) => Header(n)
    case RuleLine => Rule
    case TableHeaderLine => ColumnHeader
    case RowLine(i, rec) => Row(i, rec)
    case ClosingRuleLine => ClosingRule
  }

  /** The rows for a list of records, emitted one after the other (RowsAt: record i gives row i). */
  function Rows(recs: seq<ApRecord>): (rows: seq<LogLine>)
    ensures |rows| == |recs|
  {
    if recs == [] then [] else Rows(recs[..|recs| - 1]) + [RowLine(|recs| - 1, recs[|recs| - 1])]
  }

  /** Row i of the rows is the row of record i, with index i: input order is kept. */
  lemma {:induction false} RowsAt(recs: seq<ApRecord>, i: nat)
    requires i < |recs|
    ensures Rows(recs)[i] == RowLine(i, recs[i])
  {
    var init := recs[..|recs| - 1];
    if i < |init| {
      RowsAt(init, i);
      assert init[i] == recs[i];
    }
  }

  /** The four lines before the rows. */
  function Preamble(n: uint16): seq<LogLine>
  {
    [CountLine(n), RuleLine, TableHeaderLine, RuleLine]
  }

  /**
   * Everything one cycle logs for the records it retrieved: the four
   * lines of the preamble, one row per record and the closing separator.
   */
  function Report(recs: seq<ApRecord>): (r: seq<LogLine>)
    requires |recs| < 0x1_0000
    ensures |r| == |recs| + 5
    ensures r[..4] == [CountLine(|recs|), RuleLine, TableHeaderLine, RuleLine]
    ensures r[4..|recs| + 4] == Rows(recs)
    ensures r[|recs| + 4] == ClosingRuleLine
  {
    Preamble(|recs|) + Rows(recs) + [ClosingRuleLine]
  }

  // ---------------------------------------------------------------------
  // What the report says
  // ---------------------------------------------------------------------

  /** A line is a data row when its first non-blank character is a digit (the row index). */
  predicate IsDataRow(line: string)
  {
    var t := TrimLeft(line);
    |t| > 0 && IsDigit(t[0])
  }

  lemma RowIsDataRow(i: nat, rec: ApRecord)
    ensures IsDataRow(Text(RowLine(i, rec)))
  {
    var r, cell := Row(i, rec), IndexCell(i);
    assert r == cell + r[|cell|..];
    PadLeftTrimBefore(Digits(i), 2, r[|cell|..]);
  }

  /** The count header starts with 'F', so it does not read as a data row. */
  lemma CountLineNotRow(n: uint16)
    ensures !IsDataRow(Text(CountLine(n)))
  {
  }

  /** Both separators are 92 dashes; the closing one adds a newline, leaving a blank line before the next scan. */
  lemma SeparatorLines()
    ensures |Text(RuleLine)| == 92 && forall k :: 0 <= k < 92 ==> Text(RuleLine)[k] == '-'
    ensures Text(ClosingRuleLine) == Text(RuleLine) + "\n"
  {
  }

  /** Neither separator reads as a data row: both start with '-'. */
  lemma RulesNotRows()
    ensures !IsDataRow(Text(RuleLine)) && !IsDataRow(Text(ClosingRuleLine))
  {
    assert Rule[0] == '-';
    assert ClosingRule[0] == '-';
  }

  /** The table header's first non-blank character is '#', so it does not read as a data row. */
  lemma TableHeaderNotRow()
    ensures !IsDataRow(Text(TableHeaderLine))
  {
  }

  /** Of all the lines a cycle logs, exactly the rows read as data rows. */
  lemma DataRowIffRow(line: LogLine)
    ensures IsDataRow(Text(line)) <==> line.RowLine?
  {
    match line
    case RowLine(i, rec) => RowIsDataRow(i, rec);
    case CountLine(n) => CountLineNotRow(n);
    case TableHeaderLine => TableHeaderNotRow();
    case _ => RulesNotRows();
  }

  /**
   * For N records the report is N + 5 lines: the count header, the table
   * header between two separators, then row i for record i, in input order,
   * and the closing separator.
   */
  lemma ReportLines(recs: seq<ApRecord>)
    requires |recs| < 0x1_0000
    ensures |Report(recs)| == |recs| + 5
    ensures Report(recs)[..4] == [CountLine(|recs|), RuleLine, TableHeaderLine, RuleLine]
    ensures forall i :: 0 <= i < |recs| ==> Report(recs)[4 + i] == RowLine(i, recs[i])
    ensures Report(recs)[|recs| + 4] == ClosingRuleLine
  {
    forall i | 0 <= i < |recs|
      ensures Report(recs)[4 + i] == RowLine(i, recs[i])
    {
      RowsAt(recs, i);
    }
  }

  /** The lines of a report that are rows are exactly lines 4 to N + 3. */
  lemma ReportRowLines(recs: seq<ApRecord>)
    requires |recs| < 0x1_0000
    ensures forall k :: 0 <= k < |Report(recs)| ==> (Report(recs)[k].RowLine? <==> 4 <= k < 4 + |recs|)
  {
    var r := Report(recs);
    ReportLines(recs);
    forall k | 0 <= k < |r|
      ensures r[k].RowLine? <==> 4 <= k < 4 + |recs|
    {
      if k < 4 {
        assert r[k] == r[..4][k];
      } else if k < 4 + |recs| {
        assert r[k] == RowLine(k - 4, recs[k - 4]);
      } else {
        assert r[k] == ClosingRuleLine;
      }
    }
  }

  /**
   * For N records the printed report holds exactly N data rows, lines 4 to
   * N + 3; the count header, the table header and the separators are not
   * data rows. With N = 0 there are none.
   */
  lemma ReportDataRows(recs: seq<ApRecord>)
    requires |recs| < 0x1_0000
    ensures forall k :: 0 <= k < |Report(recs)| ==>
      (IsDataRow(Text(Report(recs)[k])) <==> 4 <= k < 4 + |recs|)
  {
    var r := Report(recs);
    ReportRowLines(recs);
    forall k | 0 <= k < |r|
      ensures IsDataRow(Text(r[k])) <==> 4 <= k < 4 + |recs|
    {
      DataRowIffRow(r[k]);
    }
  }
}
