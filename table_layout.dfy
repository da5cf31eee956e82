/**
 * How a reader of the log cuts the table into columns: the table header and
 * every row of a report line up at the same column widths, and a row reads
 * back as the fields of the record it was printed from.
 */
module TableLayout {
  import opened CTypes
  import opened Printf
  import opened ApRecords
  import opened Columns
  import opened ScanReport

  /** The fields of a row, as a reader of the fixed-width table sees them. */
  datatype RowFields = RowFields(
    index: nat, ssidColumn: string, rssi: int, channel: nat, auth: string, bssid: Bssid)

  /**
   * Reads the six cells of a row: the index, the padded SSID column, the
   * RSSI before " dBm", the channel, the label without its padding and the
   * address; None when a cell does not read.
   */
  function ParseCells(c: seq<string>): (r: Option<RowFields>)
    ensures r.Some? ==> |c| == 6 && r.value.ssidColumn == c[1]
  {
    if |c| != 6 || |c[2]| != 8 || c[2][4..] != " dBm" then None
    else
      match (ParseUnsigned(TrimLeft(c[0])), ParseSigned(TrimLeft(c[2][..4])),
             ParseUnsigned(TrimLeft(c[3])), ParseBssid(c[5]))
      case (Some(i), Some(rssi), Some(ch), Some(b)) =>
        Some(RowFields(i, c[1], rssi, ch, TrimRight(c[4]), b))
      case _ => None
  }

  /** Reads a row back into its fields by cutting it at the table's column widths. */
  function ParseRow(line: string): (r: Option<RowFields>)
    ensures r.Some? ==> SplitColumns(line, TableWidths).Some?
  {
    match SplitColumns(line, TableWidths)
    case None => None
    case Some(c) => ParseCells(c)
  }

  /**
   * Any six cells of widths 2, 32, 8, 4 and 8 (the last one free), joined
   * by " | ", cut back into those cells at the table's widths: the '|'
   * characters of such lines sit in the same columns.
   */
  lemma TableCellsAligned(c0: string, c1: string, c2: string, c3: string, c4: string, c5: string)
    requires |c0| == 2 && |c1| == 32 && |c2| == 8 && |c3| == 4 && |c4| == 8
    ensures SplitColumns(JoinColumns([c0, c1, c2, c3, c4, c5]), TableWidths) == Some([c0, c1, c2, c3, c4, c5])
  {
    SplitJoinAt([c0, c1, c2, c3, c4, c5], TableWidths);
  }

  /** The table header is such a line. */
  lemma ColumnHeaderLayout()
    ensures SplitColumns(ColumnHeader, TableWidths) == Some(ColumnHeaderCells)
  {
    TableCellsAligned(" #", PadRight("SSID", 32), PadLeft("RSSI", 8), PadLeft("CH", 4), PadRight("AUTH", 8), "BSSID");
  }

  /**
   * A row whose index has at most two digits and whose SSID fits its 32
   * columns cuts into its own cells at the table header's widths, so every
   * '|' sits under the header's.
   */
  lemma RowAligned(i: nat, rec: ApRecord)
    requires i < 100 && |SsidOrNone(rec.ssid)| <= 32
    ensures SplitColumns(Row(i, rec), TableWidths) == Some(RowCells(i, rec))
  {
    TableCellsAligned(IndexCell(i), PadRight(SsidOrNone(rec.ssid), 32), RssiCell(rec.rssi),
                      ChannelCell(rec.primary), AuthCell(rec.authmode), FormatBssid(rec.bssid));
  }

  /** Six cells each of which reads as the corresponding field read together as those fields. */
  lemma CellsRead(c0: string, c1: string, c2: string, c3: string, c4: string, c5: string, f: RowFields)
    requires ParseUnsigned(TrimLeft(c0)) == Some(f.index) && c1 == f.ssidColumn
    requires |c2| == 8 && c2[4..] == " dBm" && ParseSigned(TrimLeft(c2[..4])) == Some(f.rssi)
    requires ParseUnsigned(TrimLeft(c3)) == Some(f.channel) && TrimRight(c4) == f.auth
    requires ParseBssid(c5) == Some(f.bssid)
    ensures ParseCells([c0, c1, c2, c3, c4, c5]) == Some(f)
  {
    var c := [c0, c1, c2, c3, c4, c5];
    assert c[0] == c0 && c[1] == c1 && c[2] == c2 && c[3] == c3 && c[4] == c4 && c[5] == c5;
    var fields := (ParseUnsigned(TrimLeft(c[0])), ParseSigned(TrimLeft(c[2][..4])),
                   ParseUnsigned(TrimLeft(c[3])), ParseBssid(c[5]));
    assert fields == (Some(f.index), Some(f.rssi), Some(f.channel), Some(f.bssid));
  }

  /**
   * The cells of any row read back as its index and its record's RSSI,
   * channel, authentication label and six BSSID bytes.
   */
  lemma RowCellsReadBack(i: nat, rec: ApRecord)
    ensures ParseCells(RowCells(i, rec)) == Some(RowFields(i, PadRight(SsidOrNone(rec.ssid), 32), rec.rssi,
                                                           rec.primary, AuthLabel(rec.authmode), rec.bssid))
  {
    BssidRoundTrip(rec.bssid);
    CellsRead(IndexCell(i), PadRight(SsidOrNone(rec.ssid), 32), RssiCell(rec.rssi), ChannelCell(rec.primary),
              AuthCell(rec.authmode), FormatBssid(rec.bssid),
              RowFields(i, PadRight(SsidOrNone(rec.ssid), 32), rec.rssi, rec.primary, AuthLabel(rec.authmode), rec.bssid));
  }

  /**
   * A printed row with an index below 100 and an SSID of at most 32
   * characters reads back, through the column widths, as the fields of the
   * record it was printed from.
   */
  lemma RowReadsBack(i: nat, rec: ApRecord)
    requires i < 100 && |SsidOrNone(rec.ssid)| <= 32
    ensures ParseRow(Row(i, rec)) == Some(RowFields(i, PadRight(SsidOrNone(rec.ssid), 32), rec.rssi,
                                                    rec.primary, AuthLabel(rec.authmode), rec.bssid))
  {
    RowAligned(i, rec);
    RowCellsReadBack(i, rec);
  }
}
