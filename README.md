# ESP32 local-area network scanner — Dafny model

The scanner puts an ESP32 in Wi-Fi station mode. It scans every channel
again and again. After each scan it logs a table with one row per access
point it heard: the index, the SSID (or `NONE` for a hidden network), the
RSSI in dBm, the primary channel, a short authentication label and the
BSSID.

This project models the program's own logic in
`main/esp32-local-area-network-scanner.c`:

- `authmode_to_str` is `ApRecords.AuthLabel`.
- `ssid_or_none` is `ApRecords.SsidOrNone`.
- The printf conversions the report uses are in `Printf`:
  - `%u` and `%d`;
  - `%02X`;
  - right- and left-justified fields.
- The body of the scan loop is the imperative method `ScanCycle.Scan`:
  - it allocates the record buffer with `calloc`;
  - it copies the records in through `esp_wifi_scan_get_ap_records`;
  - it logs the count header, the table header and one row per record;
  - it frees the buffer and logs the closing separator.

Every log call is a `ScanReport.LogLine` value (which message, with which
arguments). `ScanReport.Text` gives the characters the message prints.
`ScanReport.Report` is the whole sequence of lines for one scan. The method
is proved to log exactly that sequence.

The renderings come with readers. These round trips are proved in both
directions, so the reader accepts exactly the texts the rendering prints:

- hex pairs and the BSSID;
- the authentication labels of the eight named modes;
- the `" | "`-separated columns.

For `%u` and `%d` the reader undoes the rendering. The converse holds only
for canonical numerals, since the readers also accept leading zeros and
"-0" (`Printf.CanonicalDigits`, `Printf.SignedCanonical`). The SSID has no reader: a network named NONE
prints the same text as a hidden one (`ApRecords.SsidNamedNoneLooksHidden`).

With these readers the report's promises are stated outright:

- the count header reads back as the count, with the right noun;
- exactly N rows follow for N records;
- row i reads back as record i's index, RSSI, channel, authentication label
  and BSSID bytes, and its SSID column reads back as printed;
- the rows line up under the table header.

Modules, one per file:

- `CTypes` (`ctypes.dfy`): the C integer types, Option and Min.
- `Printf` (`printf.dfy`): decimal, hex and field-width rendering, with their readers.
- `ApRecords` (`ap_records.dfy`): `wifi_ap_record_t`, `authmode_to_str`, `ssid_or_none`, the BSSID text.
- `Columns` (`columns.dfy`): cells joined by `" | "`, and cutting a line back into cells.
- `ScanReport` (`scan_report.dfy`): the lines one scan logs.
- `TableLayout` (`table_layout.dfy`): how a reader cuts the table into fields.
- `ScanCycle` (`scan_cycle.dfy`): the console, the heap, the driver copy and the scan loop.

## Model

| member | source | states |
|---|---|---|
| ApRecords.AuthCode | main/esp32-local-area-network-scanner.c:30-38 | The eight named modes have the `wifi_auth_mode_t` values 0 to 7; every other mode has a value of 8 or more. |
| ApRecords.AuthModeOf | main/esp32-local-area-network-scanner.c:30-38 | Every `wifi_auth_mode_t` value stands for a mode whose value it is. |
| ApRecords.AuthCodeRoundTrip | main/esp32-local-area-network-scanner.c:30-38 | No two modes share a value. |
| ApRecords.AuthLabelOfCode | main/esp32-local-area-network-scanner.c:30-38 | Over every `wifi_auth_mode_t` value, the label is "UNK" exactly for the values 8 and up, the `default` case. |
| ApRecords.AuthLabel | main/esp32-local-area-network-scanner.c:28-40 | Every label has 3 to 8 characters, so it fits the `%-8s` AUTH column. The label is "UNK" exactly for the modes outside the eight named ones. Each named mode's label reads back as that mode, which fixes the eight labels OPEN, WEP, WPA, WPA2, WPA/WPA2, WPA2-E, WPA3 and WPA2/3. |
| ApRecords.ParseAuthLabelSound | main/esp32-local-area-network-scanner.c:30-37 | Conversely, every text that reads as a mode is that mode's label. |
| ApRecords.AuthLabelInjective | main/esp32-local-area-network-scanner.c:30-37 | Two different named modes never share a label. |
| ApRecords.UntilNul | main/esp32-local-area-network-scanner.c:49 | The C string in the SSID buffer is a prefix of the buffer with no NUL in it. It ends at the first NUL, or at the end of the buffer. |
| ApRecords.UntilNulUnique | main/esp32-local-area-network-scanner.c:49 | Those three properties determine the C string. |
| ApRecords.ByteChars | main/esp32-local-area-network-scanner.c:49 | The bytes pass through `%s` unchanged: each character has the code of its byte. |
| ApRecords.SsidOrNone | main/esp32-local-area-network-scanner.c:48-50 | The result is "NONE" when the first byte is NUL. Otherwise it is the SSID bytes up to the first NUL, unchanged and never empty. |
| ApRecords.SsidNamedNoneLooksHidden | main/esp32-local-area-network-scanner.c:48-50 | A network named NONE prints the same SSID text as a hidden network, so the SSID column cannot be read back into the buffer. |
| ApRecords.HexList | main/esp32-local-area-network-scanner.c:110-116 | n bytes print as 3n-1 characters. |
| ApRecords.HexListLayout | main/esp32-local-area-network-scanner.c:110-116 | Pair k is `%02X` of byte k, and a ':' follows every pair except the last. |
| ApRecords.HexListRoundTrip | main/esp32-local-area-network-scanner.c:110-116 | Reading a printed list back gives the bytes, in order. |
| ApRecords.HexListCanonical | main/esp32-local-area-network-scanner.c:110-116 | Every text that reads as a list of pairs is the printing of the bytes it reads as. |
| ApRecords.FormatBssid | main/esp32-local-area-network-scanner.c:110-116 | The BSSID text has 17 characters. |
| ApRecords.BssidLayout | main/esp32-local-area-network-scanner.c:110-116 | Every third character is ':', and every other character is an upper-case hex digit. |
| ApRecords.BssidRoundTrip | main/esp32-local-area-network-scanner.c:107-116 | Reading the BSSID text back gives b[0]..b[5]. |
| ApRecords.BssidCanonical | main/esp32-local-area-network-scanner.c:107-116 | Every text that reads as a BSSID is exactly what is printed for it. |
| Printf.Digits | main/esp32-local-area-network-scanner.c:98 | `%u` prints at least one character, all of them decimal digits, with no leading zero except for 0 itself. |
| Printf.Decimal | main/esp32-local-area-network-scanner.c:110-114 | `%d` puts '-' first exactly for negative values, followed by digits. |
| Printf.UnsignedRoundTrip | main/esp32-local-area-network-scanner.c:98 | Reading `%u` back gives the number. |
| Printf.SignedRoundTrip | main/esp32-local-area-network-scanner.c:110-114 | Reading `%d` back gives the number. |
| Printf.SignedCanonical | main/esp32-local-area-network-scanner.c:110-113 | Every canonical signed numeral (no "-0", no superfluous leading zero) is the `%d` printing of the value it reads as. |
| Printf.CanonicalDigits | main/esp32-local-area-network-scanner.c:98 | Every digit string without a superfluous leading zero is the `%u` printing of its value. |
| Printf.DigitsFit | main/esp32-local-area-network-scanner.c:110-114 | A number below 10^k prints in at most k digits. |
| Printf.DecimalFits | main/esp32-local-area-network-scanner.c:110-113 | A number of magnitude below 10^k prints in at most k characters, plus one for a minus sign. |
| Printf.Hex2 | main/esp32-local-area-network-scanner.c:110 | `%02X` of a byte is always two upper-case hex digits, and they read back as the byte. |
| Printf.ParseHex2Canonical | main/esp32-local-area-network-scanner.c:110 | Every readable pair is the `%02X` printing of its value. |
| Printf.PadRight | main/esp32-local-area-network-scanner.c:110-115 | A `%-Ns` field is N characters long, or as long as the text if the text is longer: it never truncates. |
| Printf.PadLeft | main/esp32-local-area-network-scanner.c:110-114 | A `%Nd` or `%Ns` field is N characters long, or as long as the text if the text is longer: it never truncates. |
| Printf.PadRightShape | main/esp32-local-area-network-scanner.c:110-115 | The text comes first, unchanged, followed by blanks. |
| Printf.PadLeftShape | main/esp32-local-area-network-scanner.c:110-114 | Blanks come first, followed by the text, unchanged. |
| Printf.PadLeftTrim | main/esp32-local-area-network-scanner.c:110-114 | A right-justified field, with its padding dropped, is the text, provided the text does not start with a blank. |
| Printf.PadRightTrim | main/esp32-local-area-network-scanner.c:110-115 | A left-justified field, with its padding dropped, is the text, provided the text does not end in a blank. |
| Printf.PaddedDecimalReads | main/esp32-local-area-network-scanner.c:110-113 | A `%Nd` field with its padding dropped is the numeral `%d` prints, and it reads back as its number. |
| Printf.PaddedUnsignedReads | main/esp32-local-area-network-scanner.c:110-114 | The same for a non-negative number: the padding dropped, it is its digits, which read back as unsigned. |
| Columns.JoinColumns | main/esp32-local-area-network-scanner.c:100-110 | A joined line starts with its first cell, unchanged. |
| Columns.JoinColumnsLast | main/esp32-local-area-network-scanner.c:100-110 | A joined line ends with its last cell, unchanged. |
| Columns.SplitJoin | main/esp32-local-area-network-scanner.c:100-110 | Cells joined by the column separator and cut at their own widths give back the cells. |
| Columns.SplitJoinAt | main/esp32-local-area-network-scanner.c:100-110 | The same for any widths that match the cells. |
| Columns.JoinSplit | main/esp32-local-area-network-scanner.c:100-110 | Conversely, a line that cuts into cells is those cells joined again. |
| ScanReport.Header | main/esp32-local-area-network-scanner.c:98 | The count header is "Found " followed by the count, which reads back. Then comes " network" for a count of 1 and " networks" for every other count, 0 included. |
| ScanReport.IndexCell | main/esp32-local-area-network-scanner.c:110-111 | `%2d` of the index is blanks followed by the index's digits, which read back as the index. It is 2 characters wide, or as wide as the digits when the index has more than two (100 and up), so it never truncates. |
| ScanReport.RssiCell | main/esp32-local-area-network-scanner.c:110-113 | `%4d dBm` of an `int8` RSSI is always 8 characters, ending in " dBm". The first 4 are blanks followed by the `%d` numeral, which reads back as the RSSI. |
| ScanReport.ChannelCell | main/esp32-local-area-network-scanner.c:110-114 | `%4d` of the `uint8` channel is always 4 characters: blanks followed by the channel's digits, which read back as the channel. |
| ScanReport.AuthCell | main/esp32-local-area-network-scanner.c:110-115 | `%-8s` of the label is always 8 characters. With its padding dropped it is the label. |
| ScanReport.RowCells | main/esp32-local-area-network-scanner.c:110-116 | A row has six cells. The RSSI, channel and authentication cells are always 8, 4 and 8 wide, and the BSSID 17; the index is 2 wide below 100, and the SSID column 32 wide for SSIDs of at most 32 characters. The cells are the `%2d` index, the `%-32s` SSID or NONE, the `%4d dBm` RSSI, the `%4d` channel, the `%-8s` label and the BSSID. |
| ScanReport.Row | main/esp32-local-area-network-scanner.c:110-116 | A row starts with the right-justified index and ends with the BSSID. Cut at the widths of its own cells, whatever they are, it gives back exactly those cells, so the separators sit between the cells printf printed. |
| ScanReport.Report | main/esp32-local-area-network-scanner.c:98-122 | For N records a scan logs N + 5 lines: the count header, separator, table header and separator, then the rows of the records, then the closing separator. |
| ScanReport.RowsAt | main/esp32-local-area-network-scanner.c:104-117 | Row i is logged for record i with index i, so input order is kept, and there is one row per record. |
| ScanReport.SeparatorLines | main/esp32-local-area-network-scanner.c:99-122 | The separator is 92 dashes. The closing separator is the same line plus a newline. |
| ScanReport.RowIsDataRow | main/esp32-local-area-network-scanner.c:110 | The first non-blank character of every row is a digit (its index). |
| ScanReport.CountLineNotRow | main/esp32-local-area-network-scanner.c:98 | The count header does not read as a data row. |
| ScanReport.RulesNotRows | main/esp32-local-area-network-scanner.c:99-122 | Neither the separator of lines 99 and 102 nor the closing separator of line 122 reads as a data row. |
| ScanReport.TableHeaderNotRow | main/esp32-local-area-network-scanner.c:100-101 | The table header does not read as a data row. |
| ScanReport.DataRowIffRow | main/esp32-local-area-network-scanner.c:98-122 | Of all the lines a scan logs, a line reads as a data row exactly when it is a row. |
| ScanReport.ReportLines | main/esp32-local-area-network-scanner.c:98-122 | For N records the report has N + 5 lines: the count header, separator, table header and separator, then row i for record i, then the closing separator. |
| ScanReport.ReportRowLines | main/esp32-local-area-network-scanner.c:104-117 | The lines of a report that are rows are exactly lines 4 to N + 3. |
| ScanReport.ReportDataRows | main/esp32-local-area-network-scanner.c:104-117 | Exactly the lines 4 to N + 3 of the printed report are data rows, so there are N of them, and none when N = 0. |
| TableLayout.TableCellsAligned | main/esp32-local-area-network-scanner.c:100-110 | Any six cells of widths 2, 32, 8, 4 and 8, joined by the column separator, cut back into those cells at the table's widths. |
| TableLayout.ColumnHeaderLayout | main/esp32-local-area-network-scanner.c:100-101 | The table header cuts into " #", SSID padded to 32, RSSI right-justified in 8, CH in 4, AUTH padded to 8, and BSSID. |
| TableLayout.RowAligned | main/esp32-local-area-network-scanner.c:110-116 | A row with an index below 100 and an SSID of at most 32 characters cuts into its own cells at the header's widths, so its column separators line up under the header's. |
| TableLayout.RowCellsReadBack | main/esp32-local-area-network-scanner.c:110-116 | The cells of every row read back as the index, the SSID column, the RSSI, the channel, the authentication label and the six BSSID bytes of its record. |
| TableLayout.RowReadsBack | main/esp32-local-area-network-scanner.c:104-117 | A printed row with an index below 100 and an SSID of at most 32 characters reads back, through the column widths, as its record's fields. |
| ScanCycle.Console.Log | main/esp32-local-area-network-scanner.c:98 | An ESP_LOGI call appends its line to the log. |
| ScanCycle.Heap.Calloc | main/esp32-local-area-network-scanner.c:94 | `calloc` returns a fresh buffer of n all-zero records. The buffer becomes live, and one more allocation is counted. |
| ScanCycle.Heap.Free | main/esp32-local-area-network-scanner.c:119 | `free` of a live buffer makes it no longer live. |
| ScanCycle.GetApRecords | main/esp32-local-area-network-scanner.c:95 | The driver copies min(number, found) records into the buffer and reports that count back in `ap_num`. The rest of the buffer is left unchanged. |
| ScanCycle.Scan | main/esp32-local-area-network-scanner.c:87-124 | One loop pass logs exactly `Report(found)`: header, table header, one row per record in order, closing separator. It allocates one buffer when there is at least one record and none otherwise. The set of live buffers is the same afterwards, so no buffer is leaked on either path. |
| ScanCycle.Transcript | main/esp32-local-area-network-scanner.c:87-124 | Several scans log their reports one after the other, at least five lines each. |
| ScanCycle.TranscriptPrefix | main/esp32-local-area-network-scanner.c:87-124 | The transcript of the first n scans is the start of the transcript of all of them. |
| ScanCycle.TranscriptAt | main/esp32-local-area-network-scanner.c:87-124 | The whole report of scan k follows right after the reports of the scans before it. |
| ScanCycle.ScanRepeatedly | main/esp32-local-area-network-scanner.c:87-124 | Any number of loop passes log the transcript of their reports, and still no buffer is left live. |

## Left out

- Driver and platform start-up (`nvs_flash_init`, `esp_netif_init`, the event loop, `esp_wifi_init`/`set_mode`/`start`, lines 66-85) is not modelled. These are vendor calls with no visible semantics.
- The radio scan and `esp_wifi_scan_get_ap_num` (lines 88-90) become an input: `found`, the records the blocking scan found. The count is `|found|`, at most 65535 because it is a `uint16`.
- `ESP_ERROR_CHECK` is not modelled. Every driver call is taken to succeed; its abort path has no recovery.
- A failing `calloc` is not modelled. The source does not check for NULL, so no handling is invented.
- `vTaskDelay` (line 123) is not modelled: it is scheduling only. The endless `while (1)` is modelled as any finite number of passes (`ScanRepeatedly`).
- The log prefix that ESP_LOGI adds (level, time stamp, `WIFI_SCAN` tag) and its line ending are left out. So are the two bare `printf("\n")` calls. A logged line is its formatted message only.
- The `ssid &&` NULL test in `ssid_or_none` is not modelled: the argument is always the array inside a record, never NULL.
- The fields of `wifi_ap_record_t` that the report does not print are not modelled.
- ApRecords.UntilNul: when a 33-byte SSID buffer holds no NUL, `%s` would read past it. The model stops at the end of the buffer instead, because the driver's 33-byte field holds at most 32 name bytes and a NUL.
- AuthMode: the driver's other enumerators (WAPI, OWE, ...) are a single `Unlisted(code)` case with a code of 8 or more, because the source treats them all alike. The values 0 to 7 of the named modes are the numbering of `wifi_auth_mode_t` in the ESP-IDF header `esp_wifi_types.h`, which is not part of this model.
- TableLayout.RowAligned and TableLayout.RowReadsBack: the alignment is proved only for indices below 100 and SSIDs of at most 32 characters. A three-digit index or a longer name widens its column, as printf does, and shifts the column separators of that row.
- ScanCycle.Heap: buffer ownership is ghost state (the set of live buffers). The contents of freed memory are not modelled.
