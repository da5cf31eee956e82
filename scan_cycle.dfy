/**
 * The body of the `while (1)` loop of `app_main`, step by step: ask the
 * driver how many access points the blocking scan found, allocate a record
 * buffer for them when there are any, copy the records in, log the report,
 * free the buffer and log the closing separator. The scan itself is the
 * list of records it found; the log is a Console that keeps every line.
 */
module ScanCycle {
  import opened CTypes
  import opened ApRecords
  import opened ScanReport

  /** Where ESP_LOGI writes: every logged line, oldest first. */
  class Console {
    var lines: seq<LogLine>

    constructor()
      ensures lines == []
    {
      lines := [];
    }

    method Log(line: LogLine)
      modifies this
      ensures lines == old(lines) + [line]
    {
      lines := lines + [line];
    }
  }

  /**
   * The C heap as the scan loop uses it: the record buffers allocated and
   * not yet freed, and how many `calloc` calls there have been.
   */
  class Heap {
    ghost var live: set<array<ApRecord>>
    ghost var allocations: nat

    constructor()
      ensures live == {} && allocations == 0
    {
      live := {};
      allocations := 0;
    }

    /** `calloc(n, sizeof(wifi_ap_record_t))`: a fresh buffer of n all-zero records, now live. */
    method Calloc(n: nat) returns (a: array<ApRecord>)
      modifies this
      ensures fresh(a) && a.Length == n
      ensures forall k :: 0 <= k < n ==> a[k] == ZeroRecord
      ensures live == old(live) + {a} && allocations == old(allocations) + 1
    {
      a := new ApRecord[n](_ => ZeroRecord);
      live := live + {a};
      allocations := allocations + 1;
    }

    /** `free(a)` of a live buffer: it is live no more. */
    method Free(a: array<ApRecord>)
      requires a in live
      modifies this
      ensures live == old(live) - {a} && allocations == old(allocations)
    {
      live := live - {a};
    }
  }

  /**
   * `esp_wifi_scan_get_ap_records(&number, buf)`: copies the first `number`
   * records the scan found (fewer when it found fewer) into `buf` and
   * returns how many it copied; the rest of `buf` is left alone.
   */
  method GetApRecords(number: uint16, buf: array<ApRecord>, found: seq<ApRecord>) returns (got: uint16)
    requires number <= buf.Length
    modifies buf
    ensures got == Min(number, |found|)
    ensures buf[..got] == found[..got] && buf[got..] == old(buf[got..])
  {
    got := Min(number, |found|);
    forall k | 0 <= k < got {
      buf[k] := found[k];
    }
  }

  /**
   * One pass of the scan loop over the records `found` by the scan. It logs
   * exactly the report of those records, in order, allocates a buffer only
   * when there is at least one record and frees it again before the closing
   * separator, so no buffer is left live.
   */
  method Scan(console: Console, heap: Heap, found: seq<ApRecord>)
    requires |found| < 0x1_0000
    modifies console, heap
    ensures console.lines == old(console.lines) + Report(found)
    ensures heap.live == old(heap.live)
    ensures heap.allocations == old(heap.allocations) + (if |found| > 0 then 1 else 0)
  {
    var apNum: uint16 := |found|;
    var recs: array?<ApRecord> := null;
    if apNum > 0 {
      recs := heap.Calloc(apNum);
      apNum := GetApRecords(apNum, recs, found);
      assert recs[..] == found;
    }

    console.Log(CountLine(apNum));
    console.Log(RuleLine);
    console.Log(TableHeaderLine);
    console.Log(RuleLine);

    var i := 0;
    while i < apNum
      invariant 0 <= i <= apNum == |found|
      invariant apNum > 0 ==> recs != null && recs in heap.live && recs !in old(heap.live) && recs[..] == found
      invariant apNum == 0 ==> recs == null
      invariant heap.live == old(heap.live) + (if recs == null then {} else {recs})
      invariant heap.allocations == old(heap.allocations) + (if recs == null then 0 else 1)
      invariant console.lines == old(console.lines) + Preamble(apNum) + Rows(found[..i])
    {
      console.Log(RowLine(i, recs[i]));
      assert found[..i + 1][..i] == found[..i];
      i := i + 1;
    }
    assert found[..i] == found;

    if recs != null {
      heap.Free(recs);
    }

    console.Log(ClosingRuleLine);
  }

  /** What the loop logs over several scans: their reports one after the other. */
  function Transcript(scans: seq<seq<ApRecord>>): (t: seq<LogLine>)
    requires forall k :: 0 <= k < |scans| ==> |scans[k]| < 0x1_0000
    ensures |t| >= 5 * |scans|
  {
    if scans == [] then []
    else Transcript(scans[..|scans| - 1]) + Report(scans[|scans| - 1])
  }

  /** The transcript of the first n scans is where the transcript of all of them starts. */
  lemma {:induction false} TranscriptPrefix(scans: seq<seq<ApRecord>>, n: nat)
    requires forall k :: 0 <= k < |scans| ==> |scans[k]| < 0x1_0000
    requires n <= |scans|
    ensures Transcript(scans[..n]) <= Transcript(scans)
    decreases |scans|
  {
    if n < |scans| {
      var init := scans[..|scans| - 1];
      assert init[..n] == scans[..n];
      TranscriptPrefix(init, n);
    } else {
      assert scans[..n] == scans;
    }
  }

  /**
   * The report of scan k comes right after the reports of the scans before
   * it, all of it, in the transcript of every run that includes scan k.
   */
  lemma TranscriptAt(scans: seq<seq<ApRecord>>, k: nat)
    requires forall j :: 0 <= j < |scans| ==> |scans[j]| < 0x1_0000
    requires k < |scans|
    ensures var start, report := |Transcript(scans[..k])|, Report(scans[k]);
      start + |report| <= |Transcript(scans)| && Transcript(scans)[start..start + |report|] == report
  {
    var upto := scans[..k + 1];
    assert upto[..k] == scans[..k] && upto[k] == scans[k];
    TranscriptPrefix(scans, k + 1);
    assert Transcript(upto) == Transcript(scans[..k]) + Report(scans[k]);
  }

  /**
   * The `while (1)` loop for a number of scans: the log is the transcript
   * of their reports, and however many scans there were, no buffer stays
   * live.
   */
  method ScanRepeatedly(console: Console, heap: Heap, scans: seq<seq<ApRecord>>)
    requires forall k :: 0 <= k < |scans| ==> |scans[k]| < 0x1_0000
    modifies console, heap
    ensures console.lines == old(console.lines) + Transcript(scans)
    ensures heap.live == old(heap.live)
  {
    var n := 0;
    while n < |scans|
      invariant 0 <= n <= |scans|
      invariant console.lines == old(console.lines) + Transcript(scans[..n])
      invariant heap.live == old(heap.live)
    {
      Scan(console, heap, scans[n]);
      assert scans[..n + 1][..n] == scans[..n];
      n := n + 1;
    }
    assert scans[..n] == scans;
  }
}
