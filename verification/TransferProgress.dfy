/** Progress reports of a transfer: thinned out, never stale, never decreasing. */
module TransferProgress {
  import opened CLib

  const INTERVAL_PERCENT := 5
  const INTERVAL_BYTES := 262144

  /** The counters of a transfer and the byte counts submitted to the progress work item so far. */
  datatype Counters = Counters(total: nat, transferred: nat, lastReported: nat, reports: seq<nat>)

  /** `size_t` arithmetic: the multiplication by one hundred wraps. */
  function Percent(bytes: nat, total: nat): nat
    requires total > 0
  {
    (bytes * 100) % SIZE_MODULUS / total
  }

  predicate ShouldReport(c: Counters, last: bool) {
    if c.total > 0 then
      Percent(c.transferred, c.total) >= (Percent(c.lastReported, c.total) + INTERVAL_PERCENT) % SIZE_MODULUS || last
    else
      c.transferred >= (c.lastReported + INTERVAL_BYTES) % SIZE_MODULUS || last
  }

  /** One chunk accounted for. */
  function Updated(c: Counters, chunk: nat, last: bool): Counters {
    var moved := c.(transferred := (c.transferred + chunk) % SIZE_MODULUS);
    if ShouldReport(moved, last) then
      moved.(lastReported := moved.transferred, reports := moved.reports + [moved.transferred])
    else moved
  }

  /** The progress part of the transfer context. */
  class ProgressContext {
    const progress: bool
    const totalBytes: nat
    var transferredBytes: nat
    var lastReportedBytes: nat
    var submitted: seq<nat>

    ghost function Value(): Counters
      reads this
    {
      Counters(totalBytes, transferredBytes, lastReportedBytes, submitted)
    }

    constructor (progress: bool, total: nat)
      ensures Value() == Counters(total, 0, 0, []) && this.progress == progress
    {
      this.progress, totalBytes := progress, total;
      transferredBytes, lastReportedBytes, submitted := 0, 0, [];
    }

    /** `edgehog_ft_update_progress`. */
    method UpdateProgress(chunkSize: nat, lastChunk: bool)
      modifies this
      ensures Value() == if progress then Updated(old(Value()), chunkSize, lastChunk) else old(Value())
    {
      if !progress { return; }
      transferredBytes := (transferredBytes + chunkSize) % SIZE_MODULUS;
      var shouldReport := false;
      if totalBytes > 0 {
        var currentPercent := Percent(transferredBytes, totalBytes);
        var lastPercent := Percent(lastReportedBytes, totalBytes);
        if currentPercent >= (lastPercent + INTERVAL_PERCENT) % SIZE_MODULUS || lastChunk {
          shouldReport := true;
        }
      } else {
        if transferredBytes >= (lastReportedBytes + INTERVAL_BYTES) % SIZE_MODULUS || lastChunk {
          shouldReport := true;
        }
      }
      if shouldReport {
        lastReportedBytes := transferredBytes;
        submitted := submitted + [transferredBytes];
      }
    }
  }

  // ---------------------------------------------------------------------------------------------
  // Whole transfers
  // ---------------------------------------------------------------------------------------------

  /** The counters after a series of chunks that are not the last. */
  function AfterChunks(total: nat, chunks: seq<nat>): Counters {
    if chunks == [] then Counters(total, 0, 0, [])
    else Updated(AfterChunks(total, chunks[..|chunks| - 1]), chunks[|chunks| - 1], false)
  }

  function Bytes(chunks: seq<nat>): nat {
    if chunks == [] then 0 else Bytes(chunks[..|chunks| - 1]) + chunks[|chunks| - 1]
  }

  predicate NonDecreasing(s: seq<nat>, upTo: nat) {
    && (forall i, j :: 0 <= i < j < |s| ==> s[i] <= s[j])
    && (forall i :: 0 <= i < |s| ==> s[i] <= upTo)
  }

  /** The sizes for which percentages and thresholds are computed without wrap-around. */
  predicate NoOverflow(total: nat, bytes: nat) {
    if total > 0 then bytes * 100 < SIZE_MODULUS && bytes <= total else bytes + INTERVAL_BYTES < SIZE_MODULUS
  }

  lemma {:induction false} PercentAtMostHundred(bytes: nat, total: nat)
    requires total > 0 && NoOverflow(total, bytes)
    ensures Percent(bytes, total) <= 100
    ensures bytes == 0 ==> Percent(bytes, total) == 0
  {
    assert (bytes * 100) % SIZE_MODULUS == bytes * 100 by { SmallModulo(bytes * 100); }
    QuotientBound(bytes * 100, total, 100);
    if bytes == 0 { QuotientBound(0, total, 0); }
  }

  lemma {:induction false} SmallModulo(a: nat)
    requires a < SIZE_MODULUS
    ensures a % SIZE_MODULUS == a
  {
  }

  lemma {:induction false} QuotientBound(a: nat, b: nat, k: nat)
    requires b > 0 && a <= k * b
    ensures a / b <= k
  {
    var q := a / b;
    assert q * b <= a;
    assert q >= k + 1 ==> q * b >= (k + 1) * b;
  }

  /** What holds after every chunk of a transfer that is still running. */
  ghost predicate OnSchedule(c: Counters, bytes: nat) {
    && c.transferred == bytes && c.lastReported <= bytes
    && NonDecreasing(c.reports, c.lastReported)
    && (if c.total > 0 then
          && Percent(bytes, c.total) < Percent(c.lastReported, c.total) + INTERVAL_PERCENT
          && INTERVAL_PERCENT * |c.reports| <= Percent(c.lastReported, c.total)
        else
          && bytes < c.lastReported + INTERVAL_BYTES
          && INTERVAL_BYTES * |c.reports| <= c.lastReported)
  }

  lemma {:induction false} UpdateKeepsSchedule(c: Counters, chunk: nat)
    requires OnSchedule(c, c.transferred) && NoOverflow(c.total, c.transferred + chunk)
    ensures OnSchedule(Updated(c, chunk, false), c.transferred + chunk)
  {
    hide Percent;
    SmallModulo(c.transferred + chunk);
    if c.total > 0 {
      PercentAtMostHundred(c.lastReported, c.total);
      SmallModulo(Percent(c.lastReported, c.total) + INTERVAL_PERCENT);
    } else {
      SmallModulo(c.lastReported + INTERVAL_BYTES);
    }
  }

  lemma {:induction false} RunningTransfer(total: nat, chunks: seq<nat>)
    requires NoOverflow(total, Bytes(chunks))
    ensures OnSchedule(AfterChunks(total, chunks), Bytes(chunks)) && AfterChunks(total, chunks).total == total
  {
    hide Percent;
    if chunks == [] {
      if total > 0 { PercentAtMostHundred(0, total); }
    } else {
      RunningTransfer(total, chunks[..|chunks| - 1]);
      UpdateKeepsSchedule(AfterChunks(total, chunks[..|chunks| - 1]), chunks[|chunks| - 1]);
    }
  }

  lemma {:induction false} OneMoreReport(s: seq<nat>, upTo: nat, x: nat)
    requires NonDecreasing(s, upTo) && upTo <= x
    ensures NonDecreasing(s + [x], x)
  {
  }

  /**
   A whole transfer whose last chunk is flagged: the reported byte counts never decrease, the final
   one is everything that was transferred, and there are at most twenty before it when the total is
   known, or one for every 256 KiB when it is not.
   */
  lemma {:induction false} ProgressIsBoundedAndNeverStale(total: nat, chunks: seq<nat>, lastChunk: nat)
    requires NoOverflow(total, Bytes(chunks) + lastChunk)
    ensures var end := Updated(AfterChunks(total, chunks), lastChunk, true);
            && NonDecreasing(end.reports, Bytes(chunks) + lastChunk)
            && end.reports != [] && end.reports[|end.reports| - 1] == Bytes(chunks) + lastChunk
            && (total > 0 ==> |end.reports| <= 20 + 1)
            && (total == 0 ==> 262144 * (|end.reports| - 1) <= Bytes(chunks))
  {
    hide Percent, AfterChunks, Bytes, NonDecreasing;
    RunningTransfer(total, chunks);
    var running := AfterChunks(total, chunks);
    if total > 0 {
      PercentAtMostHundred(running.lastReported, total);
    }
    SmallModulo(Bytes(chunks) + lastChunk);
    OneMoreReport(running.reports, running.lastReported, Bytes(chunks) + lastChunk);
  }

  /**
   Between reports nothing gets stale: with a known total the percentage is less than five points above
   that of the last report, without one fewer than 262144 bytes have come since. The last report
   is the one the device would show.
   */
  lemma {:induction false} ReportsAreNeverStale(total: nat, chunks: seq<nat>)
    requires NoOverflow(total, Bytes(chunks))
    ensures var c := AfterChunks(total, chunks);
            && c.transferred == Bytes(chunks)
            && c.lastReported == (if c.reports == [] then 0 else c.reports[|c.reports| - 1])
            && (total > 0 ==> 100 * c.transferred / total < 100 * c.lastReported / total + 5)
            && (total == 0 ==> c.transferred < c.lastReported + 262144)
  {
    RunningTransfer(total, chunks);
    LastIsReported(total, chunks);
    var c := AfterChunks(total, chunks);
    if total > 0 {
      PercentIs(c.transferred, total);
      PercentIs(c.lastReported, total);
    }
    hide Percent;
  }

  lemma {:induction false} PercentIs(bytes: nat, total: nat)
    requires total > 0 && bytes * 100 < SIZE_MODULUS
    ensures Percent(bytes, total) == 100 * bytes / total
  {
    SmallModulo(bytes * 100);
    assert bytes * 100 == 100 * bytes;
  }

  lemma {:induction false} LastIsReported(total: nat, chunks: seq<nat>)
    ensures var c := AfterChunks(total, chunks);
            c.lastReported == if c.reports == [] then 0 else c.reports[|c.reports| - 1]
  {
    hide Percent, ShouldReport;
    if chunks != [] { LastIsReported(total, chunks[..|chunks| - 1]); }
  }

  /** And no two reports are closer than that, but for the last one of a transfer. */
  lemma {:induction false} ReportsAreApart(c: Counters, chunk: nat)
    requires OnSchedule(c, c.transferred) && NoOverflow(c.total, c.transferred + chunk)
    ensures var d := Updated(c, chunk, false);
            d.reports != c.reports ==>
              && d.reports == c.reports + [c.transferred + chunk]
              && (if c.total > 0 then 100 * (c.transferred + chunk) / c.total >= 100 * c.lastReported / c.total + 5
                  else c.transferred + chunk >= c.lastReported + 262144)
  {
    SmallModulo(c.transferred + chunk);
    if c.total > 0 {
      PercentAtMostHundred(c.lastReported, c.total);
      PercentIs(c.transferred + chunk, c.total);
      PercentIs(c.lastReported, c.total);
      SmallModulo(Percent(c.lastReported, c.total) + INTERVAL_PERCENT);
    } else {
      SmallModulo(c.lastReported + INTERVAL_BYTES);
    }
    hide Percent;
  }
}
