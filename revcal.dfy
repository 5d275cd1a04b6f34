/** The integer core of the A-STEP reverse calibration (ASTEP_RevCal.py):
    cleaning of jumbled FPGA timestamps with rollover unwrapping, the quantisation
    of time over threshold (ToT), the per-channel keep flag and the construction of
    the 13-column output records, two per simulated hit. */
module RevCal {
  import opened Wrappers
  import opened Seqs
  import opened Hits

  /** FPGA_Rollover_Buffer: how far short of a full period a drop may be and still
      count as a rollover. */
  const FPGA_ROLLOVER_BUFFER: int := 5_000_000

  /** FPGA_diff_cutoff: a jump of more than this between neighbours is an outlier. */
  const FPGA_DIFF_CUTOFF: int := 1_000_000

  /** FPGA_readout_cycles: two hits closer than this on the FPGA clock coincide. */
  const FPGA_READOUT_CYCLES: int := 42

  /** A raw difference below this is a rollover of the 32-bit counter. */
  const ROLLOVER_THRESHOLD: int := -FPGA_MAX_CLOCK + FPGA_ROLLOVER_BUFFER

  // ---------------------------------------------------------------------------
  // Rollover unwrapping

  /** Position `j` is where the counter wrapped: the raw value fell by nearly a
      full period from its predecessor. */
  predicate IsRollover(raw: seq<int>, j: int)
  {
    1 <= j < |raw| && raw[j] - raw[j - 1] < ROLLOVER_THRESHOLD
  }

  /** Number of rollover positions `j` with `1 <= j <= k`. */
  function RolloverCount(raw: seq<int>, k: int): nat
    decreases k
  {
    if k <= 0 then 0 else RolloverCount(raw, k - 1) + (if IsRollover(raw, k) then 1 else 0)
  }

  /** The corrected timeline: every raw value plus one period per rollover at or
      before it. */
  function Unwrapped(raw: seq<int>): seq<int>
  {
    seq(|raw|, k requires 0 <= k < |raw| => raw[k] + FPGA_MAX_CLOCK * RolloverCount(raw, k))
  }

  /** The timeline after the rollovers at positions `1..c` have been applied. */
  function PartiallyUnwrapped(raw: seq<int>, c: int): (p: seq<int>)
    ensures |p| == |raw|
  {
    seq(|raw|, k requires 0 <= k < |raw| => raw[k] + FPGA_MAX_CLOCK * RolloverCount(raw, if k < c then k else c))
  }

  /** Applying the rollover at `c` adds a period to the suffix from `c` on. */
  lemma PartiallyUnwrappedStep(raw: seq<int>, c: int, i: int)
    requires 1 <= c && 0 <= i < |raw|
    ensures PartiallyUnwrapped(raw, c)[i] ==
      PartiallyUnwrapped(raw, c - 1)[i] + (if c <= i && IsRollover(raw, c) then FPGA_MAX_CLOCK else 0)
  {
    if c <= i {
      assert RolloverCount(raw, c) == RolloverCount(raw, c - 1) + (if IsRollover(raw, c) then 1 else 0);
    }
  }

  /** `FPGA_times[rollover_idx:] += FPGA_Max_Clock`. */
  method AddPeriodFrom(times: array<int>, j: int)
    requires 0 <= j
    modifies times
    ensures forall i :: 0 <= i < times.Length ==>
      times[i] == old(times[i]) + (if j <= i then FPGA_MAX_CLOCK else 0)
  {
    var k := j;
    while k < times.Length
      invariant j <= k
      invariant forall i :: 0 <= i < times.Length ==>
        times[i] == old(times[i]) + (if j <= i < k then FPGA_MAX_CLOCK else 0)
      decreases times.Length - k
    {
      times[k] := times[k] + FPGA_MAX_CLOCK;
      k := k + 1;
    }
  }

  /** The rollover loop the source writes three times (clean_FPGA_times,
      sort_FPGA_timestamps, sort_FPGA_times): find the rollover positions in the raw
      differences, then add a period to the whole suffix from each of them. */
  method UnwrapTimes(raw: seq<int>) returns (u: seq<int>)
    ensures u == Unwrapped(raw)
  {
    var n := |raw|;
    var times := new int[n](k requires 0 <= k < n => raw[k]);
    forall k | 0 <= k < n
      ensures times[k] == PartiallyUnwrapped(raw, 0)[k]
    {
      assert RolloverCount(raw, if k < 0 then k else 0) == 0;
    }
    assert times[..] == PartiallyUnwrapped(raw, 0);
    var j := 1;
    while j < n
      invariant 1 <= j || n == 0
      invariant j <= n || n == 0
      invariant times[..] == PartiallyUnwrapped(raw, j - 1)
    {
      ghost var before := times[..];
      if raw[j] - raw[j - 1] < ROLLOVER_THRESHOLD {
        AddPeriodFrom(times, j);
      }
      forall i | 0 <= i < n
        ensures times[i] == PartiallyUnwrapped(raw, j)[i]
      {
        PartiallyUnwrappedStep(raw, j, i);
      }
      assert times[..] == PartiallyUnwrapped(raw, j);
      j := j + 1;
    }
    u := times[..];
    assert n == 0 || j == n;
    assert u == Unwrapped(raw) by {
      forall k | 0 <= k < n
        ensures u[k] == Unwrapped(raw)[k]
      {
      }
    }
  }

  /** The first corrected time is the raw one; after that the corrected difference
      is the raw difference, plus one period exactly at a rollover. */
  lemma UnwrappedStep(raw: seq<int>, k: int)
    requires 1 <= k < |raw|
    ensures Unwrapped(raw)[0] == raw[0]
    ensures Unwrapped(raw)[k] - Unwrapped(raw)[k - 1] ==
            raw[k] - raw[k - 1] + (if IsRollover(raw, k) then FPGA_MAX_CLOCK else 0)
  {
  }

  lemma {:induction false} AddPeriods(x: int, c: nat)
    ensures (x + FPGA_MAX_CLOCK * c) % FPGA_MAX_CLOCK == x % FPGA_MAX_CLOCK
  {
    if c > 0 {
      AddPeriods(x, c - 1);
      assert x + FPGA_MAX_CLOCK * c == (x + FPGA_MAX_CLOCK * (c - 1)) + FPGA_MAX_CLOCK;
    }
  }

  /** Unwrapping adds whole periods only, so it is undone by reducing modulo 2^32. */
  lemma UnwrappedWrapsBack(raw: seq<int>, k: int)
    requires 0 <= k < |raw|
    ensures Unwrapped(raw)[k] % FPGA_MAX_CLOCK == raw[k] % FPGA_MAX_CLOCK
  {
    AddPeriods(raw[k], RolloverCount(raw, k));
  }

  /** Writing the unwrapped times back into column 12 modulo 2^32 (as
      sort_FPGA_timestamps and sort_FPGA_times do) leaves records whose counter
      values are in range exactly as they were. */
  lemma WrapBackIsIdentity(a: seq<Hit>)
    requires forall i :: 0 <= i < |a| ==> 0 <= a[i].fpgaTs < FPGA_MAX_CLOCK
    ensures WithWrappedTimes(a, Unwrapped(Times(a))) == a
  {
    forall i | 0 <= i < |a|
      ensures WithWrappedTimes(a, Unwrapped(Times(a)))[i] == a[i]
    {
      UnwrappedWrapsBack(Times(a), i);
    }
  }

  /** For counter values in range, a rollover is a small forward step on the
      corrected timeline, never a step back. */
  lemma RolloverIsForwardStep(raw: seq<int>, k: int)
    requires forall i :: 0 <= i < |raw| ==> 0 <= raw[i] < FPGA_MAX_CLOCK
    requires IsRollover(raw, k)
    ensures 0 < Unwrapped(raw)[k] - Unwrapped(raw)[k - 1] < FPGA_ROLLOVER_BUFFER
  {
    UnwrappedStep(raw, k);
  }

  // ---------------------------------------------------------------------------
  // Outlier search and the cleaning fixed point

  /** Difference index `i` jumps up: t[i+1] - t[i] > cutoff. */
  predicate Up(t: seq<int>, i: int)
  {
    0 <= i < |t| - 1 && t[i + 1] - t[i] > FPGA_DIFF_CUTOFF
  }

  /** Difference index `i` drops: t[i+1] - t[i] < -cutoff. */
  predicate Down(t: seq<int>, i: int)
  {
    0 <= i < |t| - 1 && t[i + 1] - t[i] < -FPGA_DIFF_CUTOFF
  }

  /** Index `k` is dropped: it is a spike up (a jump up into it, a drop out of it),
      or, failing the first test for the jump out of it, a spike down (a drop into
      it, a jump up out of it). */
  predicate Marked(t: seq<int>, k: int)
  {
    || (Up(t, k - 1) && Down(t, k))
    || (Up(t, k) && !Down(t, k + 1) && Down(t, k - 1))
  }

  predicate NoneMarked(t: seq<int>)
  {
    forall k :: 0 <= k < |t| ==> !Marked(t, k)
  }

  /** No jump up is next to a drop, on either side. */
  ghost predicate NoSpikes(t: seq<int>)
  {
    forall i :: Up(t, i) ==> !Down(t, i + 1) && !Down(t, i - 1)
  }

  /** The mask `mask[droppable_idx] = False`. */
  function KeepMask(t: seq<int>): seq<bool>
  {
    seq(|t|, k requires 0 <= k < |t| => !Marked(t, k))
  }

  /** Index `x` has been marked by one of the jump-up indices below `u`. */
  predicate MarkedBefore(t: seq<int>, x: int, u: int)
  {
    || (Up(t, x - 1) && Down(t, x) && x - 1 < u)
    || (Up(t, x) && !Down(t, x + 1) && Down(t, x - 1) && x < u)
  }

  /** `droppable_idx`: the scan over the jump-up indices in increasing order. */
  method FindDroppable(t: seq<int>) returns (drop: seq<int>)
    ensures forall x :: x in drop <==> Marked(t, x)
  {
    drop := [];
    var upIdx := 0;
    while upIdx < |t| - 1
      invariant 0 <= upIdx
      invariant forall x :: x in drop <==> MarkedBefore(t, x, upIdx)
    {
      var old_drop := drop;
      if t[upIdx + 1] - t[upIdx] > FPGA_DIFF_CUTOFF {
        if Down(t, upIdx + 1) {
          drop := drop + [upIdx + 1];
        } else if Down(t, upIdx - 1) {
          drop := drop + [upIdx];
        }
      }
      forall x
        ensures x in drop <==> MarkedBefore(t, x, upIdx + 1)
      {
        assert x in old_drop <==> MarkedBefore(t, x, upIdx);
      }
      upIdx := upIdx + 1;
    }
    forall x
      ensures x in drop <==> Marked(t, x)
    {
      assert x in drop <==> MarkedBefore(t, x, upIdx);
    }
  }

  /** A pass that marks something strictly shrinks the array; this is the measure
      that makes the cleaning loop terminate. */
  lemma MaskShrinks(t: seq<int>)
    requires !NoneMarked(t)
    ensures CountTrue(KeepMask(t)) < |t|
  {
    var k :| 0 <= k < |t| && Marked(t, k);
    CountTrueBelow(KeepMask(t), k);
  }

  /** The fixed point of clean_FPGA_times: unwrap, mark, drop the marked rows in one
      pass, and repeat until a pass marks nothing. */
  function Clean(a: seq<Hit>): (r: seq<Hit>)
    ensures |r| <= |a|
    decreases |a|
  {
    var t := Unwrapped(Times(a));
    if NoneMarked(t) then a
    else
      MaskShrinks(t);
      Clean(Select(a, KeepMask(t)))
  }

  /** clean_FPGA_times: `while not complete_drops`, dropping the marked rows of a
      working copy. */
  method CleanFPGATimes(a: seq<Hit>) returns (r: seq<Hit>)
    ensures r == Clean(a)
  {
    var editArray := a;
    var completeDrops := false;
    while !completeDrops
      invariant Clean(editArray) == Clean(a)
      invariant completeDrops ==> editArray == Clean(a)
      decreases |editArray|, !completeDrops
    {
      var fpgaTimes := UnwrapTimes(Times(editArray));
      var droppable := FindDroppable(fpgaTimes);
      if |droppable| == 0 {
        completeDrops := true;
      } else {
        assert Marked(fpgaTimes, droppable[0]);
        var mask := seq(|editArray|, k requires 0 <= k < |editArray| => k !in droppable);
        DropMask(fpgaTimes, droppable, mask);
        MaskShrinks(fpgaTimes);
        editArray := Select(editArray, mask);
      }
    }
    r := editArray;
  }

  /** The mask built from the marked indices is `KeepMask`. */
  lemma DropMask(t: seq<int>, drop: seq<int>, mask: seq<bool>)
    requires forall x :: x in drop <==> Marked(t, x)
    requires |mask| == |t| && forall k :: 0 <= k < |mask| ==> mask[k] == (k !in drop)
    ensures mask == KeepMask(t)
  {
  }

  lemma NoneMarkedIffNoSpikes(t: seq<int>)
    ensures NoneMarked(t) <==> NoSpikes(t)
  {
    if NoneMarked(t) {
      forall i | Up(t, i)
        ensures !Down(t, i + 1) && !Down(t, i - 1)
      {
        assert !Marked(t, i + 1);
        assert !Marked(t, i);
      }
    }
    if NoSpikes(t) {
      forall k | 0 <= k < |t|
        ensures !Marked(t, k)
      {
        if Up(t, k - 1) {
          assert !Down(t, k);
        }
      }
    }
  }

  /** Cleaning only deletes rows: what is left is a subsequence of the input, rows
      unchanged and in their original order. */
  lemma {:induction false} CleanIsSubsequence(a: seq<Hit>)
    ensures IsSubsequence(Clean(a), a)
    decreases |a|
  {
    var t := Unwrapped(Times(a));
    if NoneMarked(t) {
      SubsequenceRefl(a);
    } else {
      var b := Select(a, KeepMask(t));
      MaskShrinks(t);
      CleanIsSubsequence(b);
      SelectIsSubsequence(a, KeepMask(t));
      SubsequenceTrans(Clean(b), b, a);
    }
  }

  /** On return a further pass would mark nothing. */
  lemma {:induction false} CleanMarksNothing(a: seq<Hit>)
    ensures NoneMarked(Unwrapped(Times(Clean(a))))
    decreases |a|
  {
    var t := Unwrapped(Times(a));
    if !NoneMarked(t) {
      MaskShrinks(t);
      CleanMarksNothing(Select(a, KeepMask(t)));
    }
  }

  /** On return no jump up sits next to a drop. */
  lemma CleanHasNoSpikes(a: seq<Hit>)
    ensures NoSpikes(Unwrapped(Times(Clean(a))))
  {
    CleanMarksNothing(a);
    NoneMarkedIffNoSpikes(Unwrapped(Times(Clean(a))));
  }

  /** Cleaning an already cleaned array changes nothing. */
  lemma CleanIdempotent(a: seq<Hit>)
    ensures Clean(Clean(a)) == Clean(a)
  {
    CleanMarksNothing(a);
  }

  /** A mark needs a jump on each side of the marked row, so arrays of up to two
      rows (in particular those with no differences at all) are returned unchanged. */
  lemma CleanShort(a: seq<Hit>)
    requires |a| <= 2
    ensures Clean(a) == a
  {
    assert NoneMarked(Unwrapped(Times(a)));
  }

  /** The first row is never marked, so cleaning keeps it, and a non-empty array
      stays non-empty. */
  lemma {:induction false} CleanKeepsFirst(a: seq<Hit>)
    requires |a| > 0
    ensures |Clean(a)| > 0 && Clean(a)[0] == a[0]
    decreases |a|
  {
    var t := Unwrapped(Times(a));
    if !NoneMarked(t) {
      MaskShrinks(t);
      assert !Marked(t, 0);
      var b := Select(a, KeepMask(t));
      assert b == [a[0]] + Select(a[1..], KeepMask(t)[1..]);
      CleanKeepsFirst(b);
    }
  }

  // ---------------------------------------------------------------------------
  // Time-over-threshold quantisation (the integer part of RevCal)

  /** AstroPix_ToT_Max_Clock = 2^12: range of the ToT counter. */
  const TOT_MAX_CLOCK: int := 4096

  /** 2^8: the most/least significant split of the ToT counter. */
  const TOT_LSB_RANGE: int := 256

  /** The quantised ToT of one channel: tot_msb, tot_lsb, tot_total, and tot_us in
      hundredths of a microsecond. */
  datatype ToT = ToT(msb: int, lsb: int, total: int, usHundredths: int)

  /** `smeared` is the smeared ToT already truncated to hundredths of a microsecond
      (the `(x*100)//1/100` step); at the 100 MHz ToT clock one hundredth of a
      microsecond is one count. The count wraps modulo 2^12, tot_us is read back as
      count / 100 microseconds, and the count is split into a byte and the rest. */
  function Quantise(smeared: int): (q: ToT)
    ensures 0 <= q.total < TOT_MAX_CLOCK
    ensures q.total % TOT_MAX_CLOCK == smeared % TOT_MAX_CLOCK
    ensures 0 <= q.lsb < TOT_LSB_RANGE && 0 <= q.msb < TOT_MAX_CLOCK / TOT_LSB_RANGE
    ensures q.msb * TOT_LSB_RANGE + q.lsb == q.total
    ensures q.lsb == q.total % TOT_LSB_RANGE && q.msb == q.total / TOT_LSB_RANGE
    ensures q.usHundredths == q.total
  {
    var total := smeared % TOT_MAX_CLOCK;
    var lsb := total % TOT_LSB_RANGE;
    ToT((total - lsb) / TOT_LSB_RANGE, lsb, total, total)
  }

  /** A count already in range is kept as it is. */
  lemma QuantiseInRange(smeared: int)
    requires 0 <= smeared < TOT_MAX_CLOCK
    ensures Quantise(smeared).total == smeared
    ensures Quantise(smeared).msb * TOT_LSB_RANGE + Quantise(smeared).lsb == smeared
  {
  }

  // ---------------------------------------------------------------------------
  // Keep flags and the output records (make_out_array)

  /** Payload type of every record the simulation produces. */
  const PAYLOAD: int := 4

  /** What calibration and smearing yielded for one hit whose pixel has a
      calibration entry: the smeared row and column ToT truncated to hundredths of a
      microsecond, and the outcome of each channel's `smeared > threshold` test. */
  datatype Smear = Smear(rowSmeared: int, colSmeared: int, rowAbove: bool, colAbove: bool)

  /** One simulated hit after geometry and clock conversion: ids, the AstroPix
      timestamp, the FPGA timestamps of both channels, and the calibration outcome,
      absent when no calibration entry matches the pixel. */
  datatype SimHit = SimHit(
    layer: int,
    chipId: int,
    row: int,
    col: int,
    astroTs: int,
    fpgaRowTs: int,
    fpgaColTs: int,
    smear: Option<Smear>)

  /** A pixel without calibration keeps a smeared ToT of 0. */
  function RowToT(h: SimHit): ToT
  {
    Quantise(if h.smear.Some? then h.smear.value.rowSmeared else 0)
  }

  function ColToT(h: SimHit): ToT
  {
    Quantise(if h.smear.Some? then h.smear.value.colSmeared else 0)
  }

  /** The flag starts at 1 and only a matching calibration entry can clear it. */
  predicate KeepRow(h: SimHit)
  {
    h.smear.None? || h.smear.value.rowAbove
  }

  predicate KeepCol(h: SimHit)
  {
    h.smear.None? || h.smear.value.colAbove
  }

  function RowRecord(h: SimHit): Hit
  {
    var q := RowToT(h);
    Hit(0, 0, h.layer, h.chipId, PAYLOAD, h.row, 0, h.astroTs, q.msb, q.lsb, q.total, q.usHundredths, h.fpgaRowTs)
  }

  function ColRecord(h: SimHit): Hit
  {
    var q := ColToT(h);
    Hit(0, 0, h.layer, h.chipId, PAYLOAD, h.col, 1, h.astroTs, q.msb, q.lsb, q.total, q.usHundredths, h.fpgaColTs)
  }

  /** The 2n-row array before the threshold cut: row 2i for the row channel of hit
      i, row 2i+1 for its column channel. */
  function Candidates(hits: seq<SimHit>): seq<Hit>
  {
    seq(2 * |hits|, k requires 0 <= k < 2 * |hits| =>
      if k % 2 == 0 then RowRecord(hits[k / 2]) else ColRecord(hits[k / 2]))
  }

  /** `out_subthresh == 1`, row by row. */
  function CandidateMask(hits: seq<SimHit>): seq<bool>
  {
    seq(2 * |hits|, k requires 0 <= k < 2 * |hits| =>
      if k % 2 == 0 then KeepRow(hits[k / 2]) else KeepCol(hits[k / 2]))
  }

  /** Reference definition of the output, hit by hit: the row record if its flag is
      set, then the column record if its flag is set. */
  function KeptRecords(hits: seq<SimHit>): seq<Hit>
  {
    if |hits| == 0 then []
    else
      (if KeepRow(hits[0]) then [RowRecord(hits[0])] else [])
      + (if KeepCol(hits[0]) then [ColRecord(hits[0])] else [])
      + KeptRecords(hits[1..])
  }

  /** Slots 2i and 2i+1 of the candidates and of their flags belong to hit i. */
  lemma CandidateSlots(hits: seq<SimHit>, i: int)
    requires 0 <= i < |hits|
    ensures Candidates(hits)[2 * i] == RowRecord(hits[i]) && Candidates(hits)[2 * i + 1] == ColRecord(hits[i])
    ensures CandidateMask(hits)[2 * i] == KeepRow(hits[i]) && CandidateMask(hits)[2 * i + 1] == KeepCol(hits[i])
  {
    assert (2 * i) % 2 == 0 && (2 * i) / 2 == i;
    assert (2 * i + 1) % 2 == 1 && (2 * i + 1) / 2 == i;
  }

  /** make_out_array: fill the constant columns, fill every other cell hit by hit,
      then keep the rows whose flag is 1. */
  method MakeOutArray(hits: seq<SimHit>) returns (out: seq<Hit>)
    ensures out == KeptRecords(hits)
  {
    var n := |hits|;
    var blank := ZERO_HIT.(decOrd := 0, payload := PAYLOAD);
    var outArray := new Hit[2 * n](_ => blank);
    var outSubthresh := new bool[2 * n](_ => false);
    for i := 0 to n
      invariant outArray[..2 * i] == Candidates(hits)[..2 * i]
      invariant outSubthresh[..2 * i] == CandidateMask(hits)[..2 * i]
      invariant forall k :: 2 * i <= k < 2 * n ==> outArray[k] == blank
    {
      var h := hits[i];
      ghost var a0, m0 := outArray[..], outSubthresh[..];
      var qr := RowToT(h);
      var qc := ColToT(h);
      var rowRec := outArray[2 * i].(readout := 0, layer := h.layer, chipId := h.chipId,
        location := h.row, isCol := 0, timestamp := h.astroTs, totMsb := qr.msb, totLsb := qr.lsb,
        totTotal := qr.total, totUs := qr.usHundredths, fpgaTs := h.fpgaRowTs);
      var colRec := outArray[2 * i + 1].(readout := 0, layer := h.layer, chipId := h.chipId,
        location := h.col, isCol := 1, timestamp := h.astroTs, totMsb := qc.msb, totLsb := qc.lsb,
        totTotal := qc.total, totUs := qc.usHundredths, fpgaTs := h.fpgaColTs);
      assert rowRec == RowRecord(h) && colRec == ColRecord(h);
      outArray[2 * i] := rowRec;
      outArray[2 * i + 1] := colRec;
      PairPrefix(a0, outArray[..], 2 * i, rowRec, colRec);
      outSubthresh[2 * i] := KeepRow(h);
      outSubthresh[2 * i + 1] := KeepCol(h);
      PairPrefix(m0, outSubthresh[..], 2 * i, KeepRow(h), KeepCol(h));
      CandidatePrefix(hits, i);
    }
    assert outArray[..] == outArray[..2 * n] && Candidates(hits)[..2 * n] == Candidates(hits);
    assert outSubthresh[..] == outSubthresh[..2 * n] && CandidateMask(hits)[..2 * n] == CandidateMask(hits);
    out := Select(outArray[..], outSubthresh[..]);
    SelectCandidates(hits);
  }

  /** Writing a pair at positions `j` and `j + 1` extends the prefix before `j` by
      that pair and leaves the later positions alone. */
  lemma PairPrefix<T>(before: seq<T>, after: seq<T>, j: int, x: T, y: T)
    requires 0 <= j && j + 1 < |before|
    requires after == before[j := x][j + 1 := y]
    ensures after[..j + 2] == before[..j] + [x, y]
    ensures forall k :: j + 2 <= k < |after| ==> after[k] == before[k]
  {
    assert after[..j + 2] == before[..j] + [x, y];
  }

  /** The first 2(i+1) candidates and flags extend the first 2i by hit i's pair. */
  lemma CandidatePrefix(hits: seq<SimHit>, i: int)
    requires 0 <= i < |hits|
    ensures Candidates(hits)[..2 * i + 2] == Candidates(hits)[..2 * i] + [RowRecord(hits[i]), ColRecord(hits[i])]
    ensures CandidateMask(hits)[..2 * i + 2] == CandidateMask(hits)[..2 * i] + [KeepRow(hits[i]), KeepCol(hits[i])]
  {
    CandidateSlots(hits, i);
  }

  /** The buffer-and-mask construction agrees with the hit-by-hit definition. */
  lemma {:induction false} SelectCandidates(hits: seq<SimHit>)
    ensures Select(Candidates(hits), CandidateMask(hits)) == KeptRecords(hits)
  {
    if |hits| > 0 {
      var h := hits[0];
      var c := Candidates(hits);
      var m := CandidateMask(hits);
      assert c == [RowRecord(h), ColRecord(h)] + Candidates(hits[1..]);
      assert m == [KeepRow(h), KeepCol(h)] + CandidateMask(hits[1..]);
      SelectAppend([RowRecord(h), ColRecord(h)], Candidates(hits[1..]), [KeepRow(h), KeepCol(h)], CandidateMask(hits[1..]));
      SelectCandidates(hits[1..]);
      assert Select([RowRecord(h), ColRecord(h)], [KeepRow(h), KeepCol(h)]) ==
        (if KeepRow(h) then [RowRecord(h)] else []) + (if KeepCol(h) then [ColRecord(h)] else []);
    }
  }

  /** The output keeps exactly the flagged candidates, in order, and nothing else. */
  lemma KeptRecordsAreFlaggedCandidates(hits: seq<SimHit>)
    ensures IsSubsequence(KeptRecords(hits), Candidates(hits))
    ensures |KeptRecords(hits)| == CountTrue(CandidateMask(hits))
    ensures forall r :: r in KeptRecords(hits) ==>
      exists k :: 0 <= k < 2 * |hits| && CandidateMask(hits)[k] && Candidates(hits)[k] == r
  {
    SelectCandidates(hits);
    var f := SelectIndices(Candidates(hits), CandidateMask(hits));
    forall r | r in KeptRecords(hits)
      ensures exists k :: 0 <= k < 2 * |hits| && CandidateMask(hits)[k] && Candidates(hits)[k] == r
    {
      var i :| 0 <= i < |KeptRecords(hits)| && KeptRecords(hits)[i] == r;
      assert CandidateMask(hits)[f[i]] && Candidates(hits)[f[i]] == r;
    }
  }

  /** Record 2i is the row channel and record 2i+1 the column channel of hit i; they
      share layer, chip and AstroPix timestamp. */
  lemma CandidatePair(hits: seq<SimHit>, i: int)
    requires 0 <= i < |hits|
    ensures Candidates(hits)[2 * i].isCol == 0 && Candidates(hits)[2 * i].location == hits[i].row
    ensures Candidates(hits)[2 * i + 1].isCol == 1 && Candidates(hits)[2 * i + 1].location == hits[i].col
    ensures Candidates(hits)[2 * i].layer == Candidates(hits)[2 * i + 1].layer == hits[i].layer
    ensures Candidates(hits)[2 * i].chipId == Candidates(hits)[2 * i + 1].chipId == hits[i].chipId
    ensures Candidates(hits)[2 * i].timestamp == Candidates(hits)[2 * i + 1].timestamp == hits[i].astroTs
  {
  }

  /** Every output record has the constant columns dec_ord 0, readout 0 and payload
      4, a channel selector in {0, 1}, and an exact radix split of a ToT in range. */
  lemma {:induction false} KeptRecordsColumns(hits: seq<SimHit>)
    ensures forall r :: r in KeptRecords(hits) ==>
      && r.decOrd == 0 && r.readout == 0 && r.payload == PAYLOAD
      && (r.isCol == 0 || r.isCol == 1)
      && 0 <= r.totTotal < TOT_MAX_CLOCK
      && r.totMsb * TOT_LSB_RANGE + r.totLsb == r.totTotal
  {
    if |hits| > 0 {
      KeptRecordsColumns(hits[1..]);
    }
  }

  /** A pixel with no calibration entry is not an error: both of its records are
      kept, with a ToT of zero. */
  lemma UnmatchedPixelKept(h: SimHit)
    requires h.smear.None?
    ensures KeptRecords([h]) == [RowRecord(h), ColRecord(h)]
    ensures RowRecord(h).totTotal == 0 && ColRecord(h).totTotal == 0
  {
    assert [h][1..] == [];
  }

  /** A hit whose both channels fail the threshold contributes nothing. */
  lemma BothBelowThresholdDropped(h: SimHit)
    requires h.smear.Some? && !h.smear.value.rowAbove && !h.smear.value.colAbove
    ensures KeptRecords([h]) == []
  {
    assert [h][1..] == [];
  }
}
