/** The hit record that flows through the pipeline and the readout-clock constants
    shared by every stage. */
module Hits {
  import opened Seqs

  /** Modulus of the 32-bit FPGA readout counter (FPGA_Max_Clock). */
  const FPGA_MAX_CLOCK: int := 0x1_0000_0000

  /** One row of the 13-column output schema
      dec_ord, readout, layer, chipID, payload, location, isCol, timestamp,
      tot_msb, tot_lsb, tot_total, tot_us, fpga_ts.
      The source holds every column in a float array; all of them carry integers
      except tot_us, a two-decimal value in microseconds, which is kept here as an
      integer count of hundredths of a microsecond. */
  datatype Hit = Hit(
    decOrd: int,
    readout: int,
    layer: int,
    chipId: int,
    payload: int,
    location: int,
    isCol: int,
    timestamp: int,
    totMsb: int,
    totLsb: int,
    totTotal: int,
    totUs: int,
    fpgaTs: int)

  /** A row of `np.zeros`. */
  const ZERO_HIT: Hit := Hit(0, 0, 0, 0, 0, 0, 0, 0, 0, 0, 0, 0, 0)

  /** The last column, `array[:, -1]`: the raw (wrapped) FPGA timestamps. */
  function Times(a: seq<Hit>): (t: seq<int>)
    ensures |t| == |a|
    ensures forall i :: 0 <= i < |a| ==> t[i] == a[i].fpgaTs
  {
    seq(|a|, i requires 0 <= i < |a| => a[i].fpgaTs)
  }

  /** `array[:, 12] = times % FPGA_Max_Clock`: column 12 overwritten with the wrapped
      value of a corrected time, every other column untouched. */
  function WithWrappedTimes(a: seq<Hit>, t: seq<int>): (r: seq<Hit>)
    requires |t| == |a|
  {
    seq(|a|, i requires 0 <= i < |a| => a[i].(fpgaTs := t[i] % FPGA_MAX_CLOCK))
  }

  /** A record with its FPGA column blanked: what the coincidence rewrite leaves alone. */
  function Strip(h: Hit): Hit
  {
    h.(fpgaTs := 0)
  }

  function StripAll(a: seq<Hit>): seq<Hit>
  {
    Map(Strip, a)
  }

  /** Every record is on the row (0) or the column (1) channel. */
  predicate AllBinary(a: seq<Hit>)
  {
    forall i :: 0 <= i < |a| ==> a[i].isCol == 0 || a[i].isCol == 1
  }

  /** A record together with its rollover-corrected time, the pair that the source
      keeps in two parallel arrays and moves together. */
  datatype Entry = Entry(hit: Hit, time: int)

  const ZERO_ENTRY: Entry := Entry(ZERO_HIT, 0)

  function Zip(a: seq<Hit>, t: seq<int>): (e: seq<Entry>)
    requires |a| == |t|
    ensures |e| == |a|
    ensures forall i :: 0 <= i < |a| ==> e[i] == Entry(a[i], t[i])
  {
    seq(|a|, i requires 0 <= i < |a| => Entry(a[i], t[i]))
  }

  function HitsOf(e: seq<Entry>): (a: seq<Hit>)
    ensures |a| == |e|
    ensures forall i :: 0 <= i < |e| ==> a[i] == e[i].hit
  {
    seq(|e|, i requires 0 <= i < |e| => e[i].hit)
  }

  function TimesOf(e: seq<Entry>): (t: seq<int>)
    ensures |t| == |e|
    ensures forall i :: 0 <= i < |e| ==> t[i] == e[i].time
  {
    seq(|e|, i requires 0 <= i < |e| => e[i].time)
  }

  function TimeKey(e: Entry): int
  {
    e.time
  }

  lemma ZipUnzip(e: seq<Entry>)
    ensures Zip(HitsOf(e), TimesOf(e)) == e
  {
  }

  /** Masking two parallel arrays with one mask is masking their pairs. */
  lemma {:induction false} ZipSelect(a: seq<Hit>, t: seq<int>, mask: seq<bool>)
    requires |a| == |t| == |mask|
    ensures Zip(Select(a, mask), Select(t, mask)) == Select(Zip(a, t), mask)
  {
    if |a| > 0 {
      ZipSelect(a[1..], t[1..], mask[1..]);
      assert Zip(a, t)[1..] == Zip(a[1..], t[1..]);
    }
  }

  lemma ZipAppend(a: seq<Hit>, b: seq<Hit>, s: seq<int>, t: seq<int>)
    requires |a| == |s| && |b| == |t|
    ensures Zip(a + b, s + t) == Zip(a, s) + Zip(b, t)
  {
  }
}
