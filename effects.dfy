/** Detector effects on a record stream (ASTEP_Effects.py): rollover-corrected
    FPGA times, then resolution of hits that the FPGA could not have read out
    within one readout window of each other, by re-spacing each such cluster. */
module Effects {
  import opened Seqs
  import opened Hits
  import opened RevCal

  /** The re-spacing step, written as a literal in handle_coinc (it equals
      FPGA_readout_cycles, but is not read from it). */
  const COINC_SPACING: int := 42

  /** Order-equivalent integer form of `times / FPGA_Clock_Freq - ToT_us * 1e-6`:
      the start of the hit in hundredths of an FPGA tick (one tick is a
      microsecond and ToT is kept in hundredths of a microsecond). */
  function StartKey(x: Entry): int
  {
    100 * x.time - x.hit.totUs
  }

  /** `is_col == c`, entry by entry. */
  function ChannelMask(e: seq<Entry>, c: int): (m: seq<bool>)
    ensures |m| == |e|
    ensures forall k :: 0 <= k < |e| ==> m[k] == (e[k].hit.isCol == c)
  {
    seq(|e|, k requires 0 <= k < |e| => e[k].hit.isCol == c)
  }

  /** `rows = np.where(is_col == 0)`, as the entries themselves, in order. */
  function RowsOf(e: seq<Entry>): seq<Entry>
  {
    Select(e, ChannelMask(e, 0))
  }

  /** `cols = np.where(is_col == 1)`. */
  function ColsOf(e: seq<Entry>): seq<Entry>
  {
    Select(e, ChannelMask(e, 1))
  }

  /** `rs` and `cs` are the rows and the columns of a cluster, each sorted
      ascending by start key; the order of equal keys is not fixed, as with the
      default `np.argsort`. */
  ghost predicate Placement(e: seq<Entry>, rs: seq<Entry>, cs: seq<Entry>)
  {
    && multiset(rs) == multiset(RowsOf(e)) && SortedBy(rs, StartKey)
    && multiset(cs) == multiset(ColsOf(e)) && SortedBy(cs, StartKey)
  }

  /** The buffers of handle_coinc before the re-spacing: the sorted rows, then
      the sorted columns reversed, then the zero rows of `np.zeros_like` that no
      record of either channel filled. */
  function Arrange(e: seq<Entry>, rs: seq<Entry>, cs: seq<Entry>): (p: seq<Entry>)
    requires |rs| + |cs| <= |e|
    ensures |p| == |e|
  {
    rs + Reversed(cs) + seq(|e| - |rs| - |cs|, _ => ZERO_ENTRY)
  }

  /** The re-spacing: every slot after the first takes the first slot's corrected
      time plus 42 per slot, and its wrapped FPGA column likewise modulo 2^32. */
  function Respaced(p: seq<Entry>): (r: seq<Entry>)
    ensures |r| == |p|
  {
    seq(|p|, i requires 0 <= i < |p| =>
      if i == 0 then p[0]
      else Entry(p[i].hit.(fpgaTs := (p[0].hit.fpgaTs + COINC_SPACING * i) % FPGA_MAX_CLOCK),
                 p[0].time + COINC_SPACING * i))
  }

  /** `out` is a possible result of handle_coinc on the cluster `e`. */
  ghost predicate CoincResult(e: seq<Entry>, out: seq<Entry>)
  {
    exists rs, cs :: Placement(e, rs, cs) && |rs| + |cs| <= |e| && out == Respaced(Arrange(e, rs, cs))
  }

  /** The two fill loops of handle_coinc: the sorted rows from slot 0, the
      reversed sorted columns after them, zero rows in the slots left over. */
  method PlaceRecords(n: int, rows: seq<Entry>, revCols: seq<Entry>) returns (bufA: array<Hit>, bufT: array<int>)
    requires 0 <= n && |rows| + |revCols| <= n
    ensures fresh(bufA) && fresh(bufT) && bufA.Length == n && bufT.Length == n
    ensures Zip(bufA[..], bufT[..]) == rows + revCols + seq(n - |rows| - |revCols|, _ => ZERO_ENTRY)
  {
    bufA := new Hit[n](_ => ZERO_HIT);
    bufT := new int[n](_ => 0);
    for i := 0 to |rows|
      invariant forall k :: 0 <= k < i ==> Entry(bufA[k], bufT[k]) == rows[k]
      invariant forall k :: i <= k < n ==> Entry(bufA[k], bufT[k]) == ZERO_ENTRY
    {
      bufA[i] := rows[i].hit;
      bufT[i] := rows[i].time;
    }
    var nr := |rows|;
    for i := 0 to |revCols|
      invariant forall k :: 0 <= k < nr ==> Entry(bufA[k], bufT[k]) == rows[k]
      invariant forall k :: nr <= k < nr + i ==> Entry(bufA[k], bufT[k]) == revCols[k - nr]
      invariant forall k :: nr + i <= k < n ==> Entry(bufA[k], bufT[k]) == ZERO_ENTRY
    {
      bufA[nr + i] := revCols[i].hit;
      bufT[nr + i] := revCols[i].time;
    }
    ThreeParts(Zip(bufA[..], bufT[..]), rows, revCols, seq(n - |rows| - |revCols|, _ => ZERO_ENTRY));
  }

  lemma ThreeParts<T>(x: seq<T>, a: seq<T>, b: seq<T>, c: seq<T>)
    requires |x| == |a| + |b| + |c|
    requires forall k :: 0 <= k < |a| ==> x[k] == a[k]
    requires forall k :: |a| <= k < |a| + |b| ==> x[k] == b[k - |a|]
    requires forall k :: |a| + |b| <= k < |x| ==> x[k] == c[k - |a| - |b|]
    ensures x == a + b + c
  {
    assert forall k :: 0 <= k < |x| ==> x[k] == (a + b + c)[k];
  }

  /** The `for i in range(1, len(times))` loop of handle_coinc. */
  method RespaceBuffers(bufA: array<Hit>, bufT: array<int>)
    requires bufA.Length == bufT.Length
    modifies bufA, bufT
    ensures Zip(bufA[..], bufT[..]) == Respaced(old(Zip(bufA[..], bufT[..])))
  {
    ghost var p := Zip(bufA[..], bufT[..]);
    var n := bufA.Length;
    if n > 0 {
      for i := 1 to n
        invariant Entry(bufA[0], bufT[0]) == p[0]
        invariant forall k :: 1 <= k < i ==> Entry(bufA[k], bufT[k]) == Respaced(p)[k]
        invariant forall k :: i <= k < n ==> Entry(bufA[k], bufT[k]) == p[k]
      {
        bufT[i] := bufT[0] + COINC_SPACING * i;
        bufA[i] := bufA[i].(fpgaTs := (bufA[0].fpgaTs + COINC_SPACING * i) % FPGA_MAX_CLOCK);
      }
    }
    assert Zip(bufA[..], bufT[..]) == Respaced(p);
  }

  /** handle_coinc: place the rows ascending and the columns descending by start
      time, then re-space every slot from the first. */
  method HandleCoinc(cluster: seq<Hit>, times: seq<int>) returns (newArray: seq<Hit>, newTimes: seq<int>)
    requires |cluster| == |times|
    ensures |newArray| == |cluster| && |newTimes| == |cluster|
    ensures CoincResult(Zip(cluster, times), Zip(newArray, newTimes))
    ensures forall i :: 1 <= i < |newTimes| ==>
      && newTimes[i] == newTimes[0] + COINC_SPACING * i
      && newArray[i].fpgaTs == (newArray[0].fpgaTs + COINC_SPACING * i) % FPGA_MAX_CLOCK
  {
    var e := Zip(cluster, times);
    var sortRows := SortBy(RowsOf(e), StartKey);
    var sortCols := SortBy(ColsOf(e), StartKey);
    assert Placement(e, sortRows, sortCols);
    PlacementFits(e, sortRows, sortCols);
    var bufA, bufT := PlaceRecords(|cluster|, sortRows, Reversed(sortCols));
    ghost var p := Arrange(e, sortRows, sortCols);
    assert Zip(bufA[..], bufT[..]) == p;
    RespaceBuffers(bufA, bufT);
    newArray := bufA[..];
    newTimes := bufT[..];
    RespacedSpacing(p, newArray, newTimes);
  }

  lemma RespacedSpacing(p: seq<Entry>, a: seq<Hit>, t: seq<int>)
    requires |a| == |t| && Zip(a, t) == Respaced(p)
    ensures forall i :: 1 <= i < |t| ==>
      && t[i] == t[0] + COINC_SPACING * i
      && a[i].fpgaTs == (a[0].fpgaTs + COINC_SPACING * i) % FPGA_MAX_CLOCK
  {
    forall i | 1 <= i < |t|
      ensures t[i] == t[0] + COINC_SPACING * i
      ensures a[i].fpgaTs == (a[0].fpgaTs + COINC_SPACING * i) % FPGA_MAX_CLOCK
    {
      assert Entry(a[i], t[i]) == Respaced(p)[i];
      assert Entry(a[0], t[0]) == Respaced(p)[0] == p[0];
    }
  }

  // ---------------------------------------------------------------------------
  // What a handle_coinc result is

  /** Rows and columns together never outnumber the cluster; when every record is
      on one of the two channels they are exactly the cluster. */
  lemma PlacementFits(e: seq<Entry>, rs: seq<Entry>, cs: seq<Entry>)
    requires Placement(e, rs, cs)
    ensures |rs| + |cs| <= |e|
    ensures |rs| == CountTrue(ChannelMask(e, 0))
    ensures AllBinary(HitsOf(e)) ==> |rs| + |cs| == |e| && multiset(rs) + multiset(cs) == multiset(e)
  {
    assert |rs| == |multiset(rs)| == |multiset(RowsOf(e))| == |RowsOf(e)|;
    assert |cs| == |multiset(cs)| == |multiset(ColsOf(e))| == |ColsOf(e)|;
    CountTrueDisjoint(ChannelMask(e, 0), ChannelMask(e, 1));
    if AllBinary(HitsOf(e)) {
      assert forall k :: 0 <= k < |e| ==> ChannelMask(e, 0)[k] != ChannelMask(e, 1)[k] by {
        forall k | 0 <= k < |e|
          ensures ChannelMask(e, 0)[k] != ChannelMask(e, 1)[k]
        {
          assert HitsOf(e)[k] == e[k].hit;
        }
      }
      SelectComplement(e, ChannelMask(e, 0), ChannelMask(e, 1));
      assert multiset(rs) + multiset(cs) == multiset(e);
      assert |multiset(rs) + multiset(cs)| == |multiset(e)|;
    }
  }

  /** Every placed row is a row record of the cluster, every placed column a
      column record. */
  lemma PlacementMembers(e: seq<Entry>, rs: seq<Entry>, cs: seq<Entry>)
    requires Placement(e, rs, cs)
    ensures forall x :: x in rs ==> x in e && x.hit.isCol == 0
    ensures forall x :: x in cs ==> x in e && x.hit.isCol == 1
  {
    forall x | x in rs
      ensures x in e && x.hit.isCol == 0
    {
      assert x in multiset(RowsOf(e));
      SelectMember(e, ChannelMask(e, 0), x);
    }
    forall x | x in cs
      ensures x in e && x.hit.isCol == 1
    {
      assert x in multiset(ColsOf(e));
      SelectMember(e, ChannelMask(e, 1), x);
    }
  }

  /** The placement before re-spacing: rows ascending by start key, then columns
      descending by start key; re-spacing keeps every record's other columns and
      leaves the first slot exactly as placed. */
  lemma CoincResultArranged(e: seq<Entry>, rs: seq<Entry>, cs: seq<Entry>)
    requires Placement(e, rs, cs) && |rs| + |cs| <= |e|
    ensures forall i, j :: 0 <= i < j < |rs| ==>
      StartKey(Arrange(e, rs, cs)[i]) <= StartKey(Arrange(e, rs, cs)[j])
    ensures forall i, j :: |rs| <= i < j < |rs| + |cs| ==>
      StartKey(Arrange(e, rs, cs)[i]) >= StartKey(Arrange(e, rs, cs)[j])
    ensures |e| > 0 ==> Respaced(Arrange(e, rs, cs))[0] == Arrange(e, rs, cs)[0]
    ensures forall i :: 0 <= i < |e| ==>
      Strip(Respaced(Arrange(e, rs, cs))[i].hit) == Strip(Arrange(e, rs, cs)[i].hit)
  {
    var p := Arrange(e, rs, cs);
    ReversedSortedDesc(cs, StartKey);
    forall i, j | |rs| <= i < j < |rs| + |cs|
      ensures StartKey(p[i]) >= StartKey(p[j])
    {
      assert p[i] == Reversed(cs)[i - |rs|] && p[j] == Reversed(cs)[j - |rs|];
    }
  }

  /** Records on both channels: all rows come before all columns. */
  lemma CoincResultLayout(e: seq<Entry>, out: seq<Entry>)
    requires CoincResult(e, out) && AllBinary(HitsOf(e))
    ensures |out| == |e|
    ensures forall i :: 0 <= i < |out| ==>
      (out[i].hit.isCol == 0 <==> i < CountTrue(ChannelMask(e, 0))) &&
      (out[i].hit.isCol == 1 <==> CountTrue(ChannelMask(e, 0)) <= i)
  {
    var rs: seq<Entry>, cs: seq<Entry> :| Placement(e, rs, cs) && |rs| + |cs| <= |e| && out == Respaced(Arrange(e, rs, cs));
    var p := Arrange(e, rs, cs);
    PlacementFits(e, rs, cs);
    PlacementMembers(e, rs, cs);
    forall i | 0 <= i < |out|
      ensures out[i].hit.isCol == p[i].hit.isCol
      ensures i < |rs| ==> p[i].hit.isCol == 0
      ensures |rs| <= i ==> p[i].hit.isCol == 1
    {
      if i < |rs| {
        assert p[i] == rs[i];
      } else {
        assert p[i] == Reversed(cs)[i - |rs|] == cs[|cs| - 1 - (i - |rs|)];
      }
    }
  }

  /** Blanking column 12, the only part of a hit the rewrite may change. */
  function StripEntry(x: Entry): Hit
  {
    Strip(x.hit)
  }

  /** On two-channel clusters, handle_coinc permutes the records, apart from
      column 12 of the re-spaced slots, and keeps every record on its channel. */
  lemma CoincResultPermutes(e: seq<Entry>, out: seq<Entry>)
    requires CoincResult(e, out) && AllBinary(HitsOf(e))
    ensures multiset(Map(StripEntry, out)) == multiset(Map(StripEntry, e))
    ensures AllBinary(HitsOf(out))
  {
    var rs: seq<Entry>, cs: seq<Entry> :| Placement(e, rs, cs) && |rs| + |cs| <= |e| && out == Respaced(Arrange(e, rs, cs));
    var p := Arrange(e, rs, cs);
    PlacementFits(e, rs, cs);
    CoincResultArranged(e, rs, cs);
    CoincResultLayout(e, out);
    ReversedMultiset(cs);
    assert p == rs + Reversed(cs);
    assert multiset(p) == multiset(e);
    assert Map(StripEntry, out) == Map(StripEntry, p);
    MapMultiset(StripEntry, p, e);
  }

  /** Column 12 holds the corrected time modulo 2^32. */
  predicate Synced(x: Entry)
  {
    x.hit.fpgaTs == x.time % FPGA_MAX_CLOCK
  }

  predicate AllSynced(e: seq<Entry>)
  {
    forall i :: 0 <= i < |e| ==> Synced(e[i])
  }

  lemma ModAddLeft(a: int, b: int)
    ensures (a % FPGA_MAX_CLOCK + b) % FPGA_MAX_CLOCK == (a + b) % FPGA_MAX_CLOCK
  {
    var q := a / FPGA_MAX_CLOCK;
    assert a == FPGA_MAX_CLOCK * q + a % FPGA_MAX_CLOCK;
    assert (a + b) == (a % FPGA_MAX_CLOCK + b) + FPGA_MAX_CLOCK * q;
  }

  /** Re-spacing moves the corrected time and the wrapped column of every slot
      by the same amount, so a synced first slot makes every slot synced. */
  lemma RespacedSynced(p: seq<Entry>)
    requires |p| > 0 && Synced(p[0])
    ensures AllSynced(Respaced(p))
  {
    var r := Respaced(p);
    forall i | 1 <= i < |p|
      ensures Synced(r[i])
    {
      ModAddLeft(p[0].time, COINC_SPACING * i);
      assert r[i].hit.fpgaTs == (p[0].time % FPGA_MAX_CLOCK + COINC_SPACING * i) % FPGA_MAX_CLOCK;
      assert r[i].time == p[0].time + COINC_SPACING * i;
    }
  }

  /** handle_coinc re-spaces the corrected times and the wrapped column by the
      same steps, so a cluster whose column 12 agrees with its corrected times
      still does afterwards. */
  lemma CoincResultSynced(e: seq<Entry>, out: seq<Entry>)
    requires CoincResult(e, out) && AllSynced(e)
    ensures AllSynced(out)
  {
    var rs: seq<Entry>, cs: seq<Entry> :| Placement(e, rs, cs) && |rs| + |cs| <= |e| && out == Respaced(Arrange(e, rs, cs));
    var p := Arrange(e, rs, cs);
    PlacementMembers(e, rs, cs);
    if |e| > 0 {
      assert Synced(p[0]) by {
        if |rs| > 0 {
          assert p[0] == rs[0];
          assert rs[0] in rs;
        } else if |cs| > 0 {
          assert p[0] == cs[|cs| - 1];
          assert cs[|cs| - 1] in cs;
        } else {
          assert p[0] == ZERO_ENTRY;
        }
      }
      RespacedSynced(p);
    }
  }

  /** What the coincidence rewrite keeps of a whole stream: its length, and for
      two-channel streams its records up to column 12 and their channels, and the
      agreement of column 12 with the corrected times. */
  ghost predicate Preserves(e0: seq<Entry>, e1: seq<Entry>)
  {
    && |e1| == |e0|
    && (AllBinary(HitsOf(e0)) ==>
          AllBinary(HitsOf(e1)) && multiset(Map(StripEntry, e1)) == multiset(Map(StripEntry, e0)))
    && (AllSynced(e0) ==> AllSynced(e1))
  }

  lemma CoincResultPreserves(e: seq<Entry>, out: seq<Entry>)
    requires CoincResult(e, out)
    ensures Preserves(e, out)
  {
    var rs: seq<Entry>, cs: seq<Entry> :| Placement(e, rs, cs) && |rs| + |cs| <= |e| && out == Respaced(Arrange(e, rs, cs));
    if AllBinary(HitsOf(e)) {
      CoincResultPermutes(e, out);
    }
    if AllSynced(e) {
      CoincResultSynced(e, out);
    }
  }

  lemma PreservesTrans(e0: seq<Entry>, e1: seq<Entry>, e2: seq<Entry>)
    requires Preserves(e0, e1) && Preserves(e1, e2)
    ensures Preserves(e0, e2)
  {
  }

  /** Rewriting one slice keeps the stream's invariants if it keeps the slice's. */
  lemma PreservesSplice(pre: seq<Entry>, m0: seq<Entry>, m1: seq<Entry>, suf: seq<Entry>)
    requires Preserves(m0, m1)
    ensures Preserves(pre + m0 + suf, pre + m1 + suf)
  {
    var a, b := pre + m0 + suf, pre + m1 + suf;
    if AllBinary(HitsOf(a)) {
      assert AllBinary(HitsOf(m0)) by {
        forall i | 0 <= i < |m0|
          ensures m0[i].hit.isCol == 0 || m0[i].hit.isCol == 1
        {
          assert m0[i] == a[|pre| + i];
        }
      }
      forall i | 0 <= i < |b|
        ensures b[i].hit.isCol == 0 || b[i].hit.isCol == 1
      {
        if |pre| <= i < |pre| + |m1| {
          assert b[i] == m1[i - |pre|];
        } else if i < |pre| {
          assert b[i] == a[i];
        } else {
          assert b[i] == a[i - |m1| + |m0|];
        }
      }
      MapAppend(StripEntry, pre + m0, suf);
      MapAppend(StripEntry, pre, m0);
      MapAppend(StripEntry, pre + m1, suf);
      MapAppend(StripEntry, pre, m1);
    }
    if AllSynced(a) {
      assert AllSynced(m0) by {
        forall i | 0 <= i < |m0|
          ensures Synced(m0[i])
        {
          assert m0[i] == a[|pre| + i];
        }
      }
      forall i | 0 <= i < |b|
        ensures Synced(b[i])
      {
        if |pre| <= i < |pre| + |m1| {
          assert b[i] == m1[i - |pre|];
        } else if i < |pre| {
          assert b[i] == a[i];
        } else {
          assert b[i] == a[i - |m1| + |m0|];
        }
      }
    }
  }

  /** A resequencing example: three row hits at corrected times 1000, 1010 and
      1020 with equal ToT come out at 1000, 1042 and 1084, in their input order. */
  lemma ThreeRowsExample(h0: Hit, h1: Hit, h2: Hit, out: seq<Entry>)
    requires h0.isCol == 0 && h1.isCol == 0 && h2.isCol == 0
    requires h0.totUs == h1.totUs == h2.totUs
    requires CoincResult([Entry(h0, 1000), Entry(h1, 1010), Entry(h2, 1020)], out)
    ensures TimesOf(out) == [1000, 1042, 1084]
    ensures out[0].hit == h0 && Strip(out[1].hit) == Strip(h1) && Strip(out[2].hit) == Strip(h2)
  {
    var e := [Entry(h0, 1000), Entry(h1, 1010), Entry(h2, 1020)];
    var rs: seq<Entry>, cs: seq<Entry> :| Placement(e, rs, cs) && |rs| + |cs| <= |e| && out == Respaced(Arrange(e, rs, cs));
    RowsInKeyOrder(e, rs, cs);
    RespacedThree(e, out);
  }

  /** Three row entries with strictly rising start keys are arranged as given. */
  lemma RowsInKeyOrder(e: seq<Entry>, rs: seq<Entry>, cs: seq<Entry>)
    requires |e| == 3 && StartKey(e[0]) < StartKey(e[1]) < StartKey(e[2])
    requires forall k :: 0 <= k < 3 ==> e[k].hit.isCol == 0
    requires Placement(e, rs, cs) && |rs| + |cs| <= |e|
    ensures Arrange(e, rs, cs) == e
  {
    SelectAllTrue(e, ChannelMask(e, 0));
    assert RowsOf(e) == e;
    SortedDistinctKeys(e, rs);
    assert |cs| == 0;
    assert Arrange(e, rs, cs) == e + Reversed(cs) + seq(0, _ => ZERO_ENTRY);
  }

  /** Re-spacing three slots: times t, t + 42, t + 84; the first slot is kept and
      the others change only in column 12. */
  lemma RespacedThree(p: seq<Entry>, out: seq<Entry>)
    requires |p| == 3 && out == Respaced(p)
    ensures TimesOf(out) == [p[0].time, p[0].time + 42, p[0].time + 84]
    ensures out[0] == p[0] && Strip(out[1].hit) == Strip(p[1].hit) && Strip(out[2].hit) == Strip(p[2].hit)
  {
    RespacedKeeps(p);
    var ts := TimesOf(out);
    assert ts == [ts[0], ts[1], ts[2]];
  }

  /** Re-spacing puts slot i at the first slot's time plus 42·i, keeps the first
      slot and changes no column but column 12. */
  lemma RespacedKeeps(p: seq<Entry>)
    requires |p| > 0
    ensures Respaced(p)[0] == p[0]
    ensures forall i :: 0 <= i < |p| ==> TimesOf(Respaced(p))[i] == p[0].time + COINC_SPACING * i
    ensures forall i :: 0 <= i < |p| ==> Strip(Respaced(p)[i].hit) == Strip(p[i].hit)
  {
  }

  /** Three entries with strictly rising start keys have only one ordering sorted
      by start key. */
  lemma SortedDistinctKeys(e: seq<Entry>, rs: seq<Entry>)
    requires |e| == 3 && StartKey(e[0]) < StartKey(e[1]) < StartKey(e[2])
    requires multiset(rs) == multiset(e) && SortedBy(rs, StartKey)
    ensures rs == e
  {
    ThreeMembers(e, rs);
    assert StartKey(rs[0]) <= StartKey(rs[1]) <= StartKey(rs[2]);
    assert rs[0] == e[0] && rs[2] == e[2];
    MiddleOfThree(e, rs);
  }

  /** Each of three sorted entries is one of the three given, and the least and
      greatest given are among them. */
  lemma ThreeMembers(e: seq<Entry>, rs: seq<Entry>)
    requires |e| == 3 && multiset(rs) == multiset(e)
    ensures |rs| == 3
    ensures forall k :: 0 <= k < 3 ==> rs[k] == e[0] || rs[k] == e[1] || rs[k] == e[2]
    ensures e[0] in rs && e[2] in rs
  {
    assert |rs| == |multiset(rs)| == |multiset(e)| == |e|;
    forall k | 0 <= k < 3
      ensures rs[k] == e[0] || rs[k] == e[1] || rs[k] == e[2]
    {
      assert rs[k] in multiset(e);
    }
    assert e[0] in multiset(rs) && e[2] in multiset(rs);
  }

  /** With the ends in place, the middle entry is the remaining one. */
  lemma MiddleOfThree(e: seq<Entry>, rs: seq<Entry>)
    requires |e| == 3 && |rs| == 3 && multiset(rs) == multiset(e)
    requires e[0] != e[1] && e[1] != e[2] && e[0] != e[2]
    requires rs[0] == e[0] && rs[2] == e[2]
    ensures rs == e
  {
    assert e[1] in multiset(rs);
    assert e[1] in rs;
    assert rs[1] == e[1];
  }

  /** In a cluster of row hits, the first slot holds a row of least start key. */
  lemma FirstPlacedRow(e: seq<Entry>, rs: seq<Entry>, cs: seq<Entry>) returns (first: Entry)
    requires Placement(e, rs, cs) && |rs| + |cs| <= |e| && |e| > 0
    requires forall k :: 0 <= k < |e| ==> e[k].hit.isCol == 0
    ensures first in e && Arrange(e, rs, cs)[0] == first
    ensures forall k :: 0 <= k < |e| ==> StartKey(first) <= StartKey(e[k])
  {
    SelectAllTrue(e, ChannelMask(e, 0));
    assert RowsOf(e) == e;
    PlacementMembers(e, rs, cs);
    PlacementFits(e, rs, cs);
    assert |rs| == |e|;
    first := rs[0];
    assert rs[0] in rs;
    forall k | 0 <= k < |e|
      ensures StartKey(first) <= StartKey(e[k])
    {
      assert e[k] in multiset(rs);
      var j :| 0 <= j < |rs| && rs[j] == e[k];
      assert j == 0 || StartKey(rs[0]) <= StartKey(rs[j]);
    }
  }

  // ---------------------------------------------------------------------------
  // The cluster scan

  /** The inner `while not end_of_cluster` loop from a coincident start: grow the
      cluster while the next hit still fits a window of 42 cycles per member. */
  method FindClusterEnd(t: seq<int>, s: int) returns (e: int)
    requires 0 <= s && s + 1 < |t|
    ensures s + 1 <= e < |t|
    ensures forall k :: s + 1 < k <= e ==> t[k] - t[s] <= FPGA_READOUT_CYCLES * (k - s)
    ensures e == |t| - 1 || t[e + 1] - t[s] > FPGA_READOUT_CYCLES * (e + 1 - s)
  {
    e := s + 1;
    var endOfCluster := false;
    while !endOfCluster
      invariant s + 1 <= e < |t|
      invariant forall k :: s + 1 < k <= e ==> t[k] - t[s] <= FPGA_READOUT_CYCLES * (k - s)
      invariant endOfCluster ==> e == |t| - 1 || t[e + 1] - t[s] > FPGA_READOUT_CYCLES * (e + 1 - s)
      decreases |t| - e, !endOfCluster
    {
      if e == |t| - 1 {
        endOfCluster := true;
      } else if t[e + 1] - t[s] <= FPGA_READOUT_CYCLES * (e + 1 - s) {
        e := e + 1;
      } else {
        endOfCluster := true;
      }
    }
  }

  /** `sum(np.diff(out_time) < FPGA_readout_cycles)`. */
  function CountCoincidences(t: seq<int>): nat
  {
    if |t| < 2 then 0
    else (if t[1] - t[0] < FPGA_READOUT_CYCLES then 1 else 0) + CountCoincidences(t[1..])
  }

  /** Every adjacent pair is at least one readout window apart. */
  predicate NoCoincidences(t: seq<int>)
  {
    forall i :: 0 <= i < |t| - 1 ==> t[i + 1] - t[i] >= FPGA_READOUT_CYCLES
  }

  lemma {:induction false} CountZeroIff(t: seq<int>)
    ensures CountCoincidences(t) == 0 <==> NoCoincidences(t)
  {
    if |t| >= 2 {
      CountZeroIff(t[1..]);
      assert forall i :: 1 <= i < |t| - 1 ==> t[i + 1] - t[i] == t[1..][i] - t[1..][i - 1];
      if NoCoincidences(t) {
        assert NoCoincidences(t[1..]) by {
          forall i | 0 <= i < |t[1..]| - 1
            ensures t[1..][i + 1] - t[1..][i] >= FPGA_READOUT_CYCLES
          {
            assert t[1..][i + 1] - t[1..][i] == t[i + 2] - t[i + 1];
          }
        }
      }
    }
  }

  // ---------------------------------------------------------------------------
  // Writing a rewritten cluster back into the stream

  /** `x[s:e+1] = y`. */
  function Splice<T>(x: seq<T>, s: int, e: int, y: seq<T>): seq<T>
    requires 0 <= s <= e < |x|
  {
    x[..s] + y + x[e + 1..]
  }

  lemma SpliceParts<T>(x: seq<T>, s: int, e: int, y: seq<T>)
    requires 0 <= s <= e < |x| && |y| == e + 1 - s
    ensures |Splice(x, s, e, y)| == |x|
    ensures Splice(x, s, e, y)[..s] == x[..s]
    ensures Splice(x, s, e, y)[s..e + 1] == y
    ensures Splice(x, s, e, y)[e + 1..] == x[e + 1..]
  {
    var z := Splice(x, s, e, y);
    assert z[..s] == x[..s];
    assert z[s..e + 1] == y;
    assert z[e + 1..] == x[e + 1..];
  }

  /** Splicing a preserving rewrite of a cluster into both parallel columns
      preserves the whole stream. */
  lemma SplicePreserves(a: seq<Hit>, t: seq<int>, s: int, e: int, na: seq<Hit>, nt: seq<int>)
    requires 0 <= s <= e < |t| && |a| == |t| && |na| == |nt| == e + 1 - s
    requires Preserves(Zip(a[s..e + 1], t[s..e + 1]), Zip(na, nt))
    ensures Preserves(Zip(a, t), Zip(Splice(a, s, e, na), Splice(t, s, e, nt)))
  {
    PreservesSplice(Zip(a[..s], t[..s]), Zip(a[s..e + 1], t[s..e + 1]), Zip(na, nt), Zip(a[e + 1..], t[e + 1..]));
    assert a == a[..s] + a[s..e + 1] + a[e + 1..];
    assert t == t[..s] + t[s..e + 1] + t[e + 1..];
    ZipAppend(a[..s], a[s..e + 1], t[..s], t[s..e + 1]);
    ZipAppend(a[..s] + a[s..e + 1], a[e + 1..], t[..s] + t[s..e + 1], t[e + 1..]);
    ZipAppend(a[..s], na, t[..s], nt);
    ZipAppend(a[..s] + na, a[e + 1..], t[..s] + nt, t[e + 1..]);
  }

  // ---------------------------------------------------------------------------
  // The effects stage

  class Effects {
    /** The stream as received, then as cleaned with column 12 re-wrapped. */
    var inArray: seq<Hit>
    /** The rollover-corrected FPGA times of `inArray`. */
    var inFpgaTimes: seq<int>
    /** The stream after coincidence resolution. */
    var outArray: seq<Hit>
    /** Its corrected times; the source binds this to the same array as
        `inFpgaTimes`, so the two are equal once resolution is done. */
    var outTime: seq<int>

    constructor (inArray: seq<Hit>)
      ensures this.inArray == inArray
      ensures inFpgaTimes == [] && outArray == [] && outTime == []
    {
      this.inArray := inArray;
      inFpgaTimes := [];
      outArray := [];
      outTime := [];
    }

    /** sort_FPGA_timestamps: clean the stream, unwrap its FPGA times, keep them,
        and write them back into column 12 modulo 2^32. */
    method SortFPGATimestamps()
      modifies this
      ensures inFpgaTimes == Unwrapped(Times(Clean(old(inArray))))
      ensures inArray == WithWrappedTimes(Clean(old(inArray)), inFpgaTimes)
      ensures outArray == old(outArray) && outTime == old(outTime)
    {
      inArray := CleanFPGATimes(inArray);
      var corrected := UnwrapTimes(Times(inArray));
      inFpgaTimes := corrected;
      inArray := WithWrappedTimes(inArray, corrected);
    }

    /** `self.out_array[s:e+1], self.out_time[s:e+1] = self.handle_coinc(...)`. */
    method RewriteCluster(s: int, e: int)
      modifies this
      requires 0 <= s < e < |outTime| && |outArray| == |outTime|
      ensures |outArray| == |outTime| == old(|outTime|)
      ensures outArray[..s] == old(outArray[..s]) && outTime[..s] == old(outTime[..s])
      ensures outArray[e + 1..] == old(outArray[e + 1..]) && outTime[e + 1..] == old(outTime[e + 1..])
      ensures CoincResult(Zip(old(outArray[s..e + 1]), old(outTime[s..e + 1])), Zip(outArray[s..e + 1], outTime[s..e + 1]))
      ensures Preserves(Zip(old(outArray), old(outTime)), Zip(outArray, outTime))
      ensures inArray == old(inArray) && inFpgaTimes == old(inFpgaTimes)
    {
      var a, t := outArray, outTime;
      var na, nt := HandleCoinc(a[s..e + 1], t[s..e + 1]);
      CoincResultPreserves(Zip(a[s..e + 1], t[s..e + 1]), Zip(na, nt));
      SplicePreserves(a, t, s, e, na, nt);
      SpliceParts(a, s, e, na);
      SpliceParts(t, s, e, nt);
      outArray := Splice(a, s, e, na);
      outTime := Splice(t, s, e, nt);
    }

    /** One pass of the `while end_idx < len(self.out_time)` loop: at every
        coincident start, find the cluster, rewrite it, and resume the scan at the
        cluster's last index. */
    method ScanPass()
      modifies this
      requires |outArray| == |outTime|
      ensures |outArray| == |outTime| == old(|outTime|)
      ensures Preserves(Zip(old(outArray), old(outTime)), Zip(outArray, outTime))
      ensures NoCoincidences(old(outTime)) ==> outArray == old(outArray) && outTime == old(outTime)
      ensures inArray == old(inArray) && inFpgaTimes == old(inFpgaTimes)
    {
      var startIdx := 0;
      var endIdx := 1;
      while endIdx < |outTime|
        invariant 0 <= startIdx && endIdx == startIdx + 1
        invariant |outArray| == |outTime| == old(|outTime|)
        invariant Preserves(Zip(old(outArray), old(outTime)), Zip(outArray, outTime))
        invariant NoCoincidences(old(outTime)) ==> outArray == old(outArray) && outTime == old(outTime)
        invariant inArray == old(inArray) && inFpgaTimes == old(inFpgaTimes)
        decreases |outTime| - endIdx
      {
        var coinc := outTime[endIdx] - outTime[startIdx] < FPGA_READOUT_CYCLES;
        if coinc {
          ghost var before := Zip(outArray, outTime);
          endIdx := FindClusterEnd(outTime, startIdx);
          RewriteCluster(startIdx, endIdx);
          PreservesTrans(Zip(old(outArray), old(outTime)), before, Zip(outArray, outTime));
        }
        startIdx := endIdx;
        endIdx := startIdx + 1;
      }
    }

    /** coincidence_hits: repeat the scan while some adjacent gap is below one
        readout window. The source's loop has no bound; `fuel` caps the passes. */
    method CoincidenceHits(fuel: nat) returns (converged: bool)
      modifies this
      requires |inArray| == |inFpgaTimes|
      ensures inArray == old(inArray)
      ensures inFpgaTimes == outTime
      ensures |outArray| == |outTime| == |old(inArray)|
      ensures Preserves(Zip(old(inArray), old(inFpgaTimes)), Zip(outArray, outTime))
      ensures converged <==> NoCoincidences(outTime)
      ensures NoCoincidences(old(inFpgaTimes)) ==>
        converged && outArray == old(inArray) && outTime == old(inFpgaTimes)
    {
      outTime := inFpgaTimes;
      outArray := inArray;
      var nCoin := CountCoincidences(outTime);
      var passes := 0;
      CountZeroIff(outTime);
      while nCoin != 0 && passes < fuel
        invariant |outArray| == |outTime| == |old(inArray)|
        invariant inArray == old(inArray) && inFpgaTimes == old(inFpgaTimes)
        invariant Preserves(Zip(old(inArray), old(inFpgaTimes)), Zip(outArray, outTime))
        invariant nCoin == CountCoincidences(outTime)
        invariant NoCoincidences(old(inFpgaTimes)) ==>
          nCoin == 0 && outArray == old(inArray) && outTime == old(inFpgaTimes)
        decreases fuel - passes
      {
        ghost var before := Zip(outArray, outTime);
        ScanPass();
        PreservesTrans(Zip(old(inArray), old(inFpgaTimes)), before, Zip(outArray, outTime));
        nCoin := CountCoincidences(outTime);
        passes := passes + 1;
      }
      inFpgaTimes := outTime;
      CountZeroIff(outTime);
      converged := nCoin == 0;
    }

    /** process, without the file output: sort the FPGA times, then resolve the
        coincidences. On return column 12 of every record is its corrected time
        modulo 2^32, and on two-channel streams the records are those of the
        cleaned input up to column 12. */
    method Process(fuel: nat) returns (converged: bool)
      modifies this
      ensures inArray == WithWrappedTimes(Clean(old(inArray)), Unwrapped(Times(Clean(old(inArray)))))
      ensures inFpgaTimes == outTime
      ensures |outArray| == |outTime| == |Clean(old(inArray))|
      ensures Preserves(Zip(inArray, Unwrapped(Times(Clean(old(inArray))))), Zip(outArray, outTime))
      ensures AllSynced(Zip(outArray, outTime))
      ensures converged <==> NoCoincidences(outTime)
    {
      SortFPGATimestamps();
      SortedStreamSynced(old(inArray));
      converged := CoincidenceHits(fuel);
    }
  }

  // ---------------------------------------------------------------------------
  // The stream handed to coincidence resolution

  /** After sort_FPGA_timestamps every record's column 12 is its corrected time
      modulo 2^32, as resolution expects. */
  lemma SortedStreamSynced(a: seq<Hit>)
    ensures AllSynced(Zip(WithWrappedTimes(Clean(a), Unwrapped(Times(Clean(a)))), Unwrapped(Times(Clean(a)))))
  {
  }

  /** For counter values in range, the sorted stream is exactly the cleaned one:
      re-wrapping the corrected times gives back the raw column. */
  lemma SortedStreamIsCleaned(a: seq<Hit>)
    requires forall i :: 0 <= i < |a| ==> 0 <= a[i].fpgaTs < FPGA_MAX_CLOCK
    ensures WithWrappedTimes(Clean(a), Unwrapped(Times(Clean(a)))) == Clean(a)
    ensures IsSubsequence(Clean(a), a)
  {
    CleanIsSubsequence(a);
    var f :| SubsequenceBy(Clean(a), a, f);
    assert forall i :: 0 <= i < |Clean(a)| ==> Clean(a)[i] == a[f[i]];
    WrapBackIsIdentity(Clean(a));
  }
}
