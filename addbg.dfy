/** Merging a measured background stream into the simulated one
    (ASTEP_Add_BG.py): the text rule that reads the background CSV, the clean-up
    and rebasing of both streams' FPGA times, and the time-ordered merge of the
    overlap. */
module AddBG {
  import opened Wrappers
  import opened Seqs
  import opened Hits
  import opened RevCal

  /** The exceptions the stage raises, by where they arise. */
  datatype MergeError =
    | ShortLine(lineNo: nat)    // `split_line[6]` on a line of fewer than seven fields
    | BadRow(lineNo: nat)       // `np.array(output, dtype=float)` on a row that is not numeric
    | NoDataLines               // `output[:, 4]` on the empty array of a header-only file
    | NoBackgroundHits          // `BG_FPGA_times_corrected[0]` of an empty stream
    | NoSurvivingBackground     // `max()` of the rebased stream once nothing is left of it
    | NoSimulatedHits           // `max()` of an empty simulated stream

  // ---------------------------------------------------------------------------
  // Text rules of read_BG

  /** The ASCII characters `str.strip()` removes. */
  predicate IsSpace(c: char)
  {
    c == ' ' || '\t' <= c <= '\r' || '\U{1C}' <= c <= '\U{1F}'
  }

  function TrimLeft(s: string): string
  {
    if |s| > 0 && IsSpace(s[0]) then TrimLeft(s[1..]) else s
  }

  /** TrimLeft drops exactly the leading blanks. */
  lemma {:induction false} TrimLeftSpec(s: string)
    ensures |TrimLeft(s)| <= |s| && TrimLeft(s) == s[|s| - |TrimLeft(s)|..]
    ensures forall k :: 0 <= k < |s| - |TrimLeft(s)| ==> IsSpace(s[k])
    ensures |TrimLeft(s)| > 0 ==> !IsSpace(TrimLeft(s)[0])
  {
    if |s| > 0 && IsSpace(s[0]) {
      TrimLeftSpec(s[1..]);
    }
  }

  function TrimRight(s: string): string
  {
    if |s| > 0 && IsSpace(s[|s| - 1]) then TrimRight(s[..|s| - 1]) else s
  }

  /** TrimRight drops exactly the trailing blanks. */
  lemma {:induction false} TrimRightSpec(s: string)
    ensures |TrimRight(s)| <= |s| && TrimRight(s) == s[..|TrimRight(s)|]
    ensures forall k :: |TrimRight(s)| <= k < |s| ==> IsSpace(s[k])
    ensures |TrimRight(s)| > 0 ==> !IsSpace(TrimRight(s)[|TrimRight(s)| - 1])
  {
    if |s| > 0 && IsSpace(s[|s| - 1]) {
      TrimRightSpec(s[..|s| - 1]);
    }
  }

  /** `str.strip()`: the field without its leading and trailing blanks. */
  function StripSpace(s: string): (r: string)
    ensures |r| > 0 ==> !IsSpace(r[0]) && !IsSpace(r[|r| - 1])
  {
    TrimLeftSpec(s);
    TrimRightSpec(TrimLeft(s));
    TrimRight(TrimLeft(s))
  }

  /** Stripping cuts a run of blanks off each end and nothing else. */
  lemma StripSpaceIsSlice(s: string)
    ensures exists i, j ::
      && 0 <= i <= j <= |s| && StripSpace(s) == s[i..j]
      && (forall k :: 0 <= k < i ==> IsSpace(s[k]))
      && (forall k :: j <= k < |s| ==> IsSpace(s[k]))
  {
    var t := TrimLeft(s);
    var r := TrimRight(t);
    TrimLeftSpec(s);
    TrimRightSpec(t);
    var i := |s| - |t|;
    var j := i + |r|;
    assert t == s[i..] && r == t[..|r|];
    assert r == s[i..j];
    forall k | j <= k < |s|
      ensures IsSpace(s[k])
    {
      assert s[k] == t[k - i];
    }
    assert StripSpace(s) == s[i..j];
  }

  /** A field without blanks at its ends is its own stripped form. */
  lemma StripSpaceTrimmed(s: string)
    requires |s| > 0 ==> !IsSpace(s[0]) && !IsSpace(s[|s| - 1])
    ensures StripSpace(s) == s
  {
  }

  /** The is_col rule: a "True" or "1" field becomes "1", a "False" or "0" field
      becomes "0", blanks around them allowed; any other field is kept as it is. */
  function NormaliseIsCol(field: string): string
  {
    var f := StripSpace(field);
    if f == "True" || f == "1" then "1"
    else if f == "False" || f == "0" then "0"
    else field
  }

  /** Normalised fields are "0" or "1" exactly when the field spelled one of the
      four accepted literals, and the rule maps each to its channel. */
  lemma NormaliseIsColBinary(field: string)
    ensures NormaliseIsCol(field) == "1" <==> StripSpace(field) == "True" || StripSpace(field) == "1"
    ensures NormaliseIsCol(field) == "0" <==> StripSpace(field) == "False" || StripSpace(field) == "0"
  {
    var f := StripSpace(field);
    if !(f == "True" || f == "1" || f == "False" || f == "0") {
      if field == "1" || field == "0" {
        StripSpaceTrimmed(field);
      }
    }
  }

  /** The two normalised spellings carry no blanks. */
  lemma StrippedZero()
    ensures StripSpace("0") == "0"
  {
    StripSpaceTrimmed("0");
  }

  lemma StrippedOne()
    ensures StripSpace("1") == "1"
  {
    StripSpaceTrimmed("1");
  }

  /** The normalised spellings are fixed by the rule. */
  lemma NormaliseDigits()
    ensures NormaliseIsCol("0") == "0" && NormaliseIsCol("1") == "1"
  {
    StrippedZero();
    StrippedOne();
  }

  /** Normalising twice normalises once. */
  lemma NormaliseIsColIdempotent(field: string)
    ensures NormaliseIsCol(NormaliseIsCol(field)) == NormaliseIsCol(field)
  {
    var f := StripSpace(field);
    if f == "True" || f == "1" {
      assert NormaliseIsCol(field) == "1";
    } else if f == "False" || f == "0" {
      assert NormaliseIsCol(field) == "0";
    } else {
      assert NormaliseIsCol(field) == field;
    }
    NormaliseDigits();
  }

  /** `line.split(sep)`: the pieces between separators, empty pieces included. */
  function SplitOn(s: string, sep: char): (r: seq<string>)
    ensures |r| >= 1
  {
    if |s| == 0 then [""]
    else
      var rest := SplitOn(s[1..], sep);
      if s[0] == sep then [""] + rest else [[s[0]] + rest[0]] + rest[1..]
  }

  /** No piece holds a separator. */
  lemma {:induction false} SplitPartsSeparatorFree(s: string, sep: char)
    ensures forall i :: 0 <= i < |SplitOn(s, sep)| ==> sep !in SplitOn(s, sep)[i]
  {
    if |s| > 0 {
      SplitPartsSeparatorFree(s[1..], sep);
      var rest := SplitOn(s[1..], sep);
      if s[0] != sep {
        assert SplitOn(s, sep)[0] == [s[0]] + rest[0];
        assert forall i :: 1 <= i < |SplitOn(s, sep)| ==> SplitOn(s, sep)[i] == rest[i];
      } else {
        assert forall i :: 1 <= i < |SplitOn(s, sep)| ==> SplitOn(s, sep)[i] == rest[i - 1];
      }
    }
  }

  /** `sep.join(parts)`. */
  function Join(parts: seq<string>, sep: char): string
    requires |parts| >= 1
  {
    if |parts| == 1 then parts[0] else parts[0] + [sep] + Join(parts[1..], sep)
  }

  /** Number of separators in a line. */
  function Occurrences(s: string, sep: char): nat
  {
    if |s| == 0 then 0 else (if s[0] == sep then 1 else 0) + Occurrences(s[1..], sep)
  }

  /** Splitting loses nothing: joining the pieces gives the line back. */
  lemma {:induction false} SplitJoin(s: string, sep: char)
    ensures Join(SplitOn(s, sep), sep) == s
  {
    if |s| > 0 {
      SplitJoin(s[1..], sep);
      var rest := SplitOn(s[1..], sep);
      if s[0] == sep {
        assert SplitOn(s, sep) == [""] + rest;
        assert s == [s[0]] + s[1..];
      } else if |rest| == 1 {
        assert SplitOn(s, sep) == [[s[0]] + rest[0]];
      } else {
        var parts := SplitOn(s, sep);
        assert parts[1..] == rest[1..];
        assert Join(rest, sep) == rest[0] + [sep] + Join(rest[1..], sep);
        assert s == [s[0]] + s[1..];
      }
    }
  }

  /** A line splits into one more piece than it has separators. */
  lemma {:induction false} SplitCount(s: string, sep: char)
    ensures |SplitOn(s, sep)| == Occurrences(s, sep) + 1
  {
    if |s| > 0 {
      SplitCount(s[1..], sep);
    }
  }

  /** A data line with the is_col field normalised. */
  function NormaliseRow(fields: seq<string>): (r: seq<string>)
    requires |fields| >= 7
    ensures |r| == |fields| && r[6] == NormaliseIsCol(fields[6])
    ensures forall k :: 0 <= k < |fields| && k != 6 ==> r[k] == fields[k]
  {
    fields[6 := NormaliseIsCol(fields[6])]
  }

  /** Every line after the header has a seventh field. */
  predicate WellFormedLines(lines: seq<string>)
  {
    forall i :: 1 <= i < |lines| ==> |SplitOn(lines[i], ',')| >= 7
  }

  /** The text loop of read_BG: skip the header, split every other line at commas,
      normalise its is_col field; a line without a seventh field raises. */
  method ReadBGLines(lines: seq<string>) returns (r: Result<seq<seq<string>>, MergeError>)
    ensures r.Success? <==> WellFormedLines(lines)
    ensures r.Success? ==>
      && |r.value| == (if |lines| == 0 then 0 else |lines| - 1)
      && forall i :: 0 <= i < |r.value| ==> r.value[i] == NormaliseRow(SplitOn(lines[i + 1], ','))
    ensures r.Failure? ==>
      && r.error.ShortLine? && 1 <= r.error.lineNo < |lines|
      && |SplitOn(lines[r.error.lineNo], ',')| < 7
      && forall i :: 1 <= i < r.error.lineNo ==> |SplitOn(lines[i], ',')| >= 7
  {
    if |lines| == 0 {
      return Success([]);
    }
    // line 0 is the header
    var output: seq<seq<string>> := [];
    for i := 1 to |lines|
      invariant |output| == i - 1
      invariant forall k :: 1 <= k < i ==> |SplitOn(lines[k], ',')| >= 7
      invariant forall k :: 0 <= k < |output| ==> output[k] == NormaliseRow(SplitOn(lines[k + 1], ','))
    {
      var splitLine := SplitOn(lines[i], ',');
      if |splitLine| < 7 {
        return Failure(ShortLine(i));
      }
      output := output + [NormaliseRow(splitLine)];
    }
    return Success(output);
  }

  /** The data rows of a well-formed file. */
  function DataRows(lines: seq<string>): (rows: seq<seq<string>>)
    requires |lines| >= 1 && WellFormedLines(lines)
    ensures |rows| == |lines| - 1
  {
    seq(|lines| - 1, i requires 0 <= i < |lines| - 1 => NormaliseRow(SplitOn(lines[i + 1], ',')))
  }

  /** The first data row whose float conversion fails, or the number of rows
      when every row converts; `np.array` raises at such a row. */
  function FirstBad(rows: seq<seq<string>>, toRecord: seq<string> -> Option<Hit>): (k: nat)
    ensures k <= |rows|
    ensures forall j :: 0 <= j < k ==> toRecord(rows[j]).Some?
    ensures k < |rows| ==> toRecord(rows[k]).None?
  {
    if |rows| == 0 then 0
    else if toRecord(rows[0]).None? then 0
    else 1 + FirstBad(rows[1..], toRecord)
  }

  /** Every data row converts to a record. */
  predicate AllConvert(rows: seq<seq<string>>, toRecord: seq<string> -> Option<Hit>)
  {
    forall i :: 0 <= i < |rows| ==> toRecord(rows[i]).Some?
  }

  /** The records of rows that all convert, in row order. */
  function Records(rows: seq<seq<string>>, toRecord: seq<string> -> Option<Hit>): (hs: seq<Hit>)
    requires AllConvert(rows, toRecord)
    ensures |hs| == |rows|
    ensures forall i :: 0 <= i < |rows| ==> toRecord(rows[i]) == Some(hs[i])
  {
    seq(|rows|, i requires 0 <= i < |rows| => toRecord(rows[i]).value)
  }

  /** `output[:, 4] == 4`. */
  function PayloadMask(a: seq<Hit>): (m: seq<bool>)
    ensures |m| == |a|
    ensures forall k :: 0 <= k < |a| ==> m[k] == (a[k].payload == PAYLOAD)
  {
    seq(|a|, k requires 0 <= k < |a| => a[k].payload == PAYLOAD)
  }

  /** `output[output[:, 4] == 4]`. */
  function PayloadFilter(a: seq<Hit>): seq<Hit>
  {
    Select(a, PayloadMask(a))
  }

  /** The filter keeps exactly the payload-4 records, in their order. */
  lemma PayloadFilterSpec(a: seq<Hit>)
    ensures IsSubsequence(PayloadFilter(a), a)
    ensures forall r :: r in PayloadFilter(a) ==> r.payload == PAYLOAD
    ensures forall k :: 0 <= k < |a| && a[k].payload == PAYLOAD ==> a[k] in PayloadFilter(a)
  {
    SelectIsSubsequence(a, PayloadMask(a));
    forall r | r in PayloadFilter(a)
      ensures r.payload == PAYLOAD
    {
      SelectMember(a, PayloadMask(a), r);
    }
    forall k | 0 <= k < |a| && a[k].payload == PAYLOAD
      ensures a[k] in PayloadFilter(a)
    {
      SelectKeeps(a, PayloadMask(a), k);
    }
  }

  // ---------------------------------------------------------------------------
  // Rebasing the background stream and merging

  /** `u - u[0]`: the corrected background times, starting from 0. */
  function Rebase(u: seq<int>): (r: seq<int>)
    requires |u| > 0
    ensures |r| == |u| && r[0] == 0
    ensures forall k :: 0 <= k < |u| ==> r[k] == u[k] - u[0]
  {
    seq(|u|, k requires 0 <= k < |u| => u[k] - u[0])
  }

  /** `times > 0`. */
  function PositiveMask(t: seq<int>): (m: seq<bool>)
    ensures |m| == |t|
    ensures forall k :: 0 <= k < |t| ==> m[k] == (t[k] > 0)
  {
    seq(|t|, k requires 0 <= k < |t| => t[k] > 0)
  }

  /** The background FPGA times after sort_FPGA_times: cleaned, unwrapped,
      rebased to the first, and only the strictly positive ones. */
  function BGTimes(bg: seq<Hit>): seq<int>
  {
    var u := Unwrapped(Times(Clean(bg)));
    if |u| == 0 then [] else Select(Rebase(u), PositiveMask(Rebase(u)))
  }

  /** The background records that go with BGTimes, column 12 re-wrapped. */
  function BGRecords(bg: seq<Hit>): (r: seq<Hit>)
    ensures |r| == |BGTimes(bg)|
  {
    var c := Clean(bg);
    var u := Unwrapped(Times(c));
    if |u| == 0 then []
    else WithWrappedTimes(Select(c, PositiveMask(Rebase(u))), BGTimes(bg))
  }

  /** The background half of sort_FPGA_times: clean, unwrap, rebase to the first
      time, keep the strictly positive times and re-wrap column 12. */
  method SortBackground(bg: seq<Hit>) returns (records: seq<Hit>, times: seq<int>)
    requires |bg| > 0
    ensures records == BGRecords(bg) && times == BGTimes(bg)
    ensures |records| == |times|
  {
    CleanKeepsFirst(bg);
    var cleanBg := CleanFPGATimes(bg);
    var corrected := UnwrapTimes(Times(cleanBg));
    // set the clock to start at 0 and drop what is not after the start
    var rebased := Rebase(corrected);
    var dropMask := PositiveMask(rebased);
    times := Select(rebased, dropMask);
    records := WithWrappedTimes(Select(cleanBg, dropMask), times);
  }

  /** Every time after the first is kept, less the first. */
  lemma PositiveKept(u: seq<int>)
    requires |u| > 0
    ensures forall k :: 0 <= k < |u| && u[k] > u[0] ==> u[k] - u[0] in Select(Rebase(u), PositiveMask(Rebase(u)))
  {
    var r := Rebase(u);
    var m := PositiveMask(r);
    forall k | 0 <= k < |u| && u[k] > u[0]
      ensures u[k] - u[0] in Select(r, m)
    {
      assert m[k] && r[k] == u[k] - u[0];
      SelectKeeps(r, m, k);
    }
  }

  /** Every kept time is some later time less the first, so strictly positive. */
  lemma PositiveMembers(u: seq<int>)
    requires |u| > 0
    ensures forall t :: t in Select(Rebase(u), PositiveMask(Rebase(u))) ==>
      t > 0 && exists k :: 0 <= k < |u| && u[k] > u[0] && t == u[k] - u[0]
  {
    var r := Rebase(u);
    forall t | t in Select(r, PositiveMask(r))
      ensures t > 0 && exists k :: 0 <= k < |u| && u[k] > u[0] && t == u[k] - u[0]
    {
      SelectMember(r, PositiveMask(r), t);
      var k :| 0 <= k < |r| && PositiveMask(r)[k] && r[k] == t;
      assert u[k] > u[0] && t == u[k] - u[0];
    }
  }

  /** The mask keeps exactly the rebased times that are strictly positive, in
      order; the first, being 0, never passes. */
  lemma PositiveSelect(u: seq<int>)
    requires |u| > 0
    ensures forall t :: t in Select(Rebase(u), PositiveMask(Rebase(u))) ==>
      t > 0 && exists k :: 0 <= k < |u| && u[k] > u[0] && t == u[k] - u[0]
    ensures forall k :: 0 <= k < |u| && u[k] > u[0] ==> u[k] - u[0] in Select(Rebase(u), PositiveMask(Rebase(u)))
    ensures IsSubsequence(Select(Rebase(u), PositiveMask(Rebase(u))), Rebase(u))
    ensures |Select(Rebase(u), PositiveMask(Rebase(u)))| < |u|
  {
    var r := Rebase(u);
    PositiveMembers(u);
    PositiveKept(u);
    SelectIsSubsequence(r, PositiveMask(r));
    CountTrueBelow(PositiveMask(r), 0);
  }

  /** The surviving background times are exactly the strictly positive rebased
      times, in order; the first background record (rebased to 0) never survives. */
  lemma BGTimesPositive(bg: seq<Hit>)
    ensures forall t :: t in BGTimes(bg) ==> t > 0
    ensures var u := Unwrapped(Times(Clean(bg)));
      forall k :: 0 <= k < |u| && u[k] > u[0] ==> u[k] - u[0] in BGTimes(bg)
    ensures var u := Unwrapped(Times(Clean(bg)));
      |u| > 0 ==> IsSubsequence(BGTimes(bg), Rebase(u))
    ensures |bg| > 0 ==> |BGTimes(bg)| < |Clean(bg)|
  {
    var u := Unwrapped(Times(Clean(bg)));
    assert |u| == |Clean(bg)|;
    if |bg| > 0 {
      CleanKeepsFirst(bg);
    }
    if |u| > 0 {
      PositiveSelect(u);
    }
    BGTimesKept(bg);
  }

  lemma BGTimesKept(bg: seq<Hit>)
    ensures var u := Unwrapped(Times(Clean(bg)));
      forall k :: 0 <= k < |u| && u[k] > u[0] ==> u[k] - u[0] in BGTimes(bg)
  {
    var u := Unwrapped(Times(Clean(bg)));
    if |u| > 0 {
      PositiveKept(u);
    }
  }

  /** The background records keep their order and every column but the FPGA one. */
  lemma BGRecordsSubsequence(bg: seq<Hit>)
    ensures IsSubsequence(StripAll(BGRecords(bg)), StripAll(Clean(bg)))
  {
    var c := Clean(bg);
    var u := Unwrapped(Times(c));
    if |u| == 0 {
      assert SubsequenceBy(StripAll(BGRecords(bg)), StripAll(c), []);
    } else {
      var m := PositiveMask(Rebase(u));
      var f := SelectIndices(c, m);
      var x := StripAll(BGRecords(bg));
      forall i | 0 <= i < |f|
        ensures 0 <= f[i] < |c| && x[i] == StripAll(c)[f[i]]
      {
        assert BGRecords(bg)[i] == Select(c, m)[i].(fpgaTs := BGTimes(bg)[i] % FPGA_MAX_CLOCK);
      }
      assert SubsequenceBy(x, StripAll(c), f);
    }
  }

  /** The builtin `max` of a non-empty sequence. */
  function Max(t: seq<int>): (m: int)
    requires |t| > 0
    ensures m in t
    ensures forall x :: x in t ==> x <= m
  {
    if |t| == 1 then t[0]
    else
      var r := Max(t[1..]);
      assert forall x :: x in t ==> x == t[0] || x in t[1..];
      if t[0] >= r then t[0] else r
  }

  function Min(a: int, b: int): int
  {
    if a <= b then a else b
  }

  /** `times < max_FPGA_time`. */
  function BelowMask(t: seq<int>, bound: int): (m: seq<bool>)
    ensures |m| == |t|
    ensures forall k :: 0 <= k < |t| ==> m[k] == (t[k] < bound)
  {
    seq(|t|, k requires 0 <= k < |t| => t[k] < bound)
  }

  /** The records of the merge before sorting: simulated entries first, then
      background entries, each with its corrected time, those below the bound. */
  function Merged(sim: seq<Hit>, simT: seq<int>, bg: seq<Hit>, bgT: seq<int>, bound: int): seq<Entry>
    requires |sim| == |simT| && |bg| == |bgT|
  {
    Select(Zip(sim + bg, simT + bgT), BelowMask(simT + bgT, bound))
  }

  /** A rearrangement of records that all lie below a bound lies below it, and has
      as many records. */
  lemma SortedBelow(sorted: seq<Entry>, m: seq<Entry>, bound: int)
    requires multiset(sorted) == multiset(m)
    requires forall x :: x in m ==> x.time < bound
    ensures |sorted| == |m|
    ensures forall t :: t in TimesOf(sorted) ==> t < bound
  {
    assert |sorted| == |multiset(sorted)| == |multiset(m)| == |m|;
    forall t | t in TimesOf(sorted)
      ensures t < bound
    {
      var i :| 0 <= i < |sorted| && TimesOf(sorted)[i] == t;
      assert sorted[i] in multiset(sorted);
    }
  }

  /** The merge is the filtered simulated stream followed by the filtered
      background stream; so it counts the entries of each that lie below the
      bound, and all of its times lie below it. */
  lemma MergedShape(sim: seq<Hit>, simT: seq<int>, bg: seq<Hit>, bgT: seq<int>, bound: int)
    requires |sim| == |simT| && |bg| == |bgT|
    ensures Merged(sim, simT, bg, bgT, bound) ==
      Select(Zip(sim, simT), BelowMask(simT, bound)) + Select(Zip(bg, bgT), BelowMask(bgT, bound))
    ensures |Merged(sim, simT, bg, bgT, bound)| == CountTrue(BelowMask(simT, bound)) + CountTrue(BelowMask(bgT, bound))
    ensures forall x :: x in Merged(sim, simT, bg, bgT, bound) ==> x.time < bound
  {
    ZipAppend(sim, bg, simT, bgT);
    assert BelowMask(simT + bgT, bound) == BelowMask(simT, bound) + BelowMask(bgT, bound);
    SelectAppend(Zip(sim, simT), Zip(bg, bgT), BelowMask(simT, bound), BelowMask(bgT, bound));
    var e := Zip(sim + bg, simT + bgT);
    forall x | x in Merged(sim, simT, bg, bgT, bound)
      ensures x.time < bound
    {
      SelectMember(e, BelowMask(simT + bgT, bound), x);
    }
  }

  /** With the bound min(max BG, max sim), the record at that maximum is cut, so
      the merge always loses at least one record. */
  lemma MergeDropsMaximum(sim: seq<Hit>, simT: seq<int>, bg: seq<Hit>, bgT: seq<int>)
    requires |sim| == |simT| && |bg| == |bgT| && |simT| > 0 && |bgT| > 0
    ensures |Merged(sim, simT, bg, bgT, Min(Max(bgT), Max(simT)))| < |sim| + |bg|
  {
    var bound := Min(Max(bgT), Max(simT));
    MergedShape(sim, simT, bg, bgT, bound);
    CountTrueAtMost(BelowMask(simT, bound));
    CountTrueAtMost(BelowMask(bgT, bound));
    if Max(bgT) <= Max(simT) {
      var k :| 0 <= k < |bgT| && bgT[k] == Max(bgT);
      CountTrueBelow(BelowMask(bgT, bound), k);
    } else {
      var k :| 0 <= k < |simT| && simT[k] == Max(simT);
      CountTrueBelow(BelowMask(simT, bound), k);
    }
  }

  // ---------------------------------------------------------------------------
  // The background stage

  /** `hits` with `times` is `merged` sorted by time, every time below `bound`. */
  ghost predicate SortedMerge(hits: seq<Hit>, times: seq<int>, merged: seq<Entry>, bound: int)
  {
    && |hits| == |times| == |merged|
    && multiset(Zip(hits, times)) == multiset(merged)
    && (forall i, j :: 0 <= i < j < |times| ==> times[i] <= times[j])
    && (forall t :: t in times ==> t < bound)
  }

  class AddBG {
    /** BG_array: the background records. */
    var bgArray: seq<Hit>
    /** BG_FPGA_times_corrected. */
    var bgTimes: seq<int>
    /** The simulated records (the reverse-calibration stage's out_array). */
    var simArray: seq<Hit>
    /** out_FPGA_times_corrected. */
    var simTimes: seq<int>
    /** max_FPGA_time: the end of the overlap of both streams. */
    var maxFpgaTime: int
    /** combined_array_sorted. */
    var combinedSorted: seq<Hit>

    constructor (simArray: seq<Hit>)
      ensures this.simArray == simArray
      ensures bgArray == [] && bgTimes == [] && simTimes == [] && maxFpgaTime == 0 && combinedSorted == []
    {
      this.simArray := simArray;
      bgArray := [];
      bgTimes := [];
      simTimes := [];
      maxFpgaTime := 0;
      combinedSorted := [];
    }

    /** read_BG, given the file's lines. `toRecord` stands for the conversion of
        one row of fields to numbers by `np.array(..., dtype=float)`; `None` is
        a row it cannot convert. */
    method ReadBG(lines: seq<string>, toRecord: seq<string> -> Option<Hit>) returns (err: Option<MergeError>)
      modifies this
      ensures err.None? <==> |lines| >= 2 && WellFormedLines(lines) && AllConvert(DataRows(lines), toRecord)
      ensures err == Some(NoDataLines) <==> |lines| < 2
      ensures (err.Some? && err.value.ShortLine?) <==> !WellFormedLines(lines)
      ensures err.Some? && err.value.BadRow? ==>
        && WellFormedLines(lines) && 1 <= err.value.lineNo < |lines|
        && err.value.lineNo == FirstBad(DataRows(lines), toRecord) + 1
      ensures err.None? ==> bgArray == PayloadFilter(Records(DataRows(lines), toRecord))
      ensures err.Some? ==> bgArray == old(bgArray)
      ensures bgTimes == old(bgTimes) && simArray == old(simArray) && simTimes == old(simTimes)
      ensures maxFpgaTime == old(maxFpgaTime) && combinedSorted == old(combinedSorted)
    {
      var r := ReadBGLines(lines);
      if r.Failure? {
        return Some(r.error);
      }
      assert |lines| >= 1 ==> r.value == DataRows(lines);
      // the conversion of the whole array fails before any column is taken
      var k := FirstBad(r.value, toRecord);
      if k < |r.value| {
        return Some(BadRow(k + 1));
      }
      if |r.value| == 0 {
        return Some(NoDataLines);
      }
      var output := Records(r.value, toRecord);
      bgArray := PayloadFilter(output);
      return None;
    }

    /** sort_FPGA_times: clean, unwrap and rebase the background stream, keeping
        its strictly positive times; clean and unwrap the simulated stream; write
        both streams' column 12 back modulo 2^32; bound the overlap. */
    method SortFPGATimes() returns (err: Option<MergeError>)
      modifies this
      ensures |old(bgArray)| == 0 <==> err == Some(NoBackgroundHits)
      ensures |old(bgArray)| == 0 ==>
        bgArray == old(bgArray) && bgTimes == old(bgTimes) && simArray == old(simArray) && simTimes == old(simTimes)
      ensures |old(bgArray)| > 0 ==>
        && bgTimes == BGTimes(old(bgArray)) && bgArray == BGRecords(old(bgArray))
        && simTimes == Unwrapped(Times(Clean(old(simArray))))
        && simArray == WithWrappedTimes(Clean(old(simArray)), simTimes)
      ensures err == Some(NoSurvivingBackground) <==> |old(bgArray)| > 0 && |bgTimes| == 0
      ensures err == Some(NoSimulatedHits) <==> |old(bgArray)| > 0 && |bgTimes| > 0 && |old(simArray)| == 0
      ensures err.None? <==> |old(bgArray)| > 0 && |bgTimes| > 0 && |old(simArray)| > 0
      ensures err.None? ==> |bgTimes| > 0 && |simTimes| > 0 && maxFpgaTime == Min(Max(bgTimes), Max(simTimes))
      ensures err.Some? ==> maxFpgaTime == old(maxFpgaTime)
      ensures |bgArray| == |bgTimes| || err == Some(NoBackgroundHits)
      ensures |simArray| == |simTimes| || err == Some(NoBackgroundHits)
      ensures combinedSorted == old(combinedSorted)
    {
      if |bgArray| == 0 {
        // cleaning an empty stream leaves it empty; its first time does not exist
        return Some(NoBackgroundHits);
      }
      bgArray, bgTimes := SortBackground(bgArray);
      if |simArray| > 0 {
        CleanKeepsFirst(simArray);
      }
      simArray := CleanFPGATimes(simArray);
      var simCorrected := UnwrapTimes(Times(simArray));
      simTimes := simCorrected;
      simArray := WithWrappedTimes(simArray, simCorrected);
      if |bgTimes| == 0 {
        return Some(NoSurvivingBackground);
      }
      if |simTimes| == 0 {
        return Some(NoSimulatedHits);
      }
      maxFpgaTime := Min(Max(bgTimes), Max(simTimes));
      return None;
    }

    /** combine_arrays: concatenate the simulated and then the background stream
        with their corrected times, keep what lies below max_FPGA_time, and sort by
        corrected time. The sorted times, a local of the source, are returned. */
    method CombineArrays() returns (combinedTimeSorted: seq<int>)
      modifies this
      requires |simArray| == |simTimes| && |bgArray| == |bgTimes|
      ensures bgArray == old(bgArray) && bgTimes == old(bgTimes) && simArray == old(simArray)
      ensures simTimes == old(simTimes) && maxFpgaTime == old(maxFpgaTime)
      ensures |combinedSorted| == |combinedTimeSorted| == |Merged(simArray, simTimes, bgArray, bgTimes, maxFpgaTime)|
      ensures multiset(Zip(combinedSorted, combinedTimeSorted)) ==
        multiset(Merged(simArray, simTimes, bgArray, bgTimes, maxFpgaTime))
      ensures forall i, j :: 0 <= i < j < |combinedTimeSorted| ==> combinedTimeSorted[i] <= combinedTimeSorted[j]
      ensures forall t :: t in combinedTimeSorted ==> t < maxFpgaTime
    {
      var combinedArray := simArray + bgArray;
      var combinedTimes := simTimes + bgTimes;
      var keep := BelowMask(combinedTimes, maxFpgaTime);
      var keptArray := Select(combinedArray, keep);
      var keptTimes := Select(combinedTimes, keep);
      ZipSelect(combinedArray, combinedTimes, keep);
      var sorted := SortBy(Zip(keptArray, keptTimes), TimeKey);
      combinedSorted := HitsOf(sorted);
      combinedTimeSorted := TimesOf(sorted);
      ZipUnzip(sorted);
      MergedShape(simArray, simTimes, bgArray, bgTimes, maxFpgaTime);
      SortedBelow(sorted, Zip(keptArray, keptTimes), maxFpgaTime);
    }

    /** process, without the file output: read the background, sort both
        streams' times, merge. The first error ends the stage; on success the
        sorted times of the merge are returned with it. */
    method Process(lines: seq<string>, toRecord: seq<string> -> Option<Hit>) returns (err: Option<MergeError>, combinedTimeSorted: seq<int>)
      modifies this
      ensures err.None? <==>
        && |lines| >= 2 && WellFormedLines(lines) && AllConvert(DataRows(lines), toRecord)
        && |BGTimes(PayloadFilter(Records(DataRows(lines), toRecord)))| > 0
        && |old(simArray)| > 0
      ensures err.Some? ==> combinedSorted == old(combinedSorted)
      ensures err.None? ==> bgArray == BGRecords(PayloadFilter(Records(DataRows(lines), toRecord)))
      ensures err.None? ==> bgTimes == BGTimes(PayloadFilter(Records(DataRows(lines), toRecord)))
      ensures err.None? ==> simTimes == Unwrapped(Times(Clean(old(simArray))))
      ensures err.None? ==> simArray == WithWrappedTimes(Clean(old(simArray)), simTimes)
      ensures err.None? ==>
        && |simArray| == |simTimes| && |bgArray| == |bgTimes|
        && |simTimes| > 0 && |bgTimes| > 0 && maxFpgaTime == Min(Max(bgTimes), Max(simTimes))
      ensures err.None? ==>
        && SortedMerge(combinedSorted, combinedTimeSorted, Merged(simArray, simTimes, bgArray, bgTimes, maxFpgaTime), maxFpgaTime)
        && |combinedSorted| < |simArray| + |bgArray|
    {
      combinedTimeSorted := [];
      ghost var sim0 := simArray;
      err := ReadBG(lines, toRecord);
      if err.Some? {
        return;
      }
      ghost var bg1 := bgArray;
      assert bg1 == PayloadFilter(Records(DataRows(lines), toRecord)) && simArray == sim0;
      err := SortFPGATimes();
      if err.Some? {
        if |bg1| == 0 {
          assert |Clean(bg1)| == 0;
          assert |BGTimes(bg1)| == 0;
        } else if |bgTimes| == 0 {
          assert |BGTimes(bg1)| == 0;
        } else {
          assert |sim0| == 0;
        }
        return;
      }
      assert |BGTimes(bg1)| > 0 && |sim0| > 0;
      assert |bg1| > 0;
      assert bgArray == BGRecords(bg1) && simArray == WithWrappedTimes(Clean(sim0), simTimes);
      assert |simArray| == |simTimes| && |bgArray| == |bgTimes|;
      MergeDropsMaximum(simArray, simTimes, bgArray, bgTimes);
      combinedTimeSorted := CombineArrays();
      assert SortedMerge(combinedSorted, combinedTimeSorted, Merged(simArray, simTimes, bgArray, bgTimes, maxFpgaTime), maxFpgaTime);
    }
  }
}
