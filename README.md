# A-STEP detector effects: timing and record-stream core

This project models the integer core of the A-STEP detector-effects pipeline, which
turns simulated tracker hits into the 13-column records the A-STEP pixel readout
would produce, and proves properties of that model. It covers three stages:

- **Reverse calibration** (`ASTEP_RevCal.py`, module `RevCal`). This stage does four things:
  - `clean_FPGA_times` repeats one pass until nothing changes. The pass unwraps 2^32
    rollovers of the FPGA counter, finds single-record spikes (a jump of more than
    10^6 counts up next to one of more than 10^6 down) and drops them.
  - The time-over-threshold (ToT) count is wrapped modulo 2^12 and split into a byte
    and the bits above it.
  - Each channel gets a keep flag from its threshold test. A pixel with no
    calibration entry keeps both flags.
  - `make_out_array` builds two candidate records per hit, the row channel and then
    the column channel, and keeps the flagged ones in order.
- **Effects** (`ASTEP_Effects.py`, module `Effects`, class `Effects.Effects`).
  - `sort_FPGA_timestamps` cleans the stream and unwraps its times, then writes the
    wrapped value back into column 12.
  - `coincidence_hits` runs the greedy cluster scan. A cluster is records closer than
    the 42-cycle readout time.
  - `handle_coinc` rewrites each cluster. Row records come first, ordered by rising
    start time. Column records follow, ordered by falling start time. The remaining
    slots are zero. The slots are then spaced 42 cycles apart, starting from the
    first one.
  - Passes repeat until no two neighbouring times are closer than 42.
- **Background merge** (`ASTEP_Add_BG.py`, module `AddBG`, class `AddBG.AddBG`).
  - `read_BG` reads the background CSV: the header is skipped, lines are split at
    commas, the `is_col` field is normalised, and only payload-4 rows are kept.
  - `sort_FPGA_times` cleans and unwraps both streams. It then rebases the
    background stream to its first time and drops the non-positive times. The
    overlap bound is the smaller of the two streams' maxima.
  - `combine_arrays` concatenates the streams, keeps the times below the bound, and
    sorts the result by time.

Shared pieces:

- `Hits` holds the record datatype and the FPGA clock modulus.
- `Seqs` holds the sequence toolkit: masks (boolean indexing), subsequences, reversal,
  and an insertion sort that stands for `np.argsort`.
- `Wrappers` holds `Option` and `Result`.

The three Python classes update their arrays in place, so `Effects.Effects` and
`AddBG.AddBG` are Dafny classes whose `seq` fields are reassigned by their methods.
The pure numpy expressions are functions, and the loops of the source are methods
with loop invariants. Each stage method is proved against a reference function of
the old state, such as `Clean`, `Unwrapped`, `KeptRecords`, `CoincResult`,
`BGTimes` and `Merged`. Lemmas then state what those functions promise. The main
results are listed here:

- cleaning reaches a fixed point, is idempotent and only removes records;
- unwrapping only adds whole periods;
- a cluster rewrite is a permutation of the records outside column 12;
- column 12 stays in agreement with the corrected times;
- the merge keeps exactly the records below the bound, sorted.

Where the code and its description disagree, the code is followed:

- A pixel with no calibration entry is not an error. Both of its records are kept
  with a ToT of 0 (`ASTEP_RevCal.py:157-158`).
- The cluster spacing is the literal 42 in `handle_coinc` (`ASTEP_Effects.py:61-62`),
  not the `FPGA_readout_cycles` attribute. The two have the same value.
- After a cluster, the scan restarts *at* the cluster's last index
  (`ASTEP_Effects.py:114`), so consecutive clusters may share an endpoint.
- `np.argsort` is not stable. The model therefore states the order only up to
  records with equal keys.
- A record whose `isCol` is neither 0 nor 1 is placed in neither group by
  `handle_coinc`, so it is lost from the cluster. The rows and columns fill the
  slots from slot 0, and the slots left over at the end stay zero records, which the
  re-spacing then gives times and a column 12. The model keeps this. Properties that
  need two-channel input say so with `AllBinary`.

## Model

| member | source | states |
|---|---|---|
| RevCal.UnwrapTimes | ASTEP_RevCal.py:79-84 | the loop that adds 2^32 to every suffix starting after a rollover yields `Unwrapped`: each raw time plus 2^32 for every rollover at or before it |
| RevCal.AddPeriodFrom | ASTEP_RevCal.py:84 | `FPGA_times[idx:] += M`: the suffix from idx grows by one period and the prefix is unchanged |
| RevCal.UnwrappedStep | ASTEP_RevCal.py:80-84 | the first time is unchanged; each corrected step equals the raw step plus 2^32 exactly where the raw step is a rollover |
| RevCal.UnwrappedWrapsBack | ASTEP_RevCal.py:84 | a corrected time is congruent to its raw time modulo 2^32 |
| RevCal.WrapBackIsIdentity | ASTEP_Effects.py:79 | writing `corrected % 2^32` back into column 12 of in-range records leaves them unchanged |
| RevCal.RolloverIsForwardStep | ASTEP_RevCal.py:81 | for in-range counters, a step the rollover test catches is, once corrected, a forward step of less than 5e6 |
| RevCal.FindDroppable | ASTEP_RevCal.py:87-96 | index x is collected iff there is an up jump at x-1 and a down jump at x, or an up jump at x with no down jump at x+1 and a down jump at x-1 |
| RevCal.MaskShrinks | ASTEP_RevCal.py:99-104 | when something is marked, the mask keeps fewer rows (why the loop ends) |
| RevCal.Clean | ASTEP_RevCal.py:69-106 | the cleaned stream is never longer than the input |
| RevCal.CleanFPGATimes | ASTEP_RevCal.py:69-106 | the while loop over unwrap, find and drop computes `Clean` |
| RevCal.NoneMarkedIffNoSpikes | ASTEP_RevCal.py:87-100 | no index is droppable iff no up jump is adjacent to a down jump |
| RevCal.CleanIsSubsequence | ASTEP_RevCal.py:74-104 | cleaning only removes records; survivors keep their order and contents |
| RevCal.CleanMarksNothing | ASTEP_RevCal.py:99-100 | the returned stream is a fixed point: a further pass marks nothing |
| RevCal.CleanHasNoSpikes | ASTEP_RevCal.py:77-100 | the unwrapped times of the result contain no up jump next to a down jump |
| RevCal.CleanIdempotent | ASTEP_RevCal.py:69-106 | cleaning a cleaned stream changes nothing |
| RevCal.CleanShort | ASTEP_RevCal.py:87-99 | a stream of at most two records is returned as it is |
| RevCal.CleanKeepsFirst | ASTEP_RevCal.py:92-96 | a non-empty stream keeps its first record, which no pass can mark |
| RevCal.Quantise | ASTEP_RevCal.py:221-229 | the ToT count is in [0, 4096) and congruent to the smeared count; lsb is in [0, 256), msb in [0, 16), and msb*256 + lsb is the count; tot_us is count/100 µs |
| RevCal.QuantiseInRange | ASTEP_RevCal.py:221 | a count already in range is kept, and its radix split reassembles it |
| RevCal.MakeOutArray | ASTEP_RevCal.py:240-306 | the 2n-row fill and the flag filter yield `KeptRecords`: per hit, the row record if flagged, then the column record if flagged |
| RevCal.SelectCandidates | ASTEP_RevCal.py:299-304 | filtering the 2n candidates by `out_subthresh == 1` is `KeptRecords` |
| RevCal.KeptRecordsAreFlaggedCandidates | ASTEP_RevCal.py:304 | the output is the ordered subsequence of flagged candidates, its length is the number of set flags, and every record is a flagged candidate |
| RevCal.CandidatePair | ASTEP_RevCal.py:249-297 | candidate 2i is the row channel (isCol 0, location = row) and 2i+1 the column channel (isCol 1, location = col); both share layer, chip and AstroPix time |
| RevCal.CandidatePrefix | ASTEP_RevCal.py:249-297 | the first 2(i+1) candidates and flags are the first 2i followed by hit i's row and column pair, which is what each fill step appends |
| RevCal.KeptRecordsColumns | ASTEP_RevCal.py:245-297 | every output record has dec_ord 0, readout 0 and payload 4, isCol in {0,1}, a ToT count in range with an exact radix split |
| RevCal.UnmatchedPixelKept | ASTEP_RevCal.py:153-158 | a hit without calibration entry keeps both records, with ToT 0 |
| RevCal.BothBelowThresholdDropped | ASTEP_RevCal.py:210-211 | a hit failing the threshold on both channels contributes no record |
| Seqs.SortBy | ASTEP_Effects.py:47 | the result is sorted by the key and is a permutation of the input |
| Effects.PlaceRecords | ASTEP_Effects.py:37-58 | the buffers hold the sorted rows, then the reversed sorted columns, then zero records |
| Effects.RespaceBuffers | ASTEP_Effects.py:60-62 | the buffers are replaced by `Respaced` of their old contents |
| Effects.RespacedSpacing | ASTEP_Effects.py:60-62 | after respacing, slot i is at the first slot's time plus 42·i, and column 12 is the first slot's column 12 plus 42·i modulo 2^32 |
| Effects.RespacedKeeps | ASTEP_Effects.py:60-62 | re-spacing keeps the first slot, puts slot i at the first time plus 42·i, and changes no column of any slot but column 12 |
| Effects.HandleCoinc | ASTEP_Effects.py:35-64 | output of the input's length satisfying `CoincResult` (rows ascending, cols descending by start key, zeros, respaced), with times 42 apart |
| Effects.PlacementFits | ASTEP_Effects.py:37-58 | rows and cols fit in the cluster; the row group counts the isCol-0 records; on two-channel input both groups together are a permutation of the cluster |
| Seqs.SelectComplement | ASTEP_Effects.py:46-53 | with complementary masks, as `is_col == 0` and `is_col == 1` are on two-channel input, the two selections together are the multiset of the cluster |
| Effects.PlacementMembers | ASTEP_Effects.py:46-53 | every placed row is an isCol-0 record of the cluster and every placed column an isCol-1 record |
| Effects.CoincResultArranged | ASTEP_Effects.py:45-62 | the row slots rise and the column slots fall by start key; the first slot is as placed; respacing changes only column 12 and the time |
| Effects.CoincResultLayout | ASTEP_Effects.py:45-58 | on two-channel input, slot i holds a row record iff i is below the number of rows, and a column record otherwise |
| Effects.CoincResultPermutes | ASTEP_Effects.py:35-64 | on two-channel input, the rewrite permutes the records outside column 12 and keeps them two-channel |
| Effects.RespacedSynced | ASTEP_Effects.py:60-62 | if the first slot's column 12 is its time modulo 2^32, every slot's is |
| Effects.CoincResultSynced | ASTEP_Effects.py:35-64 | a rewrite keeps column 12 equal to the corrected time modulo 2^32 |
| Effects.CoincResultPreserves | ASTEP_Effects.py:35-64 | a rewrite keeps the length, the two-channel multiset outside column 12 and the column-12 agreement |
| Effects.PreservesSplice | ASTEP_Effects.py:110 | writing a preserving rewrite back into a slice preserves the whole stream |
| Effects.SplicePreserves | ASTEP_Effects.py:110 | replacing arrays and times on the slice s..e by a preserving rewrite preserves the whole zipped stream |
| Effects.ThreeRowsExample | ASTEP_Effects.py:43-62 | three row records at 1000, 1010, 1020 with equal ToT come out at 1000, 1042, 1084, in their input order (the first unchanged, the others changed only in column 12) |
| Effects.RowsInKeyOrder | ASTEP_Effects.py:45-58 | three row records with strictly rising start keys are placed in their input order, with no column and no zero slot |
| Effects.FirstPlacedRow | ASTEP_Effects.py:46-50 | for an all-row cluster, the first slot is a record of the cluster with a least start key (argsort may break ties either way) |
| Effects.FindClusterEnd | ASTEP_Effects.py:100-107 | the end index is the greedy maximum: every record up to it is within 42·(k-s) of the start, and the next is not, unless the stream ends |
| Effects.CountZeroIff | ASTEP_Effects.py:86-88 | the count of neighbouring steps below 42 is zero iff no such step exists |
| Effects.Effects.constructor | ASTEP_Effects.py:17-33 | the stage holds its input stream, with no times or output yet |
| Effects.Effects.SortFPGATimestamps | ASTEP_Effects.py:66-79 | the input is replaced by its cleaned stream with column 12 re-wrapped, and the corrected times are `Unwrapped` of its times |
| Effects.Effects.RewriteCluster | ASTEP_Effects.py:110 | the slice s..e is replaced by a `CoincResult` of itself; prefix and suffix unchanged; the stream is preserved |
| Effects.Effects.ScanPass | ASTEP_Effects.py:92-115 | one scan preserves the stream and changes nothing when no step below 42 exists |
| Effects.Effects.CoincidenceHits | ASTEP_Effects.py:81-118 | output times alias the stage's times; the stream is preserved; the result reports convergence iff no step below 42 is left; an already spaced stream is output unchanged |
| Effects.Effects.Process | ASTEP_Effects.py:142-144 | sort then coincidence: output length is the cleaned length, column 12 agrees with the output times, convergence iff no step below 42 |
| Effects.SortedStreamSynced | ASTEP_Effects.py:79 | after sorting, column 12 equals the corrected time modulo 2^32 |
| Effects.SortedStreamIsCleaned | ASTEP_Effects.py:68-79 | for in-range counters, sorting only removes records: the re-wrapped stream is the cleaned stream |
| AddBG.TrimLeftSpec | ASTEP_Add_BG.py:35 | trimming on the left drops exactly the leading whitespace |
| AddBG.TrimRightSpec | ASTEP_Add_BG.py:35 | trimming on the right drops exactly the trailing whitespace |
| AddBG.StripSpace | ASTEP_Add_BG.py:35 | the result neither starts nor ends with whitespace |
| AddBG.StripSpaceIsSlice | ASTEP_Add_BG.py:35 | the result is the slice between a whitespace prefix and a whitespace suffix |
| AddBG.StripSpaceTrimmed | ASTEP_Add_BG.py:35 | a field without surrounding whitespace is unchanged |
| AddBG.NormaliseIsColBinary | ASTEP_Add_BG.py:35-41 | the field becomes "1" iff it strips to "True" or "1", and "0" iff it strips to "False" or "0" |
| AddBG.NormaliseIsColIdempotent | ASTEP_Add_BG.py:35-38 | normalising a normalised field changes nothing |
| AddBG.NormaliseDigits | ASTEP_Add_BG.py:35-38 | the normalised values "0" and "1" are fixed points of the normalisation |
| AddBG.SplitPartsSeparatorFree | ASTEP_Add_BG.py:34 | no part of `str.split(',')` contains the separator |
| AddBG.SplitJoin | ASTEP_Add_BG.py:34 | joining the parts with the separator gives back the line |
| AddBG.SplitCount | ASTEP_Add_BG.py:34 | there is one more part than separators |
| AddBG.ReadBGLines | ASTEP_Add_BG.py:30-43 | succeeds iff every data line has a seventh field, giving one normalised row per line after the header; otherwise fails at the first short line |
| AddBG.FirstBad | ASTEP_Add_BG.py:44 | the first row whose conversion to numbers fails, or the row count: every earlier row converts and, when it is in range, that row does not |
| AddBG.PayloadFilterSpec | ASTEP_Add_BG.py:45 | the filter keeps, in order, exactly the payload-4 rows |
| AddBG.PositiveSelect | ASTEP_Add_BG.py:61-64 | after rebasing to the first time, the mask keeps exactly the positive rebased times: each kept time is the distance of a later-than-first corrected time from the first, every such distance is kept, and the kept times are an ordered subsequence of the rebased ones; the first record (rebased to 0) is always dropped |
| AddBG.BGTimesPositive | ASTEP_Add_BG.py:50-64 | the background times are exactly the positive rebased times of the cleaned, unwrapped stream: all of them are positive, every corrected time later than the first survives as its distance from the first, and they keep the rebased order; a non-empty stream loses at least its first record |
| AddBG.BGRecordsSubsequence | ASTEP_Add_BG.py:50-67 | the kept background records are, outside column 12, a subsequence of the cleaned stream |
| AddBG.SortBackground | ASTEP_Add_BG.py:50-67 | the background half of `sort_FPGA_times` stores `BGRecords` and `BGTimes` of the stream, one time per record |
| AddBG.Max | ASTEP_Add_BG.py:83 | `max` is a member of the stream and bounds it |
| AddBG.MergedShape | ASTEP_Add_BG.py:87-96 | the merge is the simulated records below the bound followed by the background ones; its length counts them, and every time is below the bound |
| AddBG.MergeDropsMaximum | ASTEP_Add_BG.py:83-96 | with the bound the smaller maximum, at least one record is dropped |
| AddBG.SortedBelow | ASTEP_Add_BG.py:95-101 | a reordering of the kept records has as many entries, and every time in it is below the bound |
| AddBG.AddBG.constructor | ASTEP_Add_BG.py:18-26 | the stage holds the simulated stream and nothing else yet |
| AddBG.AddBG.ReadBG | ASTEP_Add_BG.py:28-46 | succeeds iff there is a data line, each has a seventh field and every row converts to numbers, storing the payload-4 records; a short line is the `ShortLine` error, a row that does not convert is `BadRow` at the first such line (after the text loop, so only on a file without short lines), and a header-only file is the `NoDataLines` error |
| AddBG.AddBG.SortFPGATimes | ASTEP_Add_BG.py:48-83 | raises in source order (empty background, nothing left after rebasing, empty simulation); otherwise stores `BGTimes`/`BGRecords`, the unwrapped simulated stream and the bound min(max bg, max sim) |
| AddBG.AddBG.CombineArrays | ASTEP_Add_BG.py:85-101 | the combined array and times are a permutation of `Merged`, sorted by time, all below the bound |
| AddBG.AddBG.Process | ASTEP_Add_BG.py:126-129 | succeeds iff the file has a data line, every data line has a seventh field, every row converts to numbers, some background time survives rebasing and the simulated stream is non-empty; on success the streams are as specified and the returned times with the stored records are `Merged` sorted by time, all below the bound, strictly shorter than both streams together; on failure the merged output is untouched |

## Left out

- File input and output are not modelled: `read_sim`, every `write_output`, HDF5 and CSV formatting. Streams are values passed in.
- `RevCal.process` (`ASTEP_RevCal.py:330-335`) is not modelled: it chains file reading, geometry, float calibration and clock conversion before `make_out_array`.
- `pinpoint` and `get_clock_times` are floating-point geometry and clock scaling. Their integer results (layer, chip, row, col, AstroPix and FPGA times) are fields of `SimHit`.
- The calibration inversion, the resolution floor, the random smearing (`rng.normal`) and the `//1/100` truncation are floating point and randomness. They are left out; their outcome per channel (a count in hundredths of a µs and the threshold test) is the `Smear` input.
- When several calibration entries match a pixel, the last one wins. This is left out together with the calibration loop.
- RevCal.Quantise: takes the count as exactly the hundredths. In floating point, `x/1e6*1e8` then `astype(int)` can be one count off.
- Effects.StartKey: uses the exact integer 100·time − tot_hundredths. The source's float expression can round differently for nearly equal keys.
- AddBG.AddBG.ReadBG and AddBG.AddBG.Process: the float parsing of the CSV fields is the `toRecord` parameter, one row at a time. `None` stands for the `ValueError` of `np.array` on that row: a non-numeric field, such as an `is_col` literal like `yes` left unnormalised. A numeric `is_col` such as `2` or `1.0` is left unnormalised and still converts. `np.array` also rejects rows whose widths differ while it accepts any width they all share; a per-row `toRecord` cannot express that rule and can only reject a width fixed in advance, so ragged files are not modelled. The source names no line in its error; the model reports the first failing one.
- AddBG.IsSpace: only the ASCII whitespace that `str.strip()` removes. Unicode whitespace is not modelled.
- Printing (`Bad is_col entry`, the coincidence count) is not modelled.
- The `DEE.py` command-line driver is not part of this model.
- AddBG.AddBG: the simulated stream is a field of the merge stage. In the source it is shared with the reverse-calibration object, which the merge updates (`self.ARC.out_array`).
- Effects.Effects.CoincidenceHits: the outer `while n_coin != 0` loop is bounded by a `fuel` parameter. The returned flag says whether it converged, and nothing is claimed about termination without fuel.
- Effects.Effects.ScanPass: states what one pass preserves, but not which slices it rewrites. Clusters depend on times rewritten earlier in the same pass.
- Seqs.SortBy and Effects.HandleCoinc: the tie order of `np.argsort` is not asserted, only sortedness and permutation.
