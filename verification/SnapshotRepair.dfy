/** Repair of transient dips in a wallet's snapshot history: which index ranges are overwritten
    by the value before them, and what the overwritten series looks like. Exact reals. */
module SnapshotRepair {
  const DIP_RATIO := 0.9
  const RECOVERY_TOLERANCE := 0.18
  const MAX_TRANSIENT_RUN_LENGTH := 8
  const MAX_TRAILING_TRANSIENT_RUN_LENGTH := 2
  const MIN_TRANSIENT_DROP_USD := 40.0

  /** Half-open range of indices to overwrite with the value at `start - 1`. */
  datatype Range = Range(start: nat, end: nat)

  function Abs(x: real): real {
    if x < 0.0 then -x else x
  }

  function Max(x: real, y: real): real {
    if x < y then y else x
  }

  predicate ValuesClose(a: real, b: real) {
    Abs(a - b) / Max(Max(Abs(a), Abs(b)), 1.0) <= RECOVERY_TOLERANCE
  }

  /** `x` has dropped from `previous` by more than the ratio and at least the minimum. */
  predicate Low(previous: real, x: real) {
    x < previous * DIP_RATIO && previous - x >= MIN_TRANSIENT_DROP_USD
  }

  /** A dip starts at `i`. */
  predicate Dips(v: seq<real>, i: int)
    requires 1 <= i < |v|
  {
    v[i - 1] > 0.0 && Low(v[i - 1], v[i])
  }

  // ---------- the scan ----------

  function RunEnd(v: seq<real>, previous: real, j: nat): (e: nat)
    requires j <= |v|
    ensures j <= e <= |v|
    ensures forall k :: j <= k < e ==> Low(previous, v[k])
    ensures e < |v| ==> !Low(previous, v[e])
    decreases |v| - j
  {
    if j < |v| && Low(previous, v[j]) then RunEnd(v, previous, j + 1) else j
  }

  predicate Transient(v: seq<real>, start: nat, end: nat)
    requires 1 <= start < end < |v|
  {
    end - start <= MAX_TRANSIENT_RUN_LENGTH && v[end] > 0.0 && ValuesClose(v[start - 1], v[end])
  }

  function MainRanges(v: seq<real>, index: nat): seq<Range>
    requires 1 <= index
    decreases |v| - index
  {
    if index >= |v| - 1 then []
    else if !Dips(v, index) then MainRanges(v, index + 1)
    else
      var end := RunEnd(v, v[index - 1], index);
      if end >= |v| then []
      else (if Transient(v, index, end) then [Range(index, end)] else []) + MainRanges(v, end)
  }

  function TrailStart(v: seq<real>, t: nat): (r: nat)
    requires t <= |v|
    ensures r <= t
    ensures forall k :: r <= k < t && 1 <= k ==> Dips(v, k)
    ensures t > 0 ==> r > 0
    ensures r > 1 ==> !Dips(v, r - 1)
  {
    if t > 1 && Dips(v, t - 1) then TrailStart(v, t - 1) else t
  }

  function TrailingRange(v: seq<real>): seq<Range> {
    var t := TrailStart(v, |v|);
    if 0 < |v| - t <= MAX_TRAILING_TRANSIENT_RUN_LENGTH then [Range(t, |v|)] else []
  }

  function RepairRanges(v: seq<real>): seq<Range> {
    MainRanges(v, 1) + TrailingRange(v)
  }

  /** One turn of the scan at a dip. */
  lemma MainRangesStep(v: seq<real>, index: nat)
    requires 1 <= index < |v| - 1 && Dips(v, index)
    ensures var end := RunEnd(v, v[index - 1], index);
      && end > index
      && MainRanges(v, index) ==
         if end >= |v| then []
         else if Transient(v, index, end) then [Range(index, end)] + MainRanges(v, end)
         else MainRanges(v, end)
  {
    var end := RunEnd(v, v[index - 1], index);
    if end < |v| {
      assert [] + MainRanges(v, end) == MainRanges(v, end);
    }
  }

  /** `_find_repair_ranges`: the scan for dips that recover, then the one for a dip at the end. */
  method FindRepairRanges(values: seq<real>) returns (ranges: seq<Range>)
    ensures ranges == RepairRanges(values)
  {
    ranges := ScanInterior(values);
    var trailing := ScanTrailing(values);
    ranges := ranges + trailing;
  }

  method ScanInterior(values: seq<real>) returns (ranges: seq<Range>)
    ensures ranges == MainRanges(values, 1)
  {
    ranges := [];
    var index := 1;
    while index < |values| - 1
      invariant 1 <= index
      invariant ranges + MainRanges(values, index) == MainRanges(values, 1)
      decreases |values| - index
    {
      var previous, current := values[index - 1], values[index];
      if previous <= 0.0 || current >= previous * DIP_RATIO || previous - current < MIN_TRANSIENT_DROP_USD {
        index := index + 1;
        continue;
      }
      var runStart, runEnd := index, index;
      while runEnd < |values|
        invariant index <= runEnd <= |values|
        invariant RunEnd(values, previous, runEnd) == RunEnd(values, previous, index)
      {
        var candidate := values[runEnd];
        if candidate >= previous * DIP_RATIO || previous - candidate < MIN_TRANSIENT_DROP_USD {
          break;
        }
        runEnd := runEnd + 1;
      }
      MainRangesStep(values, index);
      if runEnd >= |values| {
        index := |values|;
        break;
      }
      if runEnd - runStart <= MAX_TRANSIENT_RUN_LENGTH && values[runEnd] > 0.0
         && ValuesClose(previous, values[runEnd]) {
        assert ranges + ([Range(runStart, runEnd)] + MainRanges(values, runEnd))
            == ranges + [Range(runStart, runEnd)] + MainRanges(values, runEnd);
        ranges := ranges + [Range(runStart, runEnd)];
      }
      index := if runEnd > index + 1 then runEnd else index + 1;
    }
    assert ranges + [] == ranges;
  }

  method ScanTrailing(values: seq<real>) returns (ranges: seq<Range>)
    ensures ranges == TrailingRange(values)
  {
    var trailStart := |values|;
    while trailStart > 1
      invariant 0 <= trailStart <= |values|
      invariant TrailStart(values, trailStart) == TrailStart(values, |values|)
    {
      var candidateIndex := trailStart - 1;
      var previous, candidate := values[candidateIndex - 1], values[candidateIndex];
      if previous <= 0.0 || candidate >= previous * DIP_RATIO || previous - candidate < MIN_TRANSIENT_DROP_USD {
        break;
      }
      trailStart := candidateIndex;
    }
    var trailingRunLength := |values| - trailStart;
    return if 0 < trailingRunLength <= MAX_TRAILING_TRANSIENT_RUN_LENGTH then [Range(trailStart, |values|)] else [];
  }

  // ---------- which ranges are found ----------

  /** The values `a..b` are low against the value before them, and `b` is the first that is not. */
  ghost predicate DipRun(v: seq<real>, a: int, b: int) {
    && 1 <= a < b < |v|
    && v[a - 1] > 0.0
    && (forall k :: a <= k < b ==> Low(v[a - 1], v[k]))
    && !Low(v[a - 1], v[b])
  }

  /** By index `a`, the series has come back from every earlier dip. */
  ghost predicate Recovered(v: seq<real>, a: int)
    requires a < |v|
  {
    forall i :: 1 <= i < a && Dips(v, i) ==> !StillLow(v, i, a)
  }

  /** Everything in `i..a`, both ends included, is low against the value before `i`. */
  ghost predicate StillLow(v: seq<real>, i: int, a: int)
    requires 1 <= i <= a < |v|
  {
    forall k :: i <= k <= a ==> Low(v[i - 1], v[k])
  }

  /** Declarative description of a range that the scan reports. */
  ghost predicate TransientDip(v: seq<real>, a: int, b: int) {
    DipRun(v, a, b) && Recovered(v, a) && Transient(v, a, b)
  }

  /** Low values pull further values down with them: what is low against a low value is low. */
  lemma LowIsNested(p: real, x: real, y: real)
    requires p > 0.0 && x > 0.0 && Low(p, x) && Low(x, y)
    ensures Low(p, y)
  {
  }

  /** Where a run ends, no new dip starts. */
  lemma NoDipAtRunEnd(v: seq<real>, a: int, b: int)
    requires DipRun(v, a, b)
    ensures !Dips(v, b)
  {
    if Dips(v, b) {
      LowIsNested(v[a - 1], v[b - 1], v[b]);
    }
  }

  /** Dips are nested: a dip inside a run is back up at the latest where the run ends. */
  lemma RunsAreNested(v: seq<real>, a: int, b: int, i: int)
    requires DipRun(v, a, b) && a < i < b && Dips(v, i)
    ensures !StillLow(v, i, b)
  {
    if StillLow(v, i, b) {
      LowIsNested(v[a - 1], v[i - 1], v[b]);
    }
  }

  lemma RecoveredAtRunEnd(v: seq<real>, a: int, b: int)
    requires DipRun(v, a, b) && Recovered(v, a)
    ensures Recovered(v, b)
  {
    forall i | 1 <= i < b && Dips(v, i) ensures !StillLow(v, i, b) {
      if i < a {
        assert !StillLow(v, i, a);
      } else if i > a {
        RunsAreNested(v, a, b, i);
      }
    }
  }

  /** From the start of a run on there are the run, if it counts, and what starts where it ends or later. */
  lemma DipsFromRun(v: seq<real>, index: nat, end: nat, a: nat, b: nat)
    requires DipRun(v, index, end) && Recovered(v, index)
    ensures index <= a && TransientDip(v, a, b)
      <==> (a == index && b == end && Transient(v, index, end)) || (end <= a && TransientDip(v, a, b))
  {
    if index < a < end {
      assert StillLow(v, index, a);
    }
  }

  /** The scan from `index` on finds exactly the transient dips that start at `index` or later. */
  lemma {:induction false} MainRangesExact(v: seq<real>, index: nat, a: nat, b: nat)
    requires 1 <= index
    requires index < |v| ==> Recovered(v, index)
    ensures Range(a, b) in MainRanges(v, index) <==> index <= a && TransientDip(v, a, b)
    decreases |v| - index
  {
    if index < |v| - 1 {
      if !Dips(v, index) {
        forall i | 1 <= i < index + 1 && Dips(v, i) ensures !StillLow(v, i, index + 1) {
          assert !StillLow(v, i, index);
        }
        MainRangesExact(v, index + 1, a, b);
      } else {
        var end := RunEnd(v, v[index - 1], index);
        MainRangesStep(v, index);
        if end < |v| {
          RecoveredAtRunEnd(v, index, end);
          MainRangesExact(v, end, a, b);
          DipsFromRun(v, index, end, a, b);
        } else if index < a < |v| {
          assert StillLow(v, index, a);
        }
      }
    }
  }

  /** Exactly which interior ranges are repaired: the dips that are outermost, return within
      eight snapshots, and return close to the value they left. */
  lemma FindsExactlyTheTransientDips(v: seq<real>, a: nat, b: nat)
    ensures Range(a, b) in MainRanges(v, 1) <==> TransientDip(v, a, b)
  {
    MainRangesExact(v, 1, a, b);
  }

  // ---------- the ranges in numbers ----------

  /** `x` is more than a tenth and at least forty below `previous`. */
  predicate FarBelow(previous: real, x: real) {
    x < 0.9 * previous && x <= previous - 40.0
  }

  /** Within eighteen per cent of the larger of the two, or of one. */
  predicate Near(a: real, b: real) {
    var d := if a < b then b - a else a - b;
    d <= 0.18 * a || d <= 0.18 * b || d <= 0.18
  }

  lemma QuotientWithin(d: real, m: real, t: real)
    requires m > 0.0
    ensures d / m <= t <==> d <= t * m
  {
    assert d == (d / m) * m;
    if d / m <= t {
      assert (d / m) * m <= t * m;
    }
  }

  lemma CloseIsNear(a: real, b: real)
    requires a > 0.0 && b > 0.0
    ensures ValuesClose(a, b) <==> Near(a, b)
  {
    QuotientWithin(Abs(a - b), Max(Max(Abs(a), Abs(b)), 1.0), RECOVERY_TOLERANCE);
  }

  /** A dip at `i` from which the series is not back by `a`. */
  ghost predicate StillDown(v: seq<real>, i: int, a: int)
    requires 1 <= i <= a < |v|
  {
    v[i - 1] > 0.0 && forall k :: i <= k <= a ==> FarBelow(v[i - 1], v[k])
  }

  /** In the numbers of the script: a reported interior range is a dip of at most eight snapshots, all far
      below the positive value before it; the value behind it is positive, near that value and not far below
      it; and no earlier dip reaches into it. */
  lemma ReportedExactly(v: seq<real>, a: nat, b: nat)
    ensures Range(a, b) in MainRanges(v, 1) <==>
      && 1 <= a < b < |v| && b - a <= 8
      && v[a - 1] > 0.0 && v[b] > 0.0 && Near(v[a - 1], v[b]) && !FarBelow(v[a - 1], v[b])
      && (forall k :: a <= k < b ==> FarBelow(v[a - 1], v[k]))
      && (forall i :: 1 <= i < a ==> !StillDown(v, i, a))
  {
    FindsExactlyTheTransientDips(v, a, b);
    if 1 <= a < b < |v| {
      if v[a - 1] > 0.0 && v[b] > 0.0 {
        CloseIsNear(v[a - 1], v[b]);
      }
      forall i | 1 <= i < a ensures StillDown(v, i, a) <==> Dips(v, i) && StillLow(v, i, a) {
      }
    }
  }

  predicate Falls(v: seq<real>, k: int)
    requires 1 <= k < |v|
  {
    v[k - 1] > 0.0 && FarBelow(v[k - 1], v[k])
  }

  /** The range at the end: one or two snapshots, each far below the positive one before it, and the first of
      such a fall. */
  lemma TrailingExactly(v: seq<real>, t: nat)
    ensures Range(t, |v|) in TrailingRange(v) <==>
      && 1 <= t < |v| <= t + 2
      && (forall k :: t <= k < |v| ==> Falls(v, k))
      && (t > 1 ==> !Falls(v, t - 1))
  {
    var r := TrailStart(v, |v|);
    forall k | 1 <= k < |v| ensures Dips(v, k) <==> Falls(v, k) {
    }
    if 1 <= t < |v| && (forall k :: t <= k < |v| ==> Falls(v, k)) && (t > 1 ==> !Falls(v, t - 1)) {
      assert r <= t;
      assert t > 1 ==> !Dips(v, t - 1);
    }
  }

  // ---------- where the ranges lie ----------

  /** In bounds, ascending, disjoint, and at least one index apart; so the value before a range
      lies in no range. */
  ghost predicate WellPlaced(ranges: seq<Range>, n: nat) {
    && (forall i :: 0 <= i < |ranges| ==> 1 <= ranges[i].start < ranges[i].end <= n)
    && (forall i, j :: 0 <= i < j < |ranges| ==> ranges[i].end < ranges[j].start)
  }

  lemma OneMorePlaced(r: Range, rest: seq<Range>, n: nat)
    requires WellPlaced(rest, n) && 1 <= r.start < r.end <= n
    requires forall x :: x in rest ==> r.end < x.start
    ensures WellPlaced([r] + rest, n)
  {
    forall j | 0 <= j < |rest| ensures r.end < rest[j].start {
      assert rest[j] in rest;
    }
  }

  /** The ranges found from `index` on start there or later, and each is a run. */
  ghost predicate RunsFrom(v: seq<real>, ranges: seq<Range>, index: nat) {
    forall r :: r in ranges ==> index <= r.start && DipRun(v, r.start, r.end)
  }

  lemma LaterStarts(v: seq<real>, ranges: seq<Range>, end: nat)
    requires RunsFrom(v, ranges, end) && 1 <= end < |v| && !Dips(v, end)
    ensures forall r :: r in ranges ==> end < r.start
  {
    forall r | r in ranges ensures end < r.start {
      assert DipRun(v, r.start, r.end);
      assert Low(v[r.start - 1], v[r.start]);
    }
  }

  lemma RunBeforeOthers(v: seq<real>, index: nat, end: nat, rest: seq<Range>)
    requires DipRun(v, index, end) && WellPlaced(rest, |v|) && RunsFrom(v, rest, end)
    ensures RunsFrom(v, rest, index)
    ensures WellPlaced([Range(index, end)] + rest, |v|) && RunsFrom(v, [Range(index, end)] + rest, index)
  {
    NoDipAtRunEnd(v, index, end);
    LaterStarts(v, rest, end);
    OneMorePlaced(Range(index, end), rest, |v|);
  }

  lemma StartLaterStartEarlier(v: seq<real>, ranges: seq<Range>, index: nat, later: nat)
    requires RunsFrom(v, ranges, later) && index <= later
    ensures RunsFrom(v, ranges, index)
  {
  }

  lemma {:induction false} MainRangesPlaced(v: seq<real>, index: nat)
    requires 1 <= index
    ensures WellPlaced(MainRanges(v, index), |v|)
    ensures RunsFrom(v, MainRanges(v, index), index)
    decreases |v| - index, 1
  {
    if index >= |v| - 1 {
      assert MainRanges(v, index) == [];
    } else if !Dips(v, index) {
      MainRangesPlaced(v, index + 1);
      var rest := MainRanges(v, index + 1);
      StartLaterStartEarlier(v, rest, index, index + 1);
      assert MainRanges(v, index) == rest;
    } else {
      PlacedFromDip(v, index);
    }
  }

  lemma {:induction false} PlacedFromDip(v: seq<real>, index: nat)
    requires 1 <= index < |v| - 1 && Dips(v, index)
    ensures WellPlaced(MainRanges(v, index), |v|)
    ensures RunsFrom(v, MainRanges(v, index), index)
    decreases |v| - index, 0
  {
    var end := RunEnd(v, v[index - 1], index);
    MainRangesStep(v, index);
    if end < |v| {
      MainRangesPlaced(v, end);
      RunBeforeOthers(v, index, end, MainRanges(v, end));
    } else {
      assert MainRanges(v, index) == [];
    }
  }

  /** The trailing range keeps its distance too: no member of a trailing chain of dips can be
      the end of a run. */
  lemma RangesWellPlaced(v: seq<real>)
    ensures WellPlaced(RepairRanges(v), |v|)
  {
    MainRangesPlaced(v, 1);
    var main := MainRanges(v, 1);
    var t := TrailStart(v, |v|);
    if TrailingRange(v) != [] {
      if t == 1 && main != [] {
        assert main[0] in main;
        NoDipAtRunEnd(v, main[0].start, main[0].end);
      }
      forall i | 0 <= i < |main| ensures main[i].end < t {
        assert main[i] in main;
        NoDipAtRunEnd(v, main[i].start, main[i].end);
      }
    }
  }

  lemma MainRangeFacts(v: seq<real>, r: Range)
    requires r in MainRanges(v, 1)
    ensures TransientDip(v, r.start, r.end)
    ensures Dips(v, r.start)
  {
    FindsExactlyTheTransientDips(v, r.start, r.end);
  }

  lemma TrailingRangeFacts(v: seq<real>, r: Range)
    requires r in TrailingRange(v)
    ensures r == Range(TrailStart(v, |v|), |v|) && 1 <= r.start < |v| <= r.start + MAX_TRAILING_TRANSIENT_RUN_LENGTH
    ensures Dips(v, r.start)
    ensures forall k :: r.start <= k < r.end ==> Low(v[r.start - 1], v[k])
  {
    if r.end - r.start == 2 {
      assert Dips(v, r.start + 1);
      LowIsNested(v[r.start - 1], v[r.start], v[r.start + 1]);
    }
  }

  /** What is known of each reported range. */
  lemma RangeFacts(v: seq<real>, r: Range)
    requires r in RepairRanges(v)
    ensures 1 <= r.start < r.end <= |v| && Dips(v, r.start)
    ensures forall k :: r.start <= k < r.end ==> Low(v[r.start - 1], v[k])
    ensures r.end < |v| ==> TransientDip(v, r.start, r.end)
  {
    if r in MainRanges(v, 1) {
      MainRangeFacts(v, r);
    } else {
      TrailingRangeFacts(v, r);
    }
  }

  // ---------- the repaired series ----------

  predicate Covers(r: Range, i: int) {
    1 <= r.start <= i < r.end
  }

  /** The index whose original value ends up at `i`. */
  function Source(ranges: seq<Range>, i: nat): (k: nat)
    ensures k <= i
    decreases |ranges|
  {
    if ranges == [] then i
    else if Covers(ranges[0], i) then ranges[0].start - 1
    else Source(ranges[1..], i)
  }

  lemma {:induction false} SourceOf(ranges: seq<Range>, i: nat)
    ensures Source(ranges, i) == i <==> forall r :: r in ranges ==> !Covers(r, i)
    ensures Source(ranges, i) != i ==> exists r :: r in ranges && Covers(r, i) && Source(ranges, i) == r.start - 1
    decreases |ranges|
  {
    if ranges != [] {
      var rest := ranges[1..];
      assert ranges == [ranges[0]] + rest;
      SourceOf(rest, i);
      assert forall r :: r in rest ==> r in ranges;
      assert Covers(ranges[0], i) ==> ranges[0] in ranges;
    }
  }

  /** All ranges overwritten at once, from the original values. */
  function Simultaneous<E>(v: seq<E>, ranges: seq<Range>): (w: seq<E>)
    ensures |w| == |v|
    ensures forall i :: 0 <= i < |v| ==> w[i] == v[Source(ranges, i)]
  {
    seq(|v|, i requires 0 <= i < |v| => v[Source(ranges, i)])
  }

  function Repaired(v: seq<real>): (w: seq<real>)
    ensures |w| == |v|
  {
    Simultaneous(v, RepairRanges(v))
  }

  /** One range overwritten. */
  function Fill<E>(v: seq<E>, r: Range): (w: seq<E>)
    requires 1 <= r.start < r.end <= |v|
    ensures |w| == |v|
    ensures forall i :: 0 <= i < |v| ==> w[i] == if Covers(r, i) then v[r.start - 1] else v[i]
  {
    seq(|v|, i requires 0 <= i < |v| => if Covers(r, i) then v[r.start - 1] else v[i])
  }

  /** The ranges overwritten one after the other, each from the series as it is by then. */
  function Overwritten<E>(v: seq<E>, ranges: seq<Range>): (w: seq<E>)
    requires WellPlaced(ranges, |v|)
    ensures |w| == |v|
    decreases |ranges|
  {
    if ranges == [] then v
    else
      assert WellPlaced(ranges[1..], |v|);
      Overwritten(Fill(v, ranges[0]), ranges[1..])
  }

  /** Filling the first range disturbs no source of the later ones. */
  lemma FillThenRest<E>(v: seq<E>, ranges: seq<Range>, i: nat)
    requires WellPlaced(ranges, |v|) && ranges != [] && i < |v|
    ensures Fill(v, ranges[0])[Source(ranges[1..], i)] == v[Source(ranges, i)]
  {
    var r, rest := ranges[0], ranges[1..];
    SourceOf(rest, i);
    if Source(rest, i) != i {
      var q :| q in rest && Covers(q, i) && Source(rest, i) == q.start - 1;
      var j :| 0 <= j < |rest| && rest[j] == q;
      assert ranges[j + 1] == q && r.end < q.start;
    }
  }

  /** Repairing in place, left to right, is repairing everything at once. */
  lemma {:induction false} InPlaceIsSimultaneous<E>(v: seq<E>, ranges: seq<Range>)
    requires WellPlaced(ranges, |v|)
    ensures Overwritten(v, ranges) == Simultaneous(v, ranges)
    decreases |ranges|
  {
    if ranges != [] {
      assert WellPlaced(ranges[1..], |v|);
      InPlaceIsSimultaneous(Fill(v, ranges[0]), ranges[1..]);
      forall i | 0 <= i < |v| ensures Overwritten(v, ranges)[i] == Simultaneous(v, ranges)[i] {
        FillThenRest(v, ranges, i);
      }
    }
  }

  // ---------- the entries of one chain, row by row ----------

  /** What is known of a chain's entry in a row: its `total_usd`, and whether Python takes the entry
      for true. A missing or empty entry has no total above zero. */
  datatype Reading<!E> = Reading(total: E -> real, present: E -> bool)

  ghost predicate AbsentIsZero<E(!new)>(reading: Reading<E>) {
    forall e :: !reading.present(e) ==> reading.total(e) <= 0.0
  }

  function Totals<E>(entries: seq<E>, reading: Reading<E>): (v: seq<real>)
    ensures |v| == |entries|
    ensures forall i :: 0 <= i < |entries| ==> v[i] == reading.total(entries[i])
  {
    seq(|entries|, i requires 0 <= i < |entries| => reading.total(entries[i]))
  }

  /** The totals of the repaired entries are the repaired totals. */
  lemma TotalsOfRepaired<E>(entries: seq<E>, reading: Reading<E>)
    ensures var v := Totals(entries, reading);
      Totals(Simultaneous(entries, RepairRanges(v)), reading) == Repaired(v)
  {
  }

  /** The inner loop of the repair: one range, row by row, with a copy of the entry before it. An
      entry that equals the replacement already is left alone. */
  method FillInPlace<E(==)>(a: array<E>, r: Range)
    requires 1 <= r.start < r.end <= a.Length
    modifies a
    ensures a[..] == Fill(old(a[..]), r)
  {
    var replacement := a[r.start - 1];
    for index := r.start to r.end
      invariant forall i :: 0 <= i < a.Length ==>
                  a[i] == if r.start <= i < index then replacement else old(a[i])
    {
      if a[index] == replacement {
        continue;
      }
      a[index] := replacement;
    }
  }

  /** The loop over the ranges, which passes over a range without a replacement. */
  function Overwriting<E>(entries: seq<E>, ranges: seq<Range>, present: E -> bool): (w: seq<E>)
    requires WellPlaced(ranges, |entries|)
    ensures |w| == |entries|
    decreases |ranges|
  {
    if ranges == [] then entries
    else
      assert WellPlaced(ranges[1..], |entries|);
      var r := ranges[0];
      Overwriting(if present(entries[r.start - 1]) then Fill(entries, r) else entries, ranges[1..], present)
  }

  lemma OverwritingStep<E>(entries: seq<E>, ranges: seq<Range>, present: E -> bool)
    requires WellPlaced(ranges, |entries|) && ranges != []
    ensures WellPlaced(ranges[1..], |entries|)
    ensures var r := ranges[0];
      Overwriting(entries, ranges, present)
      == Overwriting(if present(entries[r.start - 1]) then Fill(entries, r) else entries, ranges[1..], present)
  {
  }

  lemma {:induction false} NothingIsPassedOver<E>(entries: seq<E>, ranges: seq<Range>, present: E -> bool)
    requires WellPlaced(ranges, |entries|) && forall r :: r in ranges ==> present(entries[r.start - 1])
    ensures Overwriting(entries, ranges, present) == Overwritten(entries, ranges)
    decreases |ranges|
  {
    if ranges != [] {
      var r, rest := ranges[0], ranges[1..];
      assert r in ranges && WellPlaced(rest, |entries|);
      forall q | q in rest ensures Fill(entries, r)[q.start - 1] == entries[q.start - 1] && q in ranges {
        var j :| 0 <= j < |rest| && rest[j] == q;
        assert ranges[j + 1] == q && r.end < q.start;
      }
      NothingIsPassedOver(Fill(entries, r), rest, present);
    }
  }

  /** The replacement of a range is there: its total is above zero. */
  lemma ReplacementIsPresent<E(!new)>(entries: seq<E>, reading: Reading<E>, r: Range)
    requires AbsentIsZero(reading) && r in RepairRanges(Totals(entries, reading))
    ensures 1 <= r.start < r.end <= |entries| && reading.present(entries[r.start - 1])
  {
    RangeFacts(Totals(entries, reading), r);
  }

  /** So the loop repairs the entries all at once, and their totals are the repaired totals. */
  lemma OverwritingRepairs<E(!new)>(entries: seq<E>, reading: Reading<E>)
    requires AbsentIsZero(reading)
    ensures var ranges := RepairRanges(Totals(entries, reading));
      && WellPlaced(ranges, |entries|)
      && Overwriting(entries, ranges, reading.present) == Simultaneous(entries, ranges)
      && Totals(Simultaneous(entries, ranges), reading) == Repaired(Totals(entries, reading))
  {
    var v := Totals(entries, reading);
    RangesWellPlaced(v);
    forall r | r in RepairRanges(v) ensures reading.present(entries[r.start - 1]) {
      ReplacementIsPresent(entries, reading, r);
    }
    NothingIsPassedOver(entries, RepairRanges(v), reading.present);
    InPlaceIsSimultaneous(entries, RepairRanges(v));
    TotalsOfRepaired(entries, reading);
  }

  /** The repair of one chain of a wallet in `main`: the ranges are found in the totals, then each
      is overwritten, entry by entry and in place. */
  method RepairInPlace<E(==,!new)>(a: array<E>, reading: Reading<E>)
    requires AbsentIsZero(reading)
    modifies a
    ensures a[..] == Simultaneous(old(a[..]), RepairRanges(Totals(old(a[..]), reading)))
    ensures Totals(a[..], reading) == Repaired(Totals(old(a[..]), reading))
  {
    ghost var entries := a[..];
    var ranges := FindRepairRanges(Totals(a[..], reading));
    OverwritingRepairs(entries, reading);
    OverwriteInPlace(a, ranges, reading.present);
  }

  /** The loop over the ranges. */
  method OverwriteInPlace<E(==)>(a: array<E>, ranges: seq<Range>, present: E -> bool)
    requires WellPlaced(ranges, a.Length)
    modifies a
    ensures a[..] == Overwriting(old(a[..]), ranges, present)
  {
    var n := 0;
    while n < |ranges|
      invariant 0 <= n <= |ranges|
      invariant WellPlaced(ranges[n..], a.Length)
      invariant Overwriting(a[..], ranges[n..], present) == Overwriting(old(a[..]), ranges, present)
    {
      var r := ranges[n];
      OverwritingStep(a[..], ranges[n..], present);
      assert ranges[n..][1..] == ranges[n + 1..];
      n := n + 1;
      if !present(a[r.start - 1]) {
        continue;
      }
      FillInPlace(a, r);
    }
  }

  // ---------- what repair does to a series ----------

  predicate InRange(v: seq<real>, i: int) {
    exists r :: r in RepairRanges(v) && Covers(r, i)
  }

  /** Inside a range the repaired value is the original value before the range. */
  lemma RepairedInside(v: seq<real>, r: Range, i: nat)
    requires r in RepairRanges(v) && Covers(r, i) && i < |v|
    ensures Repaired(v)[i] == v[r.start - 1]
  {
    var ranges := RepairRanges(v);
    RangesWellPlaced(v);
    SourceOf(ranges, i);
    var q :| q in ranges && Covers(q, i) && Source(ranges, i) == q.start - 1;
    var j :| 0 <= j < |ranges| && ranges[j] == q;
    var k :| 0 <= k < |ranges| && ranges[k] == r;
    assert j == k;
  }

  /** Repair raises exactly the values inside the ranges, and touches no other. */
  lemma RepairOnlyRaises(v: seq<real>, i: nat)
    requires i < |v|
    ensures Repaired(v)[i] >= v[i]
    ensures Repaired(v)[i] > v[i] <==> InRange(v, i)
  {
    SourceOf(RepairRanges(v), i);
    if InRange(v, i) {
      var r :| r in RepairRanges(v) && Covers(r, i);
      RangeFacts(v, r);
      RepairedInside(v, r, i);
    }
  }

  /** The value just before a range is not repaired. */
  lemma AnchorsAreOriginal(v: seq<real>, r: Range)
    requires r in RepairRanges(v)
    ensures 1 <= r.start <= |v| && !InRange(v, r.start - 1)
    ensures Repaired(v)[r.start - 1] == v[r.start - 1]
  {
    RangeFacts(v, r);
    RangesWellPlaced(v);
    var ranges := RepairRanges(v);
    var k :| 0 <= k < |ranges| && ranges[k] == r;
    forall q | q in ranges ensures !Covers(q, r.start - 1) {
      var j :| 0 <= j < |ranges| && ranges[j] == q;
    }
    RepairOnlyRaises(v, r.start - 1);
  }

  /** Where a range ends no dip starts, before or after the repair. */
  lemma NoDipAfterRange(v: seq<real>, r: Range)
    requires r in RepairRanges(v) && r.end < |v|
    ensures 1 <= r.end && !Dips(v, r.end) && !Dips(Repaired(v), r.end)
  {
    RangeFacts(v, r);
    NoDipAtRunEnd(v, r.start, r.end);
    RepairedInside(v, r, r.end - 1);
    RepairOnlyRaises(v, r.end);
  }

  /** Inside a range every value equals the one before it. */
  lemma FlatInside(v: seq<real>, r: Range, i: nat)
    requires r in RepairRanges(v) && Covers(r, i) && i < |v|
    ensures Repaired(v)[i] == Repaired(v)[i - 1]
  {
    RepairedInside(v, r, i);
    if i == r.start {
      AnchorsAreOriginal(v, r);
    } else {
      RepairedInside(v, r, i - 1);
    }
  }

  /** A dip outside the ranges leaves its anchor outside too. */
  lemma UnrepairedDip(v: seq<real>, i: int)
    requires 1 <= i < |v| && Dips(v, i) && !InRange(v, i)
    ensures !InRange(v, i - 1)
    ensures Dips(Repaired(v), i)
  {
    forall r | r in RepairRanges(v) ensures !Covers(r, i - 1) {
      RangeFacts(v, r);
      if r.end == i {
        NoDipAfterRange(v, r);
      }
    }
    RepairOnlyRaises(v, i);
    RepairOnlyRaises(v, i - 1);
  }

  /** Repair creates no dips: what dips afterwards dipped before, away from all ranges. */
  lemma DipSurvives(v: seq<real>, i: int)
    requires 1 <= i < |v| && Dips(Repaired(v), i)
    ensures Dips(v, i) && !InRange(v, i) && !InRange(v, i - 1)
    ensures Repaired(v)[i] == v[i] && Repaired(v)[i - 1] == v[i - 1]
  {
    RepairOnlyRaises(v, i);
    RepairOnlyRaises(v, i - 1);
    forall r | r in RepairRanges(v) ensures !Covers(r, i) && !Covers(r, i - 1) {
      RangeFacts(v, r);
      if Covers(r, i) {
        FlatInside(v, r, i);
      } else if r.end == i {
        NoDipAfterRange(v, r);
      }
    }
  }

  // ---------- repair is idempotent ----------

  /** Above any dip that covers `a` there is an outermost one. */
  lemma {:induction false} OutermostCover(v: seq<real>, i: int, a: int) returns (o: int)
    requires 1 <= i < a < |v| && Dips(v, i) && StillLow(v, i, a)
    ensures 1 <= o <= i && Dips(v, o) && StillLow(v, o, a) && Recovered(v, o)
    decreases i
  {
    if Recovered(v, i) {
      o := i;
    } else {
      var j :| 1 <= j < i && Dips(v, j) && StillLow(v, j, i);
      forall k | j <= k <= a ensures Low(v[j - 1], v[k]) {
        if k > i {
          LowIsNested(v[j - 1], v[i - 1], v[k]);
        }
      }
      o := OutermostCover(v, j, a);
    }
  }

  /** A run from which the series has recovered by `o` ends by `o`. */
  lemma EndsBefore(v: seq<real>, a: int, b: int, o: int)
    requires 1 <= a < o < |v| && Dips(v, a) && Recovered(v, o)
    requires a < b && forall k :: a <= k < b && k < |v| ==> Low(v[a - 1], v[k])
    ensures b <= o
  {
  }

  /** A run that starts under the cover of `o..a` can only be the cover's own, and reaches
      beyond `a`. */
  lemma StartsLater(v: seq<real>, o: int, a: int, start: int, end: int)
    requires 1 <= o < a < |v| && Dips(v, o) && StillLow(v, o, a)
    requires o <= start <= a && start < end && (end < |v| ==> TransientDip(v, start, end))
    ensures a < end
  {
  }

  /** An outermost dip that covers an unrepaired index lies, with its anchor, outside every
      range up to that index. */
  lemma CoverIsUnrepaired(v: seq<real>, o: int, a: int, k: int)
    requires 1 <= o < a < |v| && Dips(v, o) && StillLow(v, o, a) && Recovered(v, o)
    requires !InRange(v, a) && o - 1 <= k <= a
    ensures !InRange(v, k)
  {
    forall r | r in RepairRanges(v) ensures !Covers(r, k) {
      RangeFacts(v, r);
      if r.end == o {
        NoDipAfterRange(v, r);
      } else if r.start < o {
        EndsBefore(v, r.start, r.end, o);
      } else if r.start <= a {
        StartsLater(v, o, a, r.start, r.end);
      }
    }
  }

  /** Dips that were recovered from after the repair were recovered from before it. */
  lemma RecoveredBefore(v: seq<real>, a: int)
    requires 1 <= a < |v| && Recovered(Repaired(v), a) && !InRange(v, a)
    ensures Recovered(v, a)
  {
    forall i | 1 <= i < a && Dips(v, i) ensures !StillLow(v, i, a) {
      if StillLow(v, i, a) {
        var o := OutermostCover(v, i, a);
        CoverSurvives(v, o, a);
      }
    }
  }

  /** An outermost dip that covers an unrepaired index still covers it after the repair. */
  lemma CoverSurvives(v: seq<real>, o: int, a: int)
    requires 1 <= o < a < |v| && Dips(v, o) && StillLow(v, o, a) && Recovered(v, o)
    requires !InRange(v, a)
    ensures Dips(Repaired(v), o) && StillLow(Repaired(v), o, a)
  {
    forall k | o - 1 <= k <= a ensures Repaired(v)[k] == v[k] {
      CoverIsUnrepaired(v, o, a, k);
      RepairOnlyRaises(v, k);
    }
  }

  /** The end of a run of the repaired series was not repaired. */
  lemma RunEndIsOriginal(v: seq<real>, a: int, b: int)
    requires DipRun(Repaired(v), a, b)
    ensures !InRange(v, b)
  {
    forall r | r in RepairRanges(v) ensures !Covers(r, b) {
      if Covers(r, b) {
        FlatInside(v, r, b);
      }
    }
  }

  /** A transient dip of the repaired series would have been one of the original, and would
      have been repaired. */
  lemma TransientDipSurvives(v: seq<real>, a: int, b: int)
    requires TransientDip(Repaired(v), a, b)
    ensures TransientDip(v, a, b) && !InRange(v, a)
  {
    var w := Repaired(v);
    assert Low(w[a - 1], w[a]);
    DipSurvives(v, a);
    forall k | a <= k < b ensures Low(v[a - 1], v[k]) {
      RepairOnlyRaises(v, k);
    }
    RunEndIsOriginal(v, a, b);
    RepairOnlyRaises(v, b);
    RecoveredBefore(v, a);
  }

  lemma ReportedIsInRange(v: seq<real>, a: nat, b: nat)
    requires TransientDip(v, a, b)
    ensures InRange(v, a)
  {
    FindsExactlyTheTransientDips(v, a, b);
    assert Range(a, b) in RepairRanges(v) && Covers(Range(a, b), a);
  }

  lemma TrailingCoversLast(v: seq<real>)
    requires TrailingRange(v) != []
    ensures |v| > 0 && InRange(v, |v| - 1)
  {
    var r := TrailingRange(v)[0];
    TrailingRangeFacts(v, r);
    assert r in RepairRanges(v) && Covers(r, |v| - 1);
  }

  /** A series whose last value dips, unrepaired, has dipped three times in a row. */
  lemma LongTrail(v: seq<real>)
    requires 2 <= |v| && Dips(v, |v| - 1) && !InRange(v, |v| - 1)
    ensures 4 <= |v| && Dips(v, |v| - 2) && Dips(v, |v| - 3)
  {
    var t := TrailStart(v, |v|);
    assert t < |v|;
    if TrailingRange(v) != [] {
      TrailingCoversLast(v);
    }
  }

  lemma NoTrailingDipLeft(v: seq<real>)
    ensures TrailingRange(Repaired(v)) == []
  {
    var w, n := Repaired(v), |v|;
    if n >= 2 && Dips(w, n - 1) {
      DipSurvives(v, n - 1);
      LongTrail(v);
      UnrepairedDip(v, n - 1);
      UnrepairedDip(v, n - 2);
      UnrepairedDip(v, n - 3);
      assert TrailStart(w, n) == TrailStart(w, n - 1) == TrailStart(w, n - 2) == TrailStart(w, n - 3);
    }
  }

  /** Repair is idempotent: in a repaired series there is nothing left to repair. */
  lemma RepairIsIdempotent(v: seq<real>)
    ensures RepairRanges(Repaired(v)) == []
    ensures Repaired(Repaired(v)) == Repaired(v)
  {
    var w := Repaired(v);
    var main := MainRanges(w, 1);
    if main != [] {
      var r := main[0];
      assert r in main;
      FindsExactlyTheTransientDips(w, r.start, r.end);
      TransientDipSurvives(v, r.start, r.end);
      ReportedIsInRange(v, r.start, r.end);
    }
    NoTrailingDipLeft(v);
  }
}
