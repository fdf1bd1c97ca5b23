/**
 * The data both scripts keep about recorded tours: the tour records read
 * from the service, the GPS lines kept for drawing, and the stored state
 * (`traces`, `tour_ids`, `last_tours`, `stats.count`), together with the
 * specification functions the scripts' loops are proved against.
 */
module Tours {
  import opened Seqs

  datatype Option<T> = None | Some(value: T)

  /** A GPS point, latitude and longitude in units of 1e-5 degree. */
  datatype Point = Point(lat: int, lon: int)

  type Segment = seq<Point>
  type Track = seq<Segment>
  /** A parsed GPX file: its tracks, each a sequence of segments. */
  type Gpx = seq<Track>

  /**
   * One tour record of the service. `id` is the text `str(tour['id'])`;
   * `distance` (metres) and `duration` (seconds) may be absent.
   */
  datatype Tour = Tour(id: string, name: string, date: string, distance: Option<int>, duration: Option<int>)

  /** One entry of `last_tours`: name, date cut to `YYYY-MM-DD`, distance in metres. */
  datatype LastTour = LastTour(name: string, date: string, distance: int)

  function Min(a: int, b: int): int { if a <= b then a else b }

  function ValueOr(o: Option<int>, default: int): int {
    match o
    case Some(v) => v
    case None => default
  }

  /** Python's `s[:n]`: the first `n` items, or all but the last `-n` when `n` is negative. */
  function Take<T>(s: seq<T>, n: int): (r: seq<T>)
    ensures 0 <= n ==> |r| == Min(n, |s|)
    ensures n < 0 ==> |r| == if |s| + n < 0 then 0 else |s| + n
    ensures r == s[..|r|]
  {
    if n >= 0 then s[..Min(n, |s|)]
    else if |s| + n < 0 then []
    else s[..|s| + n]
  }

  /** (m + 1) * k == m * k + k, kept apart so that no other proof sees a product. */
  lemma MulSucc(m: int, k: int)
    ensures (m + 1) * k == m * k + k
  {
  }

  lemma MulMono(x: int, y: int, k: int)
    requires x <= y && k >= 0
    ensures x * k <= y * k
  {
    assert y * k - x * k == (y - x) * k;
  }

  /** Integer division is determined by the quotient's bracket. */
  lemma DivUnique(a: int, k: int, q: int)
    requires k > 0 && q * k <= a < q * k + k
    ensures a / k == q
  {
    var d := a / k;
    if d < q {
      MulMono(d, q - 1, k);
      MulSucc(q - 1, k);
    } else if d > q {
      MulMono(q + 1, d, k);
      MulSucc(q, k);
    }
  }

  /** Python's `s[::k]` for `k >= 1`: every k-th item, starting with the first. */
  function Stride<T>(s: seq<T>, k: nat): seq<T>
    requires k >= 1
    decreases |s|
  {
    if |s| == 0 then []
    else if |s| <= k then [s[0]]
    else [s[0]] + Stride(s[k..], k)
  }

  /** The stride has the fewest items whose k-spaced positions cover `s`. */
  lemma {:induction false} StrideCovers<T>(s: seq<T>, k: nat)
    requires k >= 1
    ensures |s| <= |Stride(s, k)| * k < |s| + k
    decreases |s|
  {
    if |s| > k {
      StrideCovers(s[k..], k);
      MulSucc(|Stride(s[k..], k)|, k);
    }
  }

  /** The stride keeps ceil(|s| / k) items. */
  lemma StrideLength<T>(s: seq<T>, k: nat)
    requires k >= 1
    ensures |Stride(s, k)| == (|s| + k - 1) / k
  {
    var n := |Stride(s, k)|;
    StrideCovers(s, k);
    MulSucc(n - 1, k);
    DivUnique(|s| + k - 1, k, n);
  }

  /** Item `i` of the stride is item `i * k` of `s`. */
  lemma {:induction false} StrideAt<T>(s: seq<T>, k: nat, i: nat)
    requires k >= 1 && i < |Stride(s, k)|
    ensures 0 <= i * k < |s| && Stride(s, k)[i] == s[i * k]
    decreases |s|
  {
    if i > 0 {
      StrideAt(s[k..], k, i - 1);
      MulSucc(i - 1, k);
    }
  }

  /** `simplify_trace`: a factor of at most 1 keeps the trace, else one point in `factor`. */
  function SimplifyTrace(points: Segment, factor: int): Segment {
    if factor <= 1 then points else Stride(points, factor)
  }

  /**
   * The simplified trace starts at the first point and keeps every
   * `factor`-th point after it, `ceil(n / factor)` points in all.
   */
  lemma SimplifyTraceSpec(points: Segment, factor: int)
    ensures factor <= 1 ==> SimplifyTrace(points, factor) == points
    ensures factor > 1 ==> |SimplifyTrace(points, factor)| == (|points| + factor - 1) / factor
    ensures factor > 1 ==> forall i :: 0 <= i < |SimplifyTrace(points, factor)| ==>
      0 <= i * factor < |points| && SimplifyTrace(points, factor)[i] == points[i * factor]
  {
    if factor > 1 {
      StrideLength(points, factor);
      forall i | 0 <= i < |Stride(points, factor)|
        ensures 0 <= i * factor < |points| && Stride(points, factor)[i] == points[i * factor] {
        StrideAt(points, factor, i);
      }
    }
  }

  /** The lines kept from some segments: simplified, and only those of at least two points. */
  function KeptSegments(segs: seq<Segment>, factor: int): seq<Segment> {
    if segs == [] then []
    else
      var line := SimplifyTrace(segs[|segs| - 1], factor);
      KeptSegments(segs[..|segs| - 1], factor) + (if |line| > 1 then [line] else [])
  }

  /** The lines kept from a GPX file, track by track and segment by segment. */
  function KeptLines(gpx: Gpx, factor: int): seq<Segment> {
    if gpx == [] then []
    else KeptLines(gpx[..|gpx| - 1], factor) + KeptSegments(gpx[|gpx| - 1], factor)
  }

  /** One more segment adds its line at the end when it keeps more than one point. */
  lemma KeptSegmentsSnoc(segs: seq<Segment>, s: nat, factor: int)
    requires s < |segs|
    ensures var line := SimplifyTrace(segs[s], factor);
      KeptSegments(segs[..s + 1], factor) == KeptSegments(segs[..s], factor) + (if |line| > 1 then [line] else [])
  {
    assert segs[..s + 1][..s] == segs[..s];
  }

  /** One more track adds its kept segments at the end. */
  lemma KeptLinesSnoc(gpx: Gpx, t: nat, factor: int)
    requires t < |gpx|
    ensures KeptLines(gpx[..t + 1], factor) == KeptLines(gpx[..t], factor) + KeptSegments(gpx[t], factor)
  {
    assert gpx[..t + 1][..t] == gpx[..t];
  }

  /** Every kept line comes from a segment and has at least two points; every such segment gives one. */
  lemma {:induction false} KeptSegmentsAreLines(segs: seq<Segment>, factor: int, line: Segment)
    ensures line in KeptSegments(segs, factor) <==>
            |line| > 1 && exists seg :: seg in segs && line == SimplifyTrace(seg, factor)
  {
    if segs != [] {
      var init, last := segs[..|segs| - 1], segs[|segs| - 1];
      assert segs == init + [last];
      KeptSegmentsAreLines(init, factor, line);
      if |line| > 1 && line != SimplifyTrace(last, factor) &&
         exists seg :: seg in segs && line == SimplifyTrace(seg, factor) {
        var seg :| seg in segs && line == SimplifyTrace(seg, factor);
        assert seg in init;
      }
    }
  }

  lemma {:induction false} KeptLinesAreLines(gpx: Gpx, factor: int, line: Segment)
    ensures line in KeptLines(gpx, factor) <==>
            |line| > 1 && exists track, seg :: track in gpx && seg in track && line == SimplifyTrace(seg, factor)
  {
    if gpx != [] {
      var init, last := gpx[..|gpx| - 1], gpx[|gpx| - 1];
      assert gpx == init + [last];
      KeptLinesAreLines(init, factor, line);
      KeptSegmentsAreLines(last, factor, line);
      if |line| > 1 && exists track, seg :: track in gpx && seg in track && line == SimplifyTrace(seg, factor) {
        var track, seg :| track in gpx && seg in track && line == SimplifyTrace(seg, factor);
        if track != last {
          assert track in init;
        }
      }
    }
  }

  /** Every kept line has more than one point. */
  lemma {:induction false} KeptLinesAreLong(gpx: Gpx, factor: int)
    ensures forall line :: line in KeptLines(gpx, factor) ==> |line| > 1
  {
    forall line | line in KeptLines(gpx, factor) ensures |line| > 1 {
      KeptLinesAreLines(gpx, factor, line);
    }
  }

  /** `tour['date'].startswith(month)`. */
  predicate InMonth(t: Tour, month: string) {
    month <= t.date
  }

  /** Sum of the distances (missing ones as 0) of the tours dated in `month`. */
  function MonthDistance(tours: seq<Tour>, month: string): int {
    if tours == [] then 0
    else
      var t := tours[|tours| - 1];
      MonthDistance(tours[..|tours| - 1], month) + (if InMonth(t, month) then ValueOr(t.distance, 0) else 0)
  }

  /** Sum of the durations (missing ones as 0) of the tours dated in `month`. */
  function MonthDuration(tours: seq<Tour>, month: string): int {
    if tours == [] then 0
    else
      var t := tours[|tours| - 1];
      MonthDuration(tours[..|tours| - 1], month) + (if InMonth(t, month) then ValueOr(t.duration, 0) else 0)
  }

  /** The month totals add over concatenation. */
  lemma {:induction false} MonthTotalsAppend(a: seq<Tour>, b: seq<Tour>, month: string)
    ensures MonthDistance(a + b, month) == MonthDistance(a, month) + MonthDistance(b, month)
    ensures MonthDuration(a + b, month) == MonthDuration(a, month) + MonthDuration(b, month)
    decreases |b|
  {
    if b == [] {
      assert a + b == a;
    } else {
      var init := b[..|b| - 1];
      assert (a + b)[..|a + b| - 1] == a + init;
      MonthTotalsAppend(a, init, month);
    }
  }

  /** Tours of other months add nothing to the totals. */
  lemma {:induction false} MonthTotalsOtherMonths(tours: seq<Tour>, month: string)
    requires forall t :: t in tours ==> !InMonth(t, month)
    ensures MonthDistance(tours, month) == 0 && MonthDuration(tours, month) == 0
  {
    if tours != [] {
      MonthTotalsOtherMonths(tours[..|tours| - 1], month);
    }
  }

  /** A single tour of the month adds its own distance and duration. */
  lemma MonthTotalsSingle(t: Tour, month: string)
    requires InMonth(t, month)
    ensures MonthDistance([t], month) == ValueOr(t.distance, 0)
    ensures MonthDuration([t], month) == ValueOr(t.duration, 0)
  {
  }

  /** The bookkeeping the sync loop updates. */
  datatype SyncState = SyncState(traces: seq<Segment>, tourIds: seq<string>, count: int)

  /**
   * One turn of the sync loop for `tour`, whose GPX request gave `gpx`: an
   * unknown tour whose GPX was obtained has its lines appended, its id
   * appended and the count incremented; anything else changes nothing.
   */
  function SyncStep(st: SyncState, tour: Tour, gpx: Option<Gpx>, factor: int): SyncState {
    if tour.id !in st.tourIds && gpx.Some? then
      SyncState(st.traces + KeptLines(gpx.value, factor), st.tourIds + [tour.id], st.count + 1)
    else st
  }

  /** The sync loop over `tours`; `fetch(i)` is the answer to the GPX request for `tours[i]`. */
  function SyncAll(st: SyncState, tours: seq<Tour>, fetch: nat -> Option<Gpx>, factor: int): SyncState {
    if tours == [] then st
    else
      var n := |tours| - 1;
      SyncStep(SyncAll(st, tours[..n], fetch, factor), tours[n], fetch(n), factor)
  }

  /**
   * The ids only grow at the end, and the count grows by exactly the number
   * of ids appended.
   */
  lemma {:induction false} SyncAppendsCounted(st: SyncState, tours: seq<Tour>, fetch: nat -> Option<Gpx>, factor: int)
    ensures var r := SyncAll(st, tours, fetch, factor);
      && |st.tourIds| <= |r.tourIds| && r.tourIds[..|st.tourIds|] == st.tourIds
      && r.count - st.count == |r.tourIds| - |st.tourIds|
  {
    if tours != [] {
      SyncAppendsCounted(st, tours[..|tours| - 1], fetch, factor);
    }
  }

  /** The sync loop never stores an id twice. */
  lemma {:induction false} SyncNoDuplicates(st: SyncState, tours: seq<Tour>, fetch: nat -> Option<Gpx>, factor: int)
    requires Distinct(st.tourIds)
    ensures Distinct(SyncAll(st, tours, fetch, factor).tourIds)
  {
    if tours != [] {
      var n := |tours| - 1;
      SyncNoDuplicates(st, tours[..n], fetch, factor);
    }
  }

  /**
   * Every id the sync loop appends belongs to a tour of the list that was
   * not stored before and whose GPX was obtained.
   */
  lemma {:induction false} SyncAppendsOnlyNew(st: SyncState, tours: seq<Tour>, fetch: nat -> Option<Gpx>, factor: int, k: nat)
    requires var r := SyncAll(st, tours, fetch, factor); |st.tourIds| <= k < |r.tourIds|
    ensures var id := SyncAll(st, tours, fetch, factor).tourIds[k];
      && id !in st.tourIds
      && exists i :: 0 <= i < |tours| && tours[i].id == id && fetch(i).Some?
  {
    var n := |tours| - 1;
    var prev := SyncAll(st, tours[..n], fetch, factor);
    var r := SyncAll(st, tours, fetch, factor);
    SyncAppendsCounted(st, tours[..n], fetch, factor);
    if k < |prev.tourIds| {
      SyncAppendsOnlyNew(st, tours[..n], fetch, factor, k);
      var i :| 0 <= i < n && tours[..n][i].id == prev.tourIds[k] && fetch(i).Some?;
      assert tours[i] == tours[..n][i];
    } else {
      assert r.tourIds[k] == tours[n].id && fetch(n).Some?;
      assert forall j :: 0 <= j < |st.tourIds| ==> prev.tourIds[j] == st.tourIds[j];
    }
  }

  /** Every tour of the list whose GPX was obtained ends up stored. */
  lemma {:induction false} SyncStoresFetched(st: SyncState, tours: seq<Tour>, fetch: nat -> Option<Gpx>, factor: int, i: nat)
    requires i < |tours| && fetch(i).Some?
    ensures tours[i].id in SyncAll(st, tours, fetch, factor).tourIds
  {
    var n := |tours| - 1;
    if i < n {
      SyncStoresFetched(st, tours[..n], fetch, factor, i);
      assert tours[..n][i] == tours[i];
    }
  }

  /**
   * The file `all_points.json` as both scripts hold it in memory (the
   * unused `stats.dist` is not kept).
   */
  class Storage {
    var traces: seq<Segment>
    var tourIds: seq<string>
    var lastTours: seq<LastTour>
    var count: int

    /** The initial structure used when no saved data can be read. */
    constructor ()
      ensures traces == [] && tourIds == [] && lastTours == [] && count == 0
    {
      traces, tourIds, lastTours, count := [], [], [], 0;
    }

    function Sync(): SyncState
      reads this
    {
      SyncState(traces, tourIds, count)
    }
  }
}
