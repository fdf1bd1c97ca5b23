/**
 * update_map.py: the earlier script, where `run_sync` does everything in
 * one body: month totals, the five latest tours, the sync loop with its
 * inline one-point-in-three slicing, and the largest tile cluster.
 */
module UpdateMap {
  import opened Seqs
  import opened Tiles
  import opened Cluster
  import opened Tours
  import SquadraImproved

  /** The fixed slicing step of `seg.points[::3]`. */
  const Step: nat := 3

  /** `calculate_max_cluster`, the same breadth-first search as in the later script. */
  method CalculateMaxCluster(tiles: set<Tile>) returns (maxCluster: nat)
    ensures IsLargestClusterSize(tiles, maxCluster)
    ensures tiles == {} ==> maxCluster == 0
    ensures tiles != {} ==> 1 <= maxCluster <= |tiles|
  {
    if tiles == {} {
      return 0;
    }
    ghost var clusterSizes, starts;
    maxCluster, clusterSizes, starts := SearchAll(tiles);
    ProgressDone(tiles, maxCluster, clusterSizes);
  }

  /** Both scripts' cluster searches give the same number on every tile set. */
  method ClustersAgree(tiles: set<Tile>) returns (here: nat, improved: nat)
    ensures here == improved
    ensures IsLargestClusterSize(tiles, here)
  {
    here := CalculateMaxCluster(tiles);
    ghost var sizes, starts;
    improved, sizes, starts := SquadraImproved.CalculateMaxCluster(tiles);
    LargestClusterUnique(tiles, here, improved);
  }

  /**
   * The month loop of `run_sync`: distances and durations of the tours
   * whose date starts with `month`. A tour of the month without a
   * `distance` or `duration` key stops the script (KeyError): None.
   */
  method MonthTotals(tours: seq<Tour>, month: string) returns (totals: Option<(int, int)>)
    ensures totals.None? <==>
      exists i :: 0 <= i < |tours| && InMonth(tours[i], month) && (tours[i].distance.None? || tours[i].duration.None?)
    ensures totals.Some? ==> totals.value == (MonthDistance(tours, month), MonthDuration(tours, month))
  {
    var monthDist, monthTimeSec := 0, 0;
    for i := 0 to |tours|
      invariant monthDist == MonthDistance(tours[..i], month)
      invariant monthTimeSec == MonthDuration(tours[..i], month)
      invariant forall j :: 0 <= j < i && InMonth(tours[j], month) ==> tours[j].distance.Some? && tours[j].duration.Some?
    {
      var tour := tours[i];
      if InMonth(tour, month) {
        if tour.distance.None? || tour.duration.None? {
          return None;
        }
        monthDist := monthDist + tour.distance.value;
        monthTimeSec := monthTimeSec + tour.duration.value;
      }
      assert tours[..i + 1][..i] == tours[..i];
    }
    assert tours[..|tours|] == tours;
    totals := Some((monthDist, monthTimeSec));
  }

  /**
   * `last_tours`: the first five tours, in order, each with its date cut to
   * ten characters; a missing `distance` among them stops the script (None).
   * When it does not, the list is the later script's `format_last_tours`.
   */
  function LastTours(tours: seq<Tour>): (r: Option<seq<LastTour>>)
    ensures r.None? <==> exists i :: 0 <= i < Min(5, |tours|) && tours[i].distance.None?
    ensures r.Some? ==> |r.value| == Min(5, |tours|)
    ensures r.Some? ==> r.value == SquadraImproved.FormatLastTours(tours, 5)
    ensures r.Some? ==> forall i :: 0 <= i < |r.value| ==>
      r.value[i] == LastTour(tours[i].name, tours[i].date[..Min(10, |tours[i].date|)], tours[i].distance.value)
  {
    var first := Take(tours, 5);
    if forall i :: 0 <= i < |first| ==> first[i].distance.Some? then
      Some(seq(|first|, i requires 0 <= i < |first| =>
        LastTour(first[i].name, Take(first[i].date, 10), first[i].distance.value)))
    else None
  }

  /** The inner loop over one track's segments: each kept line is appended. */
  method AppendTrackLines(storage: Storage, track: seq<Segment>)
    modifies storage
    ensures storage.traces == old(storage.traces) + KeptSegments(track, Step)
    ensures storage.tourIds == old(storage.tourIds) && storage.count == old(storage.count)
    ensures storage.lastTours == old(storage.lastTours)
  {
    ghost var start := storage.traces;
    for s := 0 to |track|
      invariant storage.traces == start + KeptSegments(track[..s], Step)
      invariant storage.tourIds == old(storage.tourIds) && storage.count == old(storage.count)
      invariant storage.lastTours == old(storage.lastTours)
    {
      var line := Stride(track[s], Step);
      if |line| > 1 {
        storage.traces := storage.traces + [line];
      }
      KeptSegmentsSnoc(track, s, Step);
      AppendAssoc(start, KeptSegments(track[..s], Step), if |line| > 1 then [line] else []);
    }
    assert track[..|track|] == track;
  }

  /** The loop over the tracks of one GPX file. */
  method AppendLines(storage: Storage, gpx: Gpx)
    modifies storage
    ensures storage.traces == old(storage.traces) + KeptLines(gpx, Step)
    ensures storage.tourIds == old(storage.tourIds) && storage.count == old(storage.count)
    ensures storage.lastTours == old(storage.lastTours)
  {
    ghost var start := storage.traces;
    for t := 0 to |gpx|
      invariant storage.traces == start + KeptLines(gpx[..t], Step)
      invariant storage.tourIds == old(storage.tourIds) && storage.count == old(storage.count)
      invariant storage.lastTours == old(storage.lastTours)
    {
      ghost var done := storage.traces;
      AppendTrackLines(storage, gpx[t]);
      KeptLinesSnoc(gpx, t, Step);
      AppendAssoc(start, KeptLines(gpx[..t], Step), KeptSegments(gpx[t], Step));
    }
    assert gpx[..|gpx|] == gpx;
  }

  /**
   * The sync loop of `run_sync`: a tour not yet stored whose GPX request
   * succeeds has its id appended and the count raised, then every segment
   * cut to one point in three appended when it keeps more than one point.
   */
  method SyncTours(storage: Storage, tours: seq<Tour>, fetch: nat -> Option<Gpx>)
    modifies storage
    ensures storage.Sync() == SyncAll(old(storage.Sync()), tours, fetch, Step)
    ensures storage.lastTours == old(storage.lastTours)
  {
    ghost var start := storage.Sync();
    for i := 0 to |tours|
      invariant storage.Sync() == SyncAll(start, tours[..i], fetch, Step)
      invariant storage.lastTours == old(storage.lastTours)
    {
      var tourId := tours[i].id;
      if tourId !in storage.tourIds {
        var response := fetch(i);
        if response.Some? {
          storage.tourIds := storage.tourIds + [tourId];
          storage.count := storage.count + 1;
          AppendLines(storage, response.value);
        }
      }
      assert tours[..i + 1][..i] == tours[..i];
    }
    assert tours[..|tours|] == tours;
  }

  /**
   * Each stored line is a segment cut to one point in three: its first point
   * is the segment's first, point `i` is the segment's point `3 * i`, and it
   * has at least two points.
   */
  lemma StoredLinesAreThirds(gpx: Gpx, line: Segment)
    requires line in KeptLines(gpx, Step)
    ensures |line| >= 2
    ensures exists track, seg ::
      && track in gpx && seg in track
      && 0 < |seg| && line[0] == seg[0]
      && |line| == (|seg| + 2) / 3
      && forall i :: 0 <= i < |line| ==> 3 * i < |seg| && line[i] == seg[3 * i]
  {
    KeptLinesAreLines(gpx, Step, line);
    var track, seg :| track in gpx && seg in track && line == SimplifyTrace(seg, Step);
    SimplifyTraceSpec(seg, Step);
    assert line[0] == seg[0 * 3];
  }

  /**
   * The data part of `run_sync`. Without a successful tour list nothing is
   * stored and the totals stay 0. A missing key stops the script before the
   * storage changes (None). Otherwise `last_tours` is replaced, the tours are
   * synced, and the month totals are returned.
   */
  method RunSync(storage: Storage, response: Option<seq<Tour>>, month: string, fetch: nat -> Option<Gpx>)
    returns (totals: Option<(int, int)>)
    modifies storage
    ensures response.None? ==> totals == Some((0, 0))
    ensures totals.None? || response.None? ==>
      storage.Sync() == old(storage.Sync()) && storage.lastTours == old(storage.lastTours)
    ensures response.Some? && totals.Some? ==>
      && totals.value == (MonthDistance(response.value, month), MonthDuration(response.value, month))
      && LastTours(response.value).Some?
      && storage.lastTours == LastTours(response.value).value
      && storage.Sync() == SyncAll(old(storage.Sync()), response.value, fetch, Step)
    ensures response.Some? ==> (totals.None? <==>
      || LastTours(response.value).None?
      || exists i :: 0 <= i < |response.value| && InMonth(response.value[i], month)
                     && (response.value[i].distance.None? || response.value[i].duration.None?))
  {
    if response.None? {
      return Some((0, 0));
    }
    var tours := response.value;
    totals := MonthTotals(tours, month);
    if totals.None? {
      return;
    }
    var lastTours := LastTours(tours);
    if lastTours.None? {
      return None;
    }
    storage.lastTours := lastTours.value;
    SyncTours(storage, tours, fetch);
  }
}
