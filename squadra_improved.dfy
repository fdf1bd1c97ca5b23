/**
 * komoot_squadra_improved.py: the later script, which splits the sync into
 * helpers (trace simplification, month statistics, last-tours formatting,
 * GPX extraction) and sizes the largest tile cluster for its dashboard.
 */
module SquadraImproved {
  import opened Seqs
  import opened Tiles
  import opened Cluster
  import opened Tours

  /**
   * `calculate_max_cluster`: the size of the largest 4-connected cluster of
   * `tiles`, found by one breadth-first search per unvisited tile. Search `k`
   * starts from `starts[k]` and counts `clusterSizes[k]` tiles; the searched
   * clusters do not overlap and their union is all the tiles.
   */
  method CalculateMaxCluster(tiles: set<Tile>) returns (maxCluster: nat, ghost clusterSizes: seq<nat>, ghost starts: seq<Tile>)
    ensures IsLargestClusterSize(tiles, maxCluster)
    ensures tiles == {} ==> maxCluster == 0
    ensures tiles != {} ==> 1 <= maxCluster <= |tiles| && maxCluster in clusterSizes
    ensures forall k :: 0 <= k < |clusterSizes| ==> clusterSizes[k] <= maxCluster
    ensures |starts| == |clusterSizes|
    ensures forall k :: 0 <= k < |starts| ==> starts[k] in tiles && clusterSizes[k] == |Component(tiles, starts[k])|
    ensures forall j, k :: 0 <= j < k < |starts| ==> Component(tiles, starts[j]) !! Component(tiles, starts[k])
    ensures Union(tiles, starts) == tiles
    ensures Sum(clusterSizes) == |tiles|
  {
    if tiles == {} {
      maxCluster, clusterSizes, starts := 0, [], [];
      return;
    }
    maxCluster, clusterSizes, starts := SearchAll(tiles);
    ProgressDone(tiles, maxCluster, clusterSizes);
    PartitionDone(tiles, clusterSizes, starts);
  }

  /**
   * `extract_traces_from_gpx`: every segment of every track, simplified by
   * `factor`, kept when it still has more than one point.
   */
  method ExtractTraces(gpx: Gpx, factor: int) returns (traces: seq<Segment>)
    ensures traces == KeptLines(gpx, factor)
    ensures forall line :: line in traces ==> |line| > 1
  {
    traces := [];
    for t := 0 to |gpx|
      invariant traces == KeptLines(gpx[..t], factor)
    {
      var track := gpx[t];
      ghost var done := traces;
      for s := 0 to |track|
        invariant traces == done + KeptSegments(track[..s], factor)
      {
        var simplified := SimplifyTrace(track[s], factor);
        if |simplified| > 1 {
          traces := traces + [simplified];
        }
        KeptSegmentsSnoc(track, s, factor);
      }
      assert track[..|track|] == track;
      KeptLinesSnoc(gpx, t, factor);
    }
    assert gpx[..|gpx|] == gpx;
    KeptLinesAreLong(gpx, factor);
  }

  /**
   * `calculate_month_stats`: the distance and the duration summed over the
   * tours whose date starts with `month`, a missing field counting as 0.
   */
  method CalculateMonthStats(tours: seq<Tour>, month: string) returns (monthDist: int, monthTimeSec: int)
    ensures monthDist == MonthDistance(tours, month)
    ensures monthTimeSec == MonthDuration(tours, month)
  {
    monthDist, monthTimeSec := 0, 0;
    for i := 0 to |tours|
      invariant monthDist == MonthDistance(tours[..i], month)
      invariant monthTimeSec == MonthDuration(tours[..i], month)
    {
      var tour := tours[i];
      if InMonth(tour, month) {
        monthDist := monthDist + ValueOr(tour.distance, 0);
        monthTimeSec := monthTimeSec + ValueOr(tour.duration, 0);
      }
      assert tours[..i + 1][..i] == tours[..i];
    }
    assert tours[..|tours|] == tours;
  }

  /**
   * `format_last_tours`: the first `limit` tours (Python slice), in order,
   * each with its date cut to ten characters and a missing distance as 0.
   */
  function FormatLastTours(tours: seq<Tour>, limit: int): (r: seq<LastTour>)
    ensures 0 <= limit ==> |r| == Min(limit, |tours|)
    ensures |r| <= |tours|
    ensures forall i :: 0 <= i < |r| ==>
      && r[i].name == tours[i].name
      && r[i].date == tours[i].date[..Min(10, |tours[i].date|)]
      && r[i].distance == ValueOr(tours[i].distance, 0)
  {
    var first := Take(tours, limit);
    seq(|first|, i requires 0 <= i < |first| =>
      LastTour(first[i].name, Take(first[i].date, 10), ValueOr(first[i].distance, 0)))
  }

  /**
   * The hours and minutes shown for `month_time_sec` seconds: whole hours,
   * then whole minutes of the remainder (floor division, as Python's `//`).
   */
  function HoursMinutes(secs: int): (hm: (int, int))
    ensures 0 <= hm.1 < 60
    ensures 3600 * hm.0 + 60 * hm.1 <= secs < 3600 * hm.0 + 60 * hm.1 + 60
  {
    (secs / 3600, (secs % 3600) / 60)
  }

  /**
   * The sync loop of `run_sync`: a tour not yet stored whose GPX is obtained
   * has its lines appended to `traces`, its id to `tour_ids`, and the count
   * incremented. Returns how many tours were added.
   */
  method SyncTours(storage: Storage, tours: seq<Tour>, fetch: nat -> Option<Gpx>, factor: int)
    returns (newToursCount: nat)
    modifies storage
    ensures storage.Sync() == SyncAll(old(storage.Sync()), tours, fetch, factor)
    ensures storage.lastTours == old(storage.lastTours)
    ensures newToursCount == |storage.tourIds| - |old(storage.tourIds)| == storage.count - old(storage.count)
  {
    newToursCount := 0;
    ghost var start := storage.Sync();
    for i := 0 to |tours|
      invariant storage.Sync() == SyncAll(start, tours[..i], fetch, factor)
      invariant storage.lastTours == old(storage.lastTours)
      invariant newToursCount == |storage.tourIds| - |start.tourIds|
    {
      var tourId := tours[i].id;
      if tourId !in storage.tourIds {
        var gpx := fetch(i);
        if gpx.Some? {
          var traces := ExtractTraces(gpx.value, factor);
          storage.traces := storage.traces + traces;
          storage.tourIds := storage.tourIds + [tourId];
          storage.count := storage.count + 1;
          newToursCount := newToursCount + 1;
        }
      }
      assert tours[..i + 1][..i] == tours[..i];
    }
    assert tours[..|tours|] == tours;
    SyncAppendsCounted(start, tours, fetch, factor);
  }

  /**
   * The data part of `run_sync` once the session is open: nothing happens
   * when no tour came back; otherwise the month totals are computed, the
   * five latest tours replace `last_tours`, and the tours are synced.
   */
  method RunSync(storage: Storage, tours: seq<Tour>, month: string, fetch: nat -> Option<Gpx>, factor: int)
    returns (totals: Option<(int, int)>)
    modifies storage
    ensures tours == [] ==> totals == None && storage.Sync() == old(storage.Sync())
                            && storage.lastTours == old(storage.lastTours)
    ensures tours != [] ==> totals == Some((MonthDistance(tours, month), MonthDuration(tours, month)))
    ensures tours != [] ==> storage.lastTours == FormatLastTours(tours, 5)
    ensures tours != [] ==> storage.Sync() == SyncAll(old(storage.Sync()), tours, fetch, factor)
  {
    if tours == [] {
      return None;
    }
    var monthDist, monthTimeSec := CalculateMonthStats(tours, month);
    storage.lastTours := FormatLastTours(tours, 5);
    var newToursCount := SyncTours(storage, tours, fetch, factor);
    totals := Some((monthDist, monthTimeSec));
  }

  // ---------------------------------------------------------------------
  // Cleaning the session cookie (`get_session_with_retry`).

  const SessionMarker: string := "komoot_session="

  /** The characters for which Python's `str.isspace` holds. */
  const WhiteSpace: set<char> := {
    '\U{0009}', '\U{000A}', '\U{000B}', '\U{000C}', '\U{000D}',
    '\U{001C}', '\U{001D}', '\U{001E}', '\U{001F}', '\U{0020}',
    '\U{0085}', '\U{00A0}', '\U{1680}',
    '\U{2000}', '\U{2001}', '\U{2002}', '\U{2003}', '\U{2004}', '\U{2005}',
    '\U{2006}', '\U{2007}', '\U{2008}', '\U{2009}', '\U{200A}',
    '\U{2028}', '\U{2029}', '\U{202F}', '\U{205F}', '\U{3000}'
  }

  /** `s.lstrip()` for the white-space characters `ws`. */
  function StripLeft(s: string, ws: set<char>): string {
    if s != [] && s[0] in ws then StripLeft(s[1..], ws) else s
  }

  /** `s.rstrip()` for the white-space characters `ws`. */
  function StripRight(s: string, ws: set<char>): string {
    if s != [] && s[|s| - 1] in ws then StripRight(s[..|s| - 1], ws) else s
  }

  /** `s.strip()`: Python's is `Strip(s, WhiteSpace)`. */
  function Strip(s: string, ws: set<char>): string {
    StripRight(StripLeft(s, ws), ws)
  }

  predicate OccursAt(s: string, m: string, p: nat) {
    p + |m| <= |s| && s[p..p + |m|] == m
  }

  /** The first position where `m` occurs in `s`, as Python's `str.find`. */
  function Find(s: string, m: string): (r: Option<nat>)
    ensures r.Some? ==> OccursAt(s, m, r.value) && forall p :: 0 <= p < r.value ==> !OccursAt(s, m, p)
    ensures r.None? ==> forall p :: 0 <= p <= |s| ==> !OccursAt(s, m, p)
  {
    if |s| < |m| then None
    else if m <= s then Some(0)
    else
      match Find(s[1..], m)
      case None =>
        assert forall p :: 1 <= p <= |s| && OccursAt(s, m, p) ==> OccursAt(s[1..], m, p - 1);
        None
      case Some(q) =>
        assert OccursAt(s[1..], m, q) ==> OccursAt(s, m, q + 1);
        assert forall p :: 1 <= p < q + 1 && OccursAt(s, m, p) ==> OccursAt(s[1..], m, p - 1);
        Some(q + 1)
  }

  /** `s.split(m)[0]`: the text before the first `m`, or all of `s`. */
  function BeforeFirst(s: string, m: string): string {
    match Find(s, m)
    case Some(j) => s[..j]
    case None => s
  }

  /** The text before the first `c` holds no `c`. */
  lemma BeforeFirstChar(s: string, c: char)
    ensures c !in BeforeFirst(s, [c])
  {
    var r := BeforeFirst(s, [c]);
    forall p | 0 <= p < |r| ensures r[p] != c {
      assert s[p..p + 1] == [s[p]];
      assert !OccursAt(s, [c], p);
    }
  }

  /**
   * The cookie value the session uses: the setting stripped of white space;
   * when it holds `komoot_session=`, the text after the first such marker up
   * to the next marker or `;`. An empty value means no session (None).
   */
  function CleanCookie(setting: Option<string>): (r: Option<string>)
    ensures r.Some? ==> r.value != []
    ensures r.Some? && setting.Some? && Find(Strip(setting.value, WhiteSpace), SessionMarker).Some? ==> ';' !in r.value
  {
    var stripped := if setting.Some? then Strip(setting.value, WhiteSpace) else "";
    var found := Find(stripped, SessionMarker);
    var value :=
      if found.Some? then
        var after := BeforeFirst(stripped[found.value + |SessionMarker|..], SessionMarker);
        BeforeFirstChar(after, ';');
        BeforeFirst(after, ";")
      else stripped;
    if value == [] then None else Some(value)
  }

  /** Where `lstrip` cuts: the leading run `s[..i]` is white space and `s[i]` is not. */
  lemma {:induction false} StripLeftCut(s: string, ws: set<char>) returns (i: nat)
    ensures i <= |s| && StripLeft(s, ws) == s[i..]
    ensures forall k :: 0 <= k < i ==> s[k] in ws
    ensures i < |s| ==> s[i] !in ws
    decreases |s|
  {
    if s != [] && s[0] in ws {
      var i' := StripLeftCut(s[1..], ws);
      i := i' + 1;
      assert s[1..][i'..] == s[i..];
      forall k | 1 <= k < i ensures s[k] in ws {
        assert s[k] == s[1..][k - 1];
      }
      if i < |s| {
        assert s[i] == s[1..][i'];
      }
    } else {
      i := 0;
    }
  }

  /** Where `rstrip` cuts: the trailing run `s[j..]` is white space and `s[j - 1]` is not. */
  lemma {:induction false} StripRightCut(s: string, ws: set<char>) returns (j: nat)
    ensures j <= |s| && StripRight(s, ws) == s[..j]
    ensures forall k :: j <= k < |s| ==> s[k] in ws
    ensures 0 < j ==> s[j - 1] !in ws
    decreases |s|
  {
    if s != [] && s[|s| - 1] in ws {
      var init := s[..|s| - 1];
      j := StripRightCut(init, ws);
      assert init[..j] == s[..j];
      forall k | j <= k < |s| - 1 ensures s[k] in ws {
        assert s[k] == init[k];
      }
      if 0 < j {
        assert s[j - 1] == init[j - 1];
      }
    } else {
      j := |s|;
    }
  }

  /** The stripped text is a slice of the input with only white space cut off, and starts and ends with none. */
  lemma StripSpec(s: string, ws: set<char>)
    ensures exists i, j ::
              && 0 <= i <= j <= |s| && Strip(s, ws) == s[i..j]
              && (forall k :: 0 <= k < i ==> s[k] in ws)
              && (forall k :: j <= k < |s| ==> s[k] in ws)
    ensures Strip(s, ws) != [] ==> Strip(s, ws)[0] !in ws && Strip(s, ws)[|Strip(s, ws)| - 1] !in ws
  {
    var i := StripLeftCut(s, ws);
    var left := s[i..];
    var n := StripRightCut(left, ws);
    var r := Strip(s, ws);
    assert r == left[..n] == s[i..i + n];
    forall k | i + n <= k < |s| ensures s[k] in ws {
      assert s[k] == left[k - i];
    }
    if r != [] {
      assert r[0] == s[i];
      assert r[|r| - 1] == left[n - 1];
    }
  }

  /** A text that does not end in white space keeps its end when more text follows. */
  lemma {:induction false} StripRightAfter(a: string, b: string, ws: set<char>)
    requires a != [] && a[|a| - 1] !in ws
    ensures StripRight(a + b, ws) == a + StripRight(b, ws)
    decreases |b|
  {
    if b == [] {
      assert a + b == a;
    } else if b[|b| - 1] in ws {
      assert (a + b)[..|a + b| - 1] == a + b[..|b| - 1];
      StripRightAfter(a, b[..|b| - 1], ws);
    }
  }

  /** `Find` gives the first occurrence. */
  lemma FindFirst(s: string, m: string, p: nat)
    requires OccursAt(s, m, p) && forall q :: 0 <= q < p ==> !OccursAt(s, m, q)
    ensures Find(s, m) == Some(p)
  {
  }

  /** A bare cookie value is used as it is. */
  lemma CleanCookieBareValue(v: string)
    requires v != [] && v[0] !in WhiteSpace && v[|v| - 1] !in WhiteSpace
    requires forall p :: 0 <= p <= |v| ==> !OccursAt(v, SessionMarker, p)
    ensures CleanCookie(Some(v)) == Some(v)
  {
  }

  /** Stripping a header that starts with the marker only trims the end of what follows the `;`. */
  lemma StripHeader(v: string, rest: string)
    ensures Strip(SessionMarker + v + ";" + rest, WhiteSpace) == SessionMarker + v + ";" + StripRight(rest, WhiteSpace)
  {
    var head := SessionMarker + v + ";";
    assert SessionMarker + v + ";" + rest == head + rest;
    assert head[0] == 'k' && head[|head| - 1] == ';';
    assert StripLeft(head + rest, WhiteSpace) == head + rest;
    StripRightAfter(head, rest, WhiteSpace);
  }

  /** No marker starts within `v` or at its `;`: it would lie inside `v` or hold the `;`. */
  lemma NoMarkerBeforeSemicolon(v: string, tail: string)
    requires forall p :: 0 <= p <= |v| ==> !OccursAt(v, SessionMarker, p)
    ensures forall p :: 0 <= p <= |v| ==> !OccursAt(v + ";" + tail, SessionMarker, p)
  {
    var after := v + ";" + tail;
    forall p | 0 <= p <= |v| ensures !OccursAt(after, SessionMarker, p) {
      if p + |SessionMarker| <= |v| {
        assert after[p..p + |SessionMarker|] == v[p..p + |SessionMarker|];
        assert !OccursAt(v, SessionMarker, p);
      } else if p + |SessionMarker| <= |after| {
        var window := after[p..p + |SessionMarker|];
        assert window[|v| - p] == after[|v|] == ';';
        assert SessionMarker[|v| - p] != ';';
        assert window != SessionMarker;
      }
    }
  }

  /** Cutting `v;tail` at the first marker, then at the first `;`, leaves `v`. */
  lemma CutAtSemicolon(v: string, tail: string)
    requires ';' !in v
    requires forall p :: 0 <= p <= |v| ==> !OccursAt(v, SessionMarker, p)
    ensures BeforeFirst(BeforeFirst(v + ";" + tail, SessionMarker), ";") == v
  {
    var after := v + ";" + tail;
    NoMarkerBeforeSemicolon(v, tail);
    var found := Find(after, SessionMarker);
    if found.Some? {
      assert found.value > |v|;
    }
    var cut := BeforeFirst(after, SessionMarker);
    assert |v| < |cut| && cut[..|v| + 1] == after[..|v| + 1] == v + ";";
    assert cut[|v|..|v| + 1] == ";";
    forall q | 0 <= q < |v| ensures !OccursAt(cut, ";", q) {
      assert cut[q..q + 1] == [v[q]];
    }
    FindFirst(cut, ";", |v|);
    assert cut[..|v|] == v;
  }

  /**
   * A pasted `Cookie:` header is reduced to the session value: the value
   * after `komoot_session=`, up to the `;` that ends it.
   */
  lemma CleanCookieFromHeader(v: string, rest: string)
    requires v != [] && ';' !in v
    requires forall p :: 0 <= p <= |v| ==> !OccursAt(v, SessionMarker, p)
    ensures CleanCookie(Some(SessionMarker + v + ";" + rest)) == Some(v)
  {
    StripHeader(v, rest);
    var tail := StripRight(rest, WhiteSpace);
    var t := SessionMarker + v + ";" + tail;
    FindFirst(t, SessionMarker, 0);
    assert t[|SessionMarker|..] == v + ";" + tail;
    CutAtSemicolon(v, tail);
  }
}
