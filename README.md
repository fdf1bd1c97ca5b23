# Squadra map: a verified model of the Komoot sync and tile-cluster logic

The repository has two scripts with the same job. `update_map.py` is the earlier one: its `run_sync` does the month totals, the last-tours list and the GPX sync inline, while the tile projection, the cluster search and the data loading are separate functions. `komoot_squadra_improved.py` is the later one, split into helpers. Each run does the following:

- It reads the user's recorded tours from Komoot.
- It adds the current month's distances and durations.
- It keeps the five latest tours for the sidebar.
- It downloads the GPX file of every tour not yet stored. It cuts each GPS segment to one point in N and stores the lines of more than one point, together with the tour id and a tour count.
- It draws the visited map tiles and reports the size of the largest cluster of tiles that share edges.

This project models the data logic of both scripts in Dafny:

- `Tiles`: tiles, edge adjacency, and clusters, defined as the tiles reachable by chains of neighbours. It also defines what "largest cluster size" means.
- `Cluster`: the breadth-first search both scripts use. It is proved to add exactly one cluster per search. The outer loop is proved to end with the largest cluster size, and its searches are proved to split the tiles into disjoint clusters.
- `Tours`: tour records, GPS segments and the GPX structure. It holds `simplify_trace` and Python's `[::k]` slice, the kept-line filter, and the month totals. It also holds the sync loop as a specification function over a `SyncState` (`traces`, `tour_ids`, `stats.count`), with lemmas about that loop. The `Storage` class holds the stored data that the sync methods update in place.
- `SquadraImproved`: the later script's functions, which are `calculate_max_cluster`, `extract_traces_from_gpx`, `calculate_month_stats`, `format_last_tours`, the hours/minutes split, the sync loop with the data part of `run_sync`, and the cleaning of the session cookie.
- `UpdateMap`: the earlier script's `calculate_max_cluster` and its inlined `run_sync`. That `run_sync` differs from the later script in four ways:
  - a missing `distance`/`duration` key stops the script;
  - the slicing step is fixed at 3;
  - a failed tour request keeps the totals at 0;
  - a successful request that lists no tours still replaces `last_tours`, with the empty list (update_map.py:74-80), where the later script returns with nothing changed (komoot_squadra_improved.py:481-483).
- `Seqs`: the predicate `Distinct` (no item occurs twice), used by `Cluster` for the search queue and by `Tours` for the stored ids, and the lemma that concatenation is associative, used by the sync loops of `UpdateMap`.

Points are integer pairs in units of 1e-5 degree, the precision the scripts round to. Distances are integer metres and durations integer seconds. The current month is a parameter (the text `YYYY-MM`). The GPX download for the i-th tour of the list is `fetch(i)`, where `None` stands for a failed request. The strip functions take the set of white-space characters as a parameter. Python's `str.strip()` is `Strip(s, WhiteSpace)`, where `WhiteSpace` lists the characters for which `str.isspace` holds.

## Model

| member | source | states |
|---|---|---|
| Tiles.OffsetsAreNeighbours | komoot_squadra_improved.py:80-81 | the four offsets reach exactly the tiles that share an edge with the current one, both directions |
| Tiles.ComponentClosed | komoot_squadra_improved.py:80-84 | a cluster has no neighbouring tile outside it, so a search that follows every neighbour cannot stop early |
| Tiles.ClosedContainsComponent | komoot_squadra_improved.py:80-84 | a set of tiles that is closed under neighbours and holds a tile holds the tile's whole cluster |
| Tiles.ComponentBounds | komoot_squadra_improved.py:71-77 | a tile belongs to its own cluster, whose size is between 1 and the number of tiles |
| Tiles.ComponentOfMember | komoot_squadra_improved.py:69-70 | the cluster of a tile inside another tile's cluster is contained in it, so skipping visited tiles loses no cluster |
| Tiles.LargestClusterBounds | komoot_squadra_improved.py:62-63 | the largest cluster size is 0 for no tiles and between 1 and the tile count otherwise |
| Tiles.LargestClusterUnique | komoot_squadra_improved.py:67-69 | the largest cluster size is one number, whatever order `list(tiles_set)` gives |
| Tiles.EmptyLargestCluster | komoot_squadra_improved.py:62-63 | no tiles give 0 |
| Tiles.SingletonLargestCluster | komoot_squadra_improved.py:60-88 | one tile gives 1 |
| Tiles.LineLargestCluster | komoot_squadra_improved.py:60-88 | four tiles in a row form one cluster of 4 |
| Tiles.SquareLargestCluster | komoot_squadra_improved.py:60-88 | a 2x2 square beside an isolated tile gives 4, not 5: only edge neighbours join clusters |
| Tiles.SubsetSize | komoot_squadra_improved.py:86 | a subset is no larger than its superset, the fact that bounds every cluster by the tile count |
| Cluster.ListOf | komoot_squadra_improved.py:67 | `list(tiles_set)` lists every tile exactly once |
| Cluster.VisitNeighbours | komoot_squadra_improved.py:80-84 | the unvisited neighbouring tiles become visited and are queued once each; afterwards every neighbouring tile is visited |
| Cluster.Explore | komoot_squadra_improved.py:71-84 | starting from an unvisited tile outside a closed visited set, the search adds exactly that tile's cluster to `visited` and counts its size |
| Cluster.SearchCluster | komoot_squadra_improved.py:70-86 | one unvisited tile: exactly its cluster is added to `visited`, the maximum becomes the larger of the old maximum and that cluster's size, and the size and start are recorded; the visited set stays a union of whole clusters and the maximum the largest of them |
| Cluster.ProgressStep | komoot_squadra_improved.py:84-86 | adding a whole cluster and taking the maximum keeps the outer loop's state |
| Cluster.PartitionStep | komoot_squadra_improved.py:70-86 | recording a search whose cluster is new keeps `visited` the union of the recorded clusters |
| Cluster.UnionMember | komoot_squadra_improved.py:69-86 | a tile lies in the union of the searched clusters exactly when it lies in the cluster of one of the searches |
| Cluster.SearchedPartition | komoot_squadra_improved.py:69-86 | every search starts at a tile, records its cluster's size, and no two searched clusters overlap |
| Cluster.ListedAllVisited | komoot_squadra_improved.py:69-70 | once the loop has passed every listed tile, every tile is visited |
| Cluster.SearchAll | komoot_squadra_improved.py:67-86 | the loop over `list(tiles_set)` ends with every tile visited, the maximum the largest visited cluster, and the visited tiles the union of the searched clusters |
| Cluster.ProgressDone | komoot_squadra_improved.py:88 | when every tile is visited, the maximum is the largest cluster size, is one of the searched sizes, and the sizes add up to the tile count |
| Cluster.PartitionDone | komoot_squadra_improved.py:88 | when every tile is visited, the searched clusters do not overlap and their union is all the tiles |
| SquadraImproved.CalculateMaxCluster | komoot_squadra_improved.py:60-88 | the result is the size of a largest 4-connected cluster of the tiles: 0 for no tiles, otherwise between 1 and the tile count. Search `k` starts at a tile and counts its cluster's size; the searched clusters do not overlap, their union is all the tiles, and the result is the largest count |
| UpdateMap.CalculateMaxCluster | update_map.py:34-51 | the same largest-cluster result for the earlier script's copy of the search |
| UpdateMap.ClustersAgree | update_map.py:34-51 | both scripts' cluster searches return the same number on every tile set |
| Tours.Take | komoot_squadra_improved.py:264 | Python's `[:n]`: a prefix of length `min(n, len)` for `n >= 0`, all but the last `-n` items otherwise |
| Tours.Stride | komoot_squadra_improved.py:225 | definition of `s[::k]` for `k >= 1`: the first item, then the stride of what follows the first `k` items |
| Tours.StrideCovers | komoot_squadra_improved.py:225 | `s[::k]` has the fewest items whose k-spaced positions cover `s` |
| Tours.StrideLength | komoot_squadra_improved.py:225 | `s[::k]` has `ceil(len(s) / k)` items |
| Tours.StrideAt | komoot_squadra_improved.py:225 | item `i` of `s[::k]` is item `i*k` of `s` |
| Tours.SimplifyTrace | komoot_squadra_improved.py:221-225 | definition: the points unchanged for a factor of at most 1, otherwise `points[::factor]` |
| Tours.SimplifyTraceSpec | komoot_squadra_improved.py:221-225 | a factor of at most 1 returns the points unchanged; otherwise the result has `ceil(n / factor)` points and point `i` is input point `i*factor` |
| Tours.KeptSegments | komoot_squadra_improved.py:233-239 | definition: the simplified segments of one track, in order, that keep more than one point |
| Tours.KeptLines | komoot_squadra_improved.py:232-239 | definition: the kept segments of every track of a GPX file, track by track |
| Tours.KeptSegmentsAreLines | komoot_squadra_improved.py:233-239 | a line is kept from a track exactly when it is the simplification of one of its segments and has more than one point |
| Tours.KeptLinesAreLines | komoot_squadra_improved.py:228-241 | the same over all tracks of a GPX file, both directions |
| Tours.KeptLinesAreLong | komoot_squadra_improved.py:238-239 | no kept line has fewer than two points |
| Tours.KeptSegmentsSnoc | komoot_squadra_improved.py:233-239 | one more segment appends its simplified line exactly when that line has more than one point |
| Tours.KeptLinesSnoc | komoot_squadra_improved.py:232-239 | one more track appends the lines kept from its segments |
| Tours.InMonth | komoot_squadra_improved.py:251 | definition of `tour['date'].startswith(month)`: the month text is a prefix of the date |
| Tours.MonthDistance | komoot_squadra_improved.py:250-252 | definition: the sum of the distances of the tours of the month, a missing one as 0 |
| Tours.MonthDuration | komoot_squadra_improved.py:250-253 | definition: the sum of the durations of the tours of the month, a missing one as 0 |
| Tours.MonthTotalsAppend | komoot_squadra_improved.py:250-253 | the month totals add over concatenated tour lists |
| Tours.MonthTotalsOtherMonths | komoot_squadra_improved.py:251 | tours of other months add nothing |
| Tours.MonthTotalsSingle | komoot_squadra_improved.py:251-253 | a tour of the month adds its distance and duration, 0 when absent |
| Tours.SyncStep | komoot_squadra_improved.py:498-509 | definition of one pass of the sync loop: a tour whose id is not stored and whose GPX was obtained has its kept lines appended to `traces`, its id appended and the count raised by one; otherwise nothing changes |
| Tours.SyncAll | komoot_squadra_improved.py:497-509 | definition of the sync loop: `SyncStep` over the tours in list order, tour `i` with the GPX answer `fetch(i)` |
| Tours.SyncAppendsCounted | komoot_squadra_improved.py:507-509 | the sync loop only appends ids, and `stats.count` grows by exactly the number of ids appended |
| Tours.SyncNoDuplicates | komoot_squadra_improved.py:500 | if the stored ids had no repeats, they still have none after the sync loop |
| Tours.SyncAppendsOnlyNew | komoot_squadra_improved.py:497-507 | every appended id belongs to a listed tour that was not stored before and whose GPX was obtained |
| Tours.SyncStoresFetched | komoot_squadra_improved.py:497-507 | every listed tour whose GPX was obtained is stored afterwards |
| Tours.Storage.constructor | komoot_squadra_improved.py:105-113 | the initial structure: no traces, no ids, no last tours, count 0 |
| SquadraImproved.ExtractTraces | komoot_squadra_improved.py:228-241 | the extracted lines are the kept lines of the file, and each has more than one point |
| SquadraImproved.CalculateMonthStats | komoot_squadra_improved.py:244-255 | the totals are the distance and duration sums of the tours of the month, missing values as 0 |
| SquadraImproved.FormatLastTours | komoot_squadra_improved.py:258-264 | `min(limit, len)` entries, in order, each with the tour's name, its date cut to ten characters, and its distance (0 when absent) |
| SquadraImproved.HoursMinutes | komoot_squadra_improved.py:337-338 | minutes are below 60 and hours and minutes give the duration to within the last minute |
| SquadraImproved.SyncTours | komoot_squadra_improved.py:496-509 | the stored traces, ids and count become the sync loop's result on the old state, `last_tours` is untouched, and the returned count is the number of ids (and count increments) added |
| SquadraImproved.RunSync | komoot_squadra_improved.py:479-509 | with no tours nothing changes; otherwise the month totals are returned, `last_tours` becomes the first five formatted tours, and the tours are synced |
| SquadraImproved.Find | komoot_squadra_improved.py:132-133 | the first position where the marker occurs, or none when it occurs nowhere |
| SquadraImproved.BeforeFirst | komoot_squadra_improved.py:133 | definition of `s.split(m)[0]`: the text before the first occurrence of `m`, or all of `s` when `m` does not occur |
| SquadraImproved.BeforeFirstChar | komoot_squadra_improved.py:133 | `split(";")[0]` holds no `;` |
| SquadraImproved.CleanCookie | komoot_squadra_improved.py:131-137 | a session value is never empty, and when the setting holds `komoot_session=` the value holds no `;` |
| SquadraImproved.StripLeft | komoot_squadra_improved.py:131 | definition of `lstrip`: leading characters of `ws` are dropped one at a time |
| SquadraImproved.StripRight | komoot_squadra_improved.py:131 | definition of `rstrip`: trailing characters of `ws` are dropped one at a time |
| SquadraImproved.Strip | komoot_squadra_improved.py:131 | definition of `strip`: `lstrip` then `rstrip` |
| SquadraImproved.StripLeftCut | komoot_squadra_improved.py:131 | stripping on the left cuts exactly the leading run of white space: everything before the cut is white space and the first kept character is not |
| SquadraImproved.StripRightCut | komoot_squadra_improved.py:131 | stripping on the right cuts exactly the trailing run of white space: everything after the cut is white space and the last kept character is not |
| SquadraImproved.StripSpec | komoot_squadra_improved.py:131 | `strip()` returns a slice of the input with only white space cut from each end, and none left at either end |
| SquadraImproved.StripRightAfter | komoot_squadra_improved.py:131 | text that does not end in white space keeps all of itself when more text follows it and the whole is stripped |
| SquadraImproved.FindFirst | komoot_squadra_improved.py:132-133 | when the marker first occurs at `p`, that is the position found |
| SquadraImproved.CleanCookieBareValue | komoot_squadra_improved.py:131-133 | a bare value without surrounding white space or marker is used as it is |
| SquadraImproved.StripHeader | komoot_squadra_improved.py:131 | stripping a text that starts with the marker only trims white space at the end of what follows the `;` |
| SquadraImproved.NoMarkerBeforeSemicolon | komoot_squadra_improved.py:133 | no marker starts inside a marker-free value or at the `;` that ends it |
| SquadraImproved.CutAtSemicolon | komoot_squadra_improved.py:133 | splitting `<v>;<tail>` at the marker and then at `;` leaves exactly `<v>` when `<v>` holds neither |
| SquadraImproved.CleanCookieFromHeader | komoot_squadra_improved.py:132-133 | a pasted `komoot_session=<v>;<rest>` header gives exactly `<v>` |
| UpdateMap.MonthTotals | update_map.py:75-78 | the run stops (None) exactly when a tour of the month lacks its distance or duration; otherwise the sums of the tours of the month |
| UpdateMap.LastTours | update_map.py:80 | the run stops (None) exactly when one of the first five tours lacks a distance; otherwise the first five tours in order with dates cut to ten characters, the same list the later script's `format_last_tours` gives |
| UpdateMap.AppendTrackLines | update_map.py:94-98 | the lines kept from one track's segments, cut to one point in three, are appended to `traces` and nothing else changes |
| UpdateMap.AppendLines | update_map.py:93-98 | the kept lines of a whole GPX file are appended to `traces` and nothing else changes |
| UpdateMap.SyncTours | update_map.py:82-98 | the stored traces, ids and count become the sync loop's result on the old state with step 3, and `last_tours` is untouched |
| UpdateMap.StoredLinesAreThirds | update_map.py:96-98 | every stored line has at least two points, starts at its segment's first point, has `ceil(n / 3)` points, and has point `i` equal to segment point `3*i` |
| UpdateMap.RunSync | update_map.py:73-98 | a failed tour request leaves everything as it was with totals 0; a missing key stops the run before anything is stored; otherwise `last_tours` is replaced, the tours are synced, and the month totals are returned |

## Left out

- Tile projection (`get_tile_coords`, `get_tile_rect`): floating-point trigonometry. Tiles are given as integer pairs.
- Rounding: `round(lat, 5)`, `round(lon, 5)` and `round(distance / 1000, 1)` are floating-point. Points are already in 1e-5 degree units, and `last_tours` keeps the distance in metres.
- HTTP (`requests` sessions, headers, retries, `time.sleep`, status codes), `fetch_tours_page` and `fetch_tour_gpx`: a tour list is given as a sequence, and each GPX answer as `fetch(i)`.
- `fetch(i)` is indexed by the tour's position in the list, not by its id. Two requests for the same id may therefore get different answers, as two real requests can.
- GPX parsing (`gpxpy.parse`) and its exceptions: a GPX file is already a sequence of tracks of segments of points.
- A GPX text that fails to parse: in the earlier script the exception at update_map.py:88 is not caught, so the run ends there and nothing is saved. The model's `fetch(i)` is either a parsed file or None, so this crash is not modelled. The later script turns the same failure into a skipped tour (komoot_squadra_improved.py:213-218), which `fetch(i) = None` models.
- JSON loading and saving (`load_existing_data`, `save_data`) and the log messages. A corrupt file falls back to the initial structure, which `Tours.Storage.constructor` models.
- `stats.dist`: both scripts store it and never update it.
- The map and sidebar HTML (`folium`, `create_map_with_tiles_and_traces`, `create_sidebar_html`, the JavaScript in the page). Only the hours/minutes split of the sidebar is modelled. The same expression appears at update_map.py:126, and `SquadraImproved.HoursMinutes` stands for both.
- `datetime.now()`: the current month is a parameter.
- `str(tour['id'])`: the id is already a string. Keys other than `distance` and `duration` (`id`, `name`, `date`) are assumed present.
- The check that `USER_ID` and `SESSION_COOKIE` are set, and the early return when no session can be made: configuration and I/O. For the cookie, `SquadraImproved.CleanCookie` returns None when the value is empty.
- The outer `try`/`except` of `run_sync` and the `if new_tours_count > 0` log line.
