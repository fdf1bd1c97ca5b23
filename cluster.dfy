/**
 * The breadth-first search both scripts run to size one cluster: a FIFO
 * queue of tiles still to expand, a `visited` set shared by all searches,
 * and the four-offset neighbour scan.
 */
module Cluster {
  import opened Seqs
  import opened Tiles

  /** The tiles a queue holds. */
  ghost function Elems(q: seq<Tile>): set<Tile> {
    set x | x in q
  }

  lemma ElemsConcat(a: seq<Tile>, b: seq<Tile>)
    ensures Elems(a + b) == Elems(a) + Elems(b)
  {
  }

  lemma DistinctConcat(a: seq<Tile>, b: seq<Tile>)
    requires Distinct(a) && Distinct(b) && Elems(a) !! Elems(b)
    ensures Distinct(a + b)
  {
    forall i, j | 0 <= i < j < |a + b| ensures (a + b)[i] != (a + b)[j] {
      if j < |a| {
      } else if i >= |a| {
        assert (a + b)[i] == b[i - |a|] && (a + b)[j] == b[j - |a|];
      } else {
        assert (a + b)[i] in Elems(a) && (a + b)[j] == b[j - |a|] && b[j - |a|] in Elems(b);
      }
    }
  }

  /** Taking the head off a queue without repeats. */
  lemma ElemsPop(q: seq<Tile>)
    requires q != [] && Distinct(q)
    ensures Elems(q) == {q[0]} + Elems(q[1..])
    ensures q[0] !in Elems(q[1..]) && Distinct(q[1..])
  {
  }

  /** `list(tiles_set)`: the tiles in some order, each once. */
  method ListOf(tiles: set<Tile>) returns (xs: seq<Tile>)
    ensures Distinct(xs)
    ensures forall t :: t in xs <==> t in tiles
  {
    xs := [];
    var rest := tiles;
    while rest != {}
      invariant rest !! Elems(xs) && rest + Elems(xs) == tiles
      invariant Distinct(xs)
      decreases rest
    {
      var t :| t in rest;
      xs := xs + [t];
      rest := rest - {t};
    }
  }

  /**
   * What a scan around `curr` does: the neighbours of `curr` that are tiles
   * and were not visited become visited and are appended to the queue once
   * each; afterwards every neighbour of `curr` among the tiles is visited.
   */
  ghost predicate ScannedNeighbours(tiles: set<Tile>, visited0: set<Tile>, queue0: seq<Tile>, curr: Tile,
                                    visited: set<Tile>, queue: seq<Tile>)
  {
    && visited0 <= visited
    && |queue0| <= |queue| && queue[..|queue0|] == queue0
    && Distinct(queue[|queue0|..]) && Elems(queue[|queue0|..]) == visited - visited0
    && (forall y :: y in visited - visited0 ==> y in tiles && Adjacent(curr, y))
    && (forall y :: y in tiles && Adjacent(curr, y) ==> y in visited)
  }

  /**
   * The neighbour scan around `curr`: each of the four neighbours that is a
   * tile and not yet visited is marked visited and appended to the queue.
   */
  method VisitNeighbours(tiles: set<Tile>, visited0: set<Tile>, queue0: seq<Tile>, curr: Tile)
    returns (visited: set<Tile>, queue: seq<Tile>)
    ensures ScannedNeighbours(tiles, visited0, queue0, curr, visited, queue)
  {
    visited, queue := visited0, queue0;
    for k := 0 to |Offsets|
      invariant visited0 <= visited
      invariant |queue0| <= |queue| && queue[..|queue0|] == queue0
      invariant Distinct(queue[|queue0|..]) && Elems(queue[|queue0|..]) == visited - visited0
      invariant forall y :: y in visited - visited0 ==> y in tiles && Adjacent(curr, y)
      invariant forall j :: 0 <= j < k && Shift(curr, Offsets[j]) in tiles ==> Shift(curr, Offsets[j]) in visited
    {
      var neighbour := Shift(curr, Offsets[k]);
      if neighbour in tiles && neighbour !in visited {
        assert queue[|queue0|..] + [neighbour] == (queue + [neighbour])[|queue0|..];
        ElemsConcat(queue[|queue0|..], [neighbour]);
        DistinctConcat(queue[|queue0|..], [neighbour]);
        visited := visited + {neighbour};
        queue := queue + [neighbour];
      }
    }
    forall y | y in tiles && Adjacent(curr, y) ensures y in visited {
      OffsetsAreNeighbours(curr, y);
    }
  }

  /**
   * The state of a search from `start` that began with `visited0`:
   * `processed` holds the tiles already taken off the queue, and everything
   * found so far is reachable from `start`.
   */
  ghost predicate SearchState(tiles: set<Tile>, visited0: set<Tile>, start: Tile,
                              visited: set<Tile>, queue: seq<Tile>, processed: set<Tile>)
  {
    && visited <= tiles
    && Distinct(queue) && processed !! Elems(queue)
    && visited == visited0 + processed + Elems(queue)
    && visited0 !! (processed + Elems(queue))
    && start in processed + Elems(queue)
    && (forall x :: x in processed + Elems(queue) ==> Reach(tiles, start, x))
    && (forall x, y :: x in processed && y in tiles && Adjacent(x, y) ==> y in visited)
  }

  /** Taking the head off the queue and scanning its neighbours keeps the search state. */
  lemma SearchStep(tiles: set<Tile>, visited0: set<Tile>, start: Tile,
                   visited: set<Tile>, queue: seq<Tile>, processed: set<Tile>,
                   visited': set<Tile>, queue': seq<Tile>)
    requires SearchState(tiles, visited0, start, visited, queue, processed)
    requires queue != []
    requires ScannedNeighbours(tiles, visited, queue[1..], queue[0], visited', queue')
    ensures queue[0] in tiles && queue[0] !in processed
    ensures SearchState(tiles, visited0, start, visited', queue', processed + {queue[0]})
  {
    ElemsPop(queue);
    var curr, rest := queue[0], queue[1..];
    var added := queue'[|rest|..];
    assert queue' == rest + added;
    ElemsConcat(rest, added);
    DistinctConcat(rest, added);
    forall y | y in visited' - visited ensures Reach(tiles, start, y) {
      ReachExtend(tiles, start, curr, y);
    }
  }

  /** A finished search from `start` has visited exactly the cluster of `start`. */
  lemma SearchDone(tiles: set<Tile>, visited0: set<Tile>, start: Tile, visited: set<Tile>, processed: set<Tile>)
    requires Closed(tiles, visited0)
    requires SearchState(tiles, visited0, start, visited, [], processed)
    ensures processed == Component(tiles, start)
    ensures visited == visited0 + processed && visited0 !! processed
  {
    assert Elems([]) == {};
    // Nothing next to `processed` lies in `visited0`, which is closed and
    // disjoint from it, so `processed` is closed.
    assert Closed(tiles, processed);
    ClosedContainsComponent(tiles, processed, start);
  }

  /**
   * One search from `start`: `start` is marked and queued, then the queue is
   * drained front first. Given that `visited0` is closed and lacks `start`,
   * the search adds exactly the cluster of `start` to `visited` and counts it.
   */
  method Explore(tiles: set<Tile>, visited0: set<Tile>, start: Tile) returns (visited: set<Tile>, size: nat)
    requires visited0 <= tiles && Closed(tiles, visited0)
    requires start in tiles && start !in visited0
    ensures visited == visited0 + Component(tiles, start)
    ensures visited0 !! Component(tiles, start)
    ensures size == |Component(tiles, start)|
  {
    size := 0;
    var queue := [start];
    visited := visited0 + {start};
    ghost var processed: set<Tile> := {};
    ReachSelf(tiles, start);
    assert Elems(queue) == {start};
    while queue != []
      invariant SearchState(tiles, visited0, start, visited, queue, processed)
      invariant size == |processed|
      decreases tiles - processed
    {
      var curr := queue[0];
      ghost var visitedBefore, queueBefore := visited, queue;
      queue := queue[1..];
      size := size + 1;
      visited, queue := VisitNeighbours(tiles, visited, queue, curr);
      SearchStep(tiles, visited0, start, visitedBefore, queueBefore, processed, visited, queue);
      processed := processed + {curr};
    }
    SearchDone(tiles, visited0, start, visited, processed);
  }

  function Sum(xs: seq<nat>): nat {
    if xs == [] then 0 else Sum(xs[..|xs| - 1]) + xs[|xs| - 1]
  }

  /** The tiles of the clusters of `starts`. */
  ghost function Union(tiles: set<Tile>, starts: seq<Tile>): set<Tile> {
    if starts == [] then {}
    else Union(tiles, starts[..|starts| - 1]) + Component(tiles, starts[|starts| - 1])
  }

  /**
   * The searches so far: search `k` started from tile `starts[k]`, found a
   * cluster disjoint from those of the earlier searches, and counted `sizes[k]`.
   */
  ghost predicate Searched(tiles: set<Tile>, starts: seq<Tile>, sizes: seq<nat>) {
    && |starts| == |sizes|
    && forall k :: 0 <= k < |starts| ==>
         && starts[k] in tiles
         && sizes[k] == |Component(tiles, starts[k])|
         && Component(tiles, starts[k]) !! Union(tiles, starts[..k])
  }

  /** `visited` is exactly the union of the clusters of the searches recorded so far. */
  ghost predicate Partitioned(tiles: set<Tile>, visited: set<Tile>, sizes: seq<nat>, starts: seq<Tile>) {
    Searched(tiles, starts, sizes) && visited == Union(tiles, starts)
  }

  /**
   * Where the outer loop over the tiles stands: `visited` is a union of whole
   * clusters, `maxCluster` is the largest of them, and `sizes` lists the size
   * of each search so far, which add up to the visited tiles.
   */
  ghost predicate Progress(tiles: set<Tile>, visited: set<Tile>, maxCluster: nat, sizes: seq<nat>) {
    && visited <= tiles && Closed(tiles, visited)
    && (forall t :: t in visited ==> |Component(tiles, t)| <= maxCluster)
    && (visited == {} ==> maxCluster == 0)
    && (visited != {} ==> exists t :: t in visited && |Component(tiles, t)| == maxCluster)
    && Sum(sizes) == |visited|
    && (forall k :: 0 <= k < |sizes| ==> sizes[k] <= maxCluster)
    && (visited != {} ==> maxCluster in sizes)
  }

  /** A search from an unvisited tile adds its whole cluster, and the maximum follows it. */
  lemma ProgressStep(tiles: set<Tile>, visited: set<Tile>, maxCluster: nat, sizes: seq<nat>, tile: Tile,
                     visited': set<Tile>, maxCluster': nat, sizes': seq<nat>)
    requires Progress(tiles, visited, maxCluster, sizes)
    requires tile in tiles && visited !! Component(tiles, tile)
    requires visited' == visited + Component(tiles, tile)
    requires sizes' == sizes + [|Component(tiles, tile)|]
    requires maxCluster' == if maxCluster < |Component(tiles, tile)| then |Component(tiles, tile)| else maxCluster
    ensures Progress(tiles, visited', maxCluster', sizes')
  {
    var c := Component(tiles, tile);
    assert sizes'[..|sizes'| - 1] == sizes;
    ComponentClosed(tiles, tile);
    ComponentBounds(tiles, tile);
    forall t | t in c ensures |Component(tiles, t)| <= |c| {
      ComponentOfMember(tiles, tile, t);
    }
    assert sizes'[|sizes|] == |c|;
  }

  /** Recording a search whose cluster is new keeps `visited` the union of the recorded clusters. */
  lemma PartitionStep(tiles: set<Tile>, visited: set<Tile>, sizes: seq<nat>, starts: seq<Tile>, tile: Tile)
    requires Partitioned(tiles, visited, sizes, starts)
    requires tile in tiles && visited !! Component(tiles, tile)
    ensures Partitioned(tiles, visited + Component(tiles, tile), sizes + [|Component(tiles, tile)|], starts + [tile])
  {
    var starts', sizes' := starts + [tile], sizes + [|Component(tiles, tile)|];
    forall k | 0 <= k < |starts'|
      ensures && starts'[k] in tiles
              && sizes'[k] == |Component(tiles, starts'[k])|
              && Component(tiles, starts'[k]) !! Union(tiles, starts'[..k])
    {
      if k < |starts| {
        assert starts'[..k] == starts[..k] && starts'[k] == starts[k] && sizes'[k] == sizes[k];
      } else {
        assert starts'[..k] == starts;
      }
    }
    assert starts'[..|starts|] == starts;
  }

  /**
   * The block run for a tile not yet visited: a search from it, then
   * `max_cluster = max(max_cluster, cluster_size)`. Exactly the tile's
   * cluster is added to `visited`, and its size is recorded.
   */
  method SearchCluster(tiles: set<Tile>, visited0: set<Tile>, maxCluster0: nat, ghost sizes0: seq<nat>,
                       ghost starts0: seq<Tile>, tile: Tile)
    returns (visited: set<Tile>, maxCluster: nat, ghost sizes: seq<nat>, ghost starts: seq<Tile>)
    requires Progress(tiles, visited0, maxCluster0, sizes0) && Partitioned(tiles, visited0, sizes0, starts0)
    requires tile in tiles && tile !in visited0
    ensures Progress(tiles, visited, maxCluster, sizes) && Partitioned(tiles, visited, sizes, starts)
    ensures visited == visited0 + Component(tiles, tile) && tile in visited
    ensures maxCluster == if maxCluster0 < |Component(tiles, tile)| then |Component(tiles, tile)| else maxCluster0
    ensures sizes == sizes0 + [|Component(tiles, tile)|] && starts == starts0 + [tile]
  {
    var clusterSize;
    visited, clusterSize := Explore(tiles, visited0, tile);
    sizes := sizes0 + [clusterSize];
    starts := starts0 + [tile];
    maxCluster := if maxCluster0 < clusterSize then clusterSize else maxCluster0;
    assert Progress(tiles, visited, maxCluster, sizes) && Partitioned(tiles, visited, sizes, starts) by {
      ProgressStep(tiles, visited0, maxCluster0, sizes0, tile, visited, maxCluster, sizes);
      PartitionStep(tiles, visited0, sizes0, starts0, tile);
    }
    ComponentBounds(tiles, tile);
  }

  /** A tile is in the union exactly when it is in the cluster of one of the starts. */
  lemma {:induction false} UnionMember(tiles: set<Tile>, starts: seq<Tile>, t: Tile)
    ensures t in Union(tiles, starts) <==> exists k :: 0 <= k < |starts| && t in Component(tiles, starts[k])
    decreases |starts|
  {
    if starts != [] {
      var n := |starts| - 1;
      var init := starts[..n];
      UnionMember(tiles, init, t);
      if t in Union(tiles, init) {
        var k :| 0 <= k < n && t in Component(tiles, init[k]);
        assert starts[k] == init[k];
      }
      if exists k :: 0 <= k < |starts| && t in Component(tiles, starts[k]) {
        var k :| 0 <= k < |starts| && t in Component(tiles, starts[k]);
        if k < n {
          assert starts[k] == init[k];
        }
      }
    }
  }

  /**
   * The searches partition what they visited: every start is a tile, each
   * recorded size is its cluster's size, and the clusters of two searches
   * never overlap.
   */
  lemma SearchedPartition(tiles: set<Tile>, starts: seq<Tile>, sizes: seq<nat>)
    requires Searched(tiles, starts, sizes)
    ensures |starts| == |sizes|
    ensures forall k :: 0 <= k < |starts| ==> starts[k] in tiles && sizes[k] == |Component(tiles, starts[k])|
    ensures forall j, k :: 0 <= j < k < |starts| ==> Component(tiles, starts[j]) !! Component(tiles, starts[k])
  {
    forall j, k | 0 <= j < k < |starts| ensures Component(tiles, starts[j]) !! Component(tiles, starts[k]) {
      forall t | t in Component(tiles, starts[j]) ensures t in Union(tiles, starts[..k]) {
        UnionMember(tiles, starts[..k], t);
        assert starts[..k][j] == starts[j];
      }
    }
  }

  /** Listing one more item adds it to the listed set. */
  lemma ElemsSnoc(xs: seq<Tile>, i: nat)
    requires i < |xs|
    ensures Elems(xs[..i + 1]) == Elems(xs[..i]) + {xs[i]}
  {
  }

  /** Once every listed tile is visited, every tile is. */
  lemma ListedAllVisited(tiles: set<Tile>, xs: seq<Tile>, visited: set<Tile>)
    requires forall t :: t in xs <==> t in tiles
    requires Elems(xs) <= visited <= tiles
    ensures visited == tiles
  {
  }

  /** Before any search nothing is visited and nothing is recorded. */
  lemma SearchStart(tiles: set<Tile>)
    ensures Progress(tiles, {}, 0, []) && Partitioned(tiles, {}, [], [])
  {
  }

  /**
   * The loop of `calculate_max_cluster` over the tiles: every tile not yet
   * visited starts a search. At the end every tile is visited.
   */
  method SearchAll(tiles: set<Tile>) returns (maxCluster: nat, ghost sizes: seq<nat>, ghost starts: seq<Tile>)
    ensures Progress(tiles, tiles, maxCluster, sizes) && Partitioned(tiles, tiles, sizes, starts)
  {
    var visited: set<Tile> := {};
    maxCluster, sizes, starts := 0, [], [];
    SearchStart(tiles);
    var tilesList := ListOf(tiles);
    for i := 0 to |tilesList|
      invariant Progress(tiles, visited, maxCluster, sizes) && Partitioned(tiles, visited, sizes, starts)
      invariant Elems(tilesList[..i]) <= visited
    {
      var tile := tilesList[i];
      if tile !in visited {
        visited, maxCluster, sizes, starts := SearchCluster(tiles, visited, maxCluster, sizes, starts, tile);
      }
      ElemsSnoc(tilesList, i);
    }
    assert tilesList[..|tilesList|] == tilesList;
    ListedAllVisited(tiles, tilesList, visited);
  }

  /** Once every tile is visited, the maximum is the largest cluster size. */
  lemma ProgressDone(tiles: set<Tile>, maxCluster: nat, sizes: seq<nat>)
    requires Progress(tiles, tiles, maxCluster, sizes)
    ensures IsLargestClusterSize(tiles, maxCluster)
    ensures tiles != {} ==> 1 <= maxCluster <= |tiles| && maxCluster in sizes
    ensures Sum(sizes) == |tiles|
    ensures forall k :: 0 <= k < |sizes| ==> sizes[k] <= maxCluster
  {
    LargestClusterBounds(tiles, maxCluster);
  }

  /**
   * Once every tile is visited, the searched clusters partition the tiles:
   * they do not overlap and together they are all the tiles.
   */
  lemma PartitionDone(tiles: set<Tile>, sizes: seq<nat>, starts: seq<Tile>)
    requires Partitioned(tiles, tiles, sizes, starts)
    ensures |starts| == |sizes|
    ensures forall k :: 0 <= k < |starts| ==> starts[k] in tiles && sizes[k] == |Component(tiles, starts[k])|
    ensures forall j, k :: 0 <= j < k < |starts| ==> Component(tiles, starts[j]) !! Component(tiles, starts[k])
    ensures Union(tiles, starts) == tiles
  {
    SearchedPartition(tiles, starts, sizes);
  }
}
