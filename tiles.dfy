/**
 * Visited map tiles and their 4-connected clusters.
 *
 * A tile is an integer pair (x, y) of the slippy-map grid. Two tiles are
 * neighbours when they share an edge. A cluster is a maximal set of visited
 * tiles that are joined by chains of neighbours; the dashboard of both
 * scripts shows the size of the largest one.
 */
module Tiles {

  type Tile = (int, int)

  /** The four offsets the breadth-first search tries, in the scripts' order. */
  const Offsets: seq<(int, int)> := [(0, 1), (0, -1), (1, 0), (-1, 0)]

  function Shift(t: Tile, d: (int, int)): Tile {
    (t.0 + d.0, t.1 + d.1)
  }

  /** Edge-sharing neighbours (not corner-touching ones). */
  predicate Adjacent(a: Tile, b: Tile) {
    || (a.0 == b.0 && (b.1 == a.1 + 1 || b.1 == a.1 - 1))
    || (a.1 == b.1 && (b.0 == a.0 + 1 || b.0 == a.0 - 1))
  }

  /** A non-empty chain of tiles of `tiles`, each a neighbour of the next. */
  ghost predicate IsPath(tiles: set<Tile>, p: seq<Tile>) {
    && |p| > 0
    && (forall i :: 0 <= i < |p| ==> p[i] in tiles)
    && (forall i :: 0 <= i < |p| - 1 ==> Adjacent(p[i], p[i + 1]))
  }

  ghost predicate Reach(tiles: set<Tile>, a: Tile, b: Tile) {
    exists p :: IsPath(tiles, p) && p[0] == a && p[|p| - 1] == b
  }

  /** The cluster of `a`: every tile of `tiles` reachable from `a`. */
  ghost function Component(tiles: set<Tile>, a: Tile): set<Tile> {
    set b | b in tiles && Reach(tiles, a, b)
  }

  /** `s` has no neighbour inside `tiles` that it does not contain. */
  ghost predicate Closed(tiles: set<Tile>, s: set<Tile>) {
    forall x, y :: x in s && y in tiles && Adjacent(x, y) ==> y in s
  }

  /** `n` is the size of a largest cluster of `tiles` (0 when there is none). */
  ghost predicate IsLargestClusterSize(tiles: set<Tile>, n: int) {
    if tiles == {} then n == 0
    else
      && (exists t :: t in tiles && |Component(tiles, t)| == n)
      && (forall t :: t in tiles ==> |Component(tiles, t)| <= n)
  }

  /** Each offset leads to a neighbour, and every neighbour is reached by one. */
  lemma OffsetsAreNeighbours(a: Tile, b: Tile)
    ensures Adjacent(a, b) <==> exists k :: 0 <= k < |Offsets| && b == Shift(a, Offsets[k])
  {
    if Adjacent(a, b) {
      if b == (a.0, a.1 + 1) { assert b == Shift(a, Offsets[0]); }
      else if b == (a.0, a.1 - 1) { assert b == Shift(a, Offsets[1]); }
      else if b == (a.0 + 1, a.1) { assert b == Shift(a, Offsets[2]); }
      else { assert b == Shift(a, Offsets[3]); }
    }
  }

  /** A subset is no larger than its superset. */
  lemma {:induction false} SubsetSize<T>(a: set<T>, b: set<T>)
    requires a <= b
    ensures |a| <= |b|
  {
    if a != {} {
      var x :| x in a;
      SubsetSize(a - {x}, b - {x});
    }
  }

  lemma ReachSelf(tiles: set<Tile>, a: Tile)
    requires a in tiles
    ensures Reach(tiles, a, a)
  {
    assert IsPath(tiles, [a]);
  }

  /** A chain can be extended by one more neighbouring tile. */
  lemma ReachExtend(tiles: set<Tile>, a: Tile, b: Tile, c: Tile)
    requires Reach(tiles, a, b) && c in tiles && Adjacent(b, c)
    ensures Reach(tiles, a, c)
  {
    var p :| IsPath(tiles, p) && p[0] == a && p[|p| - 1] == b;
    var q := p + [c];
    assert IsPath(tiles, q);
  }

  lemma {:induction false} PathStaysInClosed(tiles: set<Tile>, s: set<Tile>, p: seq<Tile>, i: nat)
    requires Closed(tiles, s) && IsPath(tiles, p) && p[0] in s && i < |p|
    ensures p[i] in s
  {
    if i > 0 {
      PathStaysInClosed(tiles, s, p, i - 1);
      assert Adjacent(p[i - 1], p[i]);
    }
  }

  /** A closed set holding `a` holds the whole cluster of `a`. */
  lemma ClosedContainsComponent(tiles: set<Tile>, s: set<Tile>, a: Tile)
    requires Closed(tiles, s) && a in s
    ensures Component(tiles, a) <= s
  {
    forall b | b in Component(tiles, a) ensures b in s {
      var p :| IsPath(tiles, p) && p[0] == a && p[|p| - 1] == b;
      PathStaysInClosed(tiles, s, p, |p| - 1);
    }
  }

  /** A cluster is closed: no neighbour of it is left outside. */
  lemma ComponentClosed(tiles: set<Tile>, a: Tile)
    ensures Closed(tiles, Component(tiles, a))
  {
    forall x, y | x in Component(tiles, a) && y in tiles && Adjacent(x, y)
      ensures y in Component(tiles, a)
    {
      ReachExtend(tiles, a, x, y);
    }
  }

  /** Every cluster of a tile holds that tile and at most all tiles. */
  lemma ComponentBounds(tiles: set<Tile>, a: Tile)
    requires a in tiles
    ensures a in Component(tiles, a)
    ensures 1 <= |Component(tiles, a)| <= |tiles|
  {
    ReachSelf(tiles, a);
    var c := Component(tiles, a);
    SubsetSize({a}, c);
    SubsetSize(c, tiles);
  }

  /** The cluster of a tile inside the cluster of `a` is no larger. */
  lemma ComponentOfMember(tiles: set<Tile>, a: Tile, t: Tile)
    requires t in Component(tiles, a)
    ensures Component(tiles, t) <= Component(tiles, a)
    ensures |Component(tiles, t)| <= |Component(tiles, a)|
  {
    ComponentClosed(tiles, a);
    ClosedContainsComponent(tiles, Component(tiles, a), t);
    SubsetSize(Component(tiles, t), Component(tiles, a));
  }

  /** The empty set has largest cluster 0; otherwise it lies between 1 and the tile count. */
  lemma LargestClusterBounds(tiles: set<Tile>, n: int)
    requires IsLargestClusterSize(tiles, n)
    ensures tiles == {} ==> n == 0
    ensures tiles != {} ==> 1 <= n <= |tiles|
  {
    if tiles != {} {
      var t :| t in tiles && |Component(tiles, t)| == n;
      ComponentBounds(tiles, t);
    }
  }

  /** The largest cluster size is one number: it does not depend on traversal order. */
  lemma LargestClusterUnique(tiles: set<Tile>, n: int, m: int)
    requires IsLargestClusterSize(tiles, n) && IsLargestClusterSize(tiles, m)
    ensures n == m
  {
  }

  lemma EmptyLargestCluster()
    ensures IsLargestClusterSize({}, 0)
  {
  }

  lemma SingletonLargestCluster(t: Tile)
    ensures IsLargestClusterSize({t}, 1)
  {
    ComponentBounds({t}, t);
  }

  /** A straight run of four tiles is one cluster of four. */
  lemma LineLargestCluster()
    ensures IsLargestClusterSize({(0, 0), (1, 0), (2, 0), (3, 0)}, 4)
  {
    var tiles: set<Tile> := {(0, 0), (1, 0), (2, 0), (3, 0)};
    var p: seq<Tile> := [(0, 0), (1, 0), (2, 0), (3, 0)];
    assert IsPath(tiles, p[..1]) && IsPath(tiles, p[..2]) && IsPath(tiles, p[..3]) && IsPath(tiles, p);
    assert Component(tiles, (0, 0)) == tiles;
    assert |tiles| == 4;
    forall t | t in tiles ensures |Component(tiles, t)| <= 4 {
      SubsetSize(Component(tiles, t), tiles);
    }
  }

  /** An isolated tile beside a 2x2 square: the square is the largest cluster. */
  lemma SquareLargestCluster()
    ensures IsLargestClusterSize({(0, 0), (5, 5), (5, 6), (6, 5), (6, 6)}, 4)
  {
    var tiles: set<Tile> := {(0, 0), (5, 5), (5, 6), (6, 5), (6, 6)};
    var square: set<Tile> := {(5, 5), (5, 6), (6, 5), (6, 6)};
    assert Closed(tiles, square);
    assert Closed(tiles, {(0, 0)});
    var p: seq<Tile> := [(5, 5), (5, 6), (6, 6), (6, 5)];
    assert IsPath(tiles, p[..1]) && IsPath(tiles, p[..2]) && IsPath(tiles, p[..3]) && IsPath(tiles, p);
    ClosedContainsComponent(tiles, square, (5, 5));
    assert Component(tiles, (5, 5)) == square;
    assert |square| == 4;
    forall t | t in tiles ensures |Component(tiles, t)| <= 4 {
      if t == (0, 0) {
        ClosedContainsComponent(tiles, {(0, 0)}, t);
        SubsetSize(Component(tiles, t), {(0, 0)});
      } else {
        ClosedContainsComponent(tiles, square, t);
        SubsetSize(Component(tiles, t), square);
      }
    }
  }
}
