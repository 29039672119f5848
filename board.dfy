/** The grid of tiles: how `buildGrid` places and scrambles them, the win
    check shared by `checkFlow` and `submitSolution`, hiding decoys on a win,
    and the hint that hides half of the decoys. */
module Board {
  import opened Tiles
  import opened PathWalk

  datatype Option<T> = None | Some(value: T)

  /** Source and target are plain tiles; every other cell holds a pipe. */
  datatype Kind = Source | Target | Pipe(shape: Shape)

  /** One cell: what it holds, its displayed rotation, the rotation that
      solves it (path pipes only) and whether it has been hidden. Source and
      target carry no rotation in the page; here theirs is 0 and no click
      reaches it. */
  datatype Tile = Tile(kind: Kind, rotation: nat, solution: Option<nat>, hidden: bool)

  /** The page's `tiles[r][c]`, row by row. */
  type Grid = seq<seq<Tile>>

  predicate IsGrid(g: Grid, size: int)
  {
    |g| == size && forall r :: 0 <= r < |g| ==> |g[r]| == size
  }

  /** The random draws for one cell: a tile type (used by decoys) and a
      displayed rotation, both as indices. */
  datatype Draw = Draw(shapeIndex: nat, rotationIndex: nat)

  /** One draw per cell, each the floor of a random number times 2 or 4. */
  predicate ValidDraws(draws: seq<seq<Draw>>, size: int)
  {
    && |draws| == size
    && forall r :: 0 <= r < size ==>
         |draws[r]| == size
         && forall c :: 0 <= c < size ==> draws[r][c].shapeIndex < 2 && draws[r][c].rotationIndex < 4
  }

  /** The first index of `x` in `s`, as `findIndex` returns it. */
  function IndexOf(s: seq<Coord>, x: Coord): (i: nat)
    requires x in s
    ensures i < |s| && s[i] == x && x !in s[..i]
  {
    if s[0] == x then 0
    else
      var j := IndexOf(s[1..], x);
      assert s[..j + 1] == [s[0]] + s[1..][..j];
      1 + j
  }

  /** The vectors from entry `i` to the entries before and after it, for
      those that exist. */
  function NeighbourDirs(path: seq<Coord>, i: nat): (dirs: seq<Coord>)
    requires i < |path|
    ensures |dirs| == (if i > 0 then 1 else 0) + (if i + 1 < |path| then 1 else 0)
    ensures i > 0 ==> dirs[0] == Delta(path[i], path[i - 1])
    ensures i + 1 < |path| ==> dirs[|dirs| - 1] == Delta(path[i], path[i + 1])
  {
    (if i > 0 then [Delta(path[i], path[i - 1])] else [])
    + (if i + 1 < |path| then [Delta(path[i], path[i + 1])] else [])
  }

  /** What the placement needs of a path: an entry, the first in the
      bottom row. Every walk path has it. */
  predicate StartsAtBottom(size: int, path: seq<Coord>)
  {
    |path| >= 1 && path[0].row == size - 1
  }

  /** The tile `buildGrid` places at (r, c): the target above the walk's last
      entry, the source below its first, the pipe the page's rule gives, with a random
      displayed rotation on the path, and a random decoy elsewhere. */
  function TileAt(size: int, path: seq<Coord>, draws: seq<seq<Draw>>, r: int, c: int): Tile
    requires StartsAtBottom(size, path) && ValidDraws(draws, size)
    requires 0 <= r < size && 0 <= c < size
  {
    var draw := draws[r][c];
    if r == 0 && path[|path| - 1].col == c then Tile(Target, 0, None, false)
    else if r == size - 1 && path[0].col == c then Tile(Source, 0, None, false)
    else if Coord(r, c) in path then
      var i := IndexOf(path, Coord(r, c));
      var fit := ClassifyDirs(NeighbourDirs(path, i));
      Tile(Pipe(fit.shape), Rotations[draw.rotationIndex], Some(fit.rotation), false)
    else
      Tile(Pipe(TileTypes[draw.shapeIndex]), Rotations[draw.rotationIndex], None, false)
  }

  /** Row `r` of the grid `buildGrid` produces. */
  function LayoutRow(size: nat, path: seq<Coord>, draws: seq<seq<Draw>>, r: nat): (row: seq<Tile>)
    requires StartsAtBottom(size, path) && ValidDraws(draws, size) && r < size
    ensures |row| == size
  {
    seq(size, c requires 0 <= c < size => TileAt(size, path, draws, r, c))
  }

  /** The whole grid `buildGrid` produces. */
  function Layout(size: nat, path: seq<Coord>, draws: seq<seq<Draw>>): Grid
    requires StartsAtBottom(size, path) && ValidDraws(draws, size)
  {
    seq(size, r requires 0 <= r < size => LayoutRow(size, path, draws, r))
  }

  /** The inner placement loop of `buildGrid`, which fills row `r`. */
  method PlaceRow(size: nat, path: seq<Coord>, draws: seq<seq<Draw>>, r: nat) returns (row: seq<Tile>)
    requires StartsAtBottom(size, path) && ValidDraws(draws, size) && r < size
    ensures row == LayoutRow(size, path, draws, r)
  {
    row := [];
    var c := 0;
    while c < size
      invariant 0 <= c <= size && |row| == c
      invariant forall c' :: 0 <= c' < c ==> row[c'] == TileAt(size, path, draws, r, c')
    {
      row := row + [TileAt(size, path, draws, r, c)];
      c := c + 1;
    }
  }

  /** The nested loops of `buildGrid` that fill `tiles[r][c]`. */
  method PlaceTiles(size: nat, path: seq<Coord>, draws: seq<seq<Draw>>) returns (g: Grid)
    requires StartsAtBottom(size, path) && ValidDraws(draws, size)
    ensures g == Layout(size, path, draws)
    ensures IsGrid(g, size)
    ensures forall r, c :: 0 <= r < size && 0 <= c < size ==> g[r][c] == TileAt(size, path, draws, r, c)
  {
    g := [];
    var r := 0;
    while r < size
      invariant 0 <= r <= size && |g| == r
      invariant forall r' :: 0 <= r' < r ==> g[r'] == LayoutRow(size, path, draws, r')
    {
      var row := PlaceRow(size, path, draws, r);
      g := g + [row];
      r := r + 1;
    }
    assert g == Layout(size, path, draws);
  }

  /** On a grid at least two rows high, the source is exactly the walk's
      first entry and the target exactly its last, in two different rows. */
  lemma TerminalsAtPathEnds(size: int, path: seq<Coord>, draws: seq<seq<Draw>>, r: int, c: int)
    requires ReachedPath(size, path) && ValidDraws(draws, size) && size >= 2
    requires 0 <= r < size && 0 <= c < size
    ensures TileAt(size, path, draws, r, c).kind == Source <==> Coord(r, c) == path[0]
    ensures TileAt(size, path, draws, r, c).kind == Target <==> Coord(r, c) == path[|path| - 1]
    ensures path[0].row == size - 1 && path[|path| - 1].row == 0
  {
  }

  /** An on-path cell that is neither end of the walk has an entry on each
      side, so `buildGrid` never takes its one-neighbour branch there. */
  lemma InteriorHasTwoNeighbours(size: int, path: seq<Coord>, x: Coord)
    requires ReachedPath(size, path) && x in path
    requires x != path[0] && x != path[|path| - 1]
    ensures 0 < IndexOf(path, x) < |path| - 1
    ensures |NeighbourDirs(path, IndexOf(path, x))| == 2
    ensures NeighbourDirs(path, IndexOf(path, x))[0] != Coord(0, 0)
    ensures NeighbourDirs(path, IndexOf(path, x))[1] != Coord(0, 0)
  {
    var i := IndexOf(path, x);
    assert path[i - 1] != path[i] && path[i + 1] != path[i];
  }

  /** A path cell other than source and target gets the pipe and solution
      rotation the page's rule computes from the vectors to its predecessor
      and successor, and a displayed rotation from the draw. */
  lemma {:induction false} PathCellTile(size: int, path: seq<Coord>, draws: seq<seq<Draw>>, r: int, c: int)
    requires ReachedPath(size, path) && ValidDraws(draws, size)
    requires 0 <= r < size && 0 <= c < size
    requires Coord(r, c) in path && Coord(r, c) != path[0] && Coord(r, c) != path[|path| - 1]
    ensures var i := IndexOf(path, Coord(r, c));
      && 0 < i < |path| - 1
      && var fit := ClassifyAsWritten(Delta(path[i], path[i - 1]), Delta(path[i], path[i + 1]));
      && TileAt(size, path, draws, r, c)
         == Tile(Pipe(fit.shape), Rotations[draws[r][c].rotationIndex], Some(fit.rotation), false)
      && IsRotation(fit.rotation)
      && IsRotation(TileAt(size, path, draws, r, c).rotation)
  {
    InteriorHasTwoNeighbours(size, path, Coord(r, c));
    RotationsAreRotations(draws[r][c].rotationIndex);
  }

  /** Where consecutive entries are grid neighbours, an elbow on the path,
      shown at its solution, opens towards exactly its predecessor and its
      successor, while a straight opens towards neither of them (the page
      solves straights a quarter turn off). A path never lists a cell twice,
      so the two vectors differ. */
  lemma PathCellConnects(path: seq<Coord>, i: nat)
    requires Distinct(path) && 0 < i < |path| - 1
    requires IsUnit(Delta(path[i], path[i - 1])) && IsUnit(Delta(path[i], path[i + 1]))
    ensures var fit := ClassifyDirs(NeighbourDirs(path, i));
      var toPrev, toNext := Delta(path[i], path[i - 1]), Delta(path[i], path[i + 1]);
      && (fit.shape == Elbow ==> SameEnds(Openings(fit), toPrev, toNext))
      && (fit.shape == Straight ==>
            var p := Openings(fit); toPrev != p.0 && toPrev != p.1 && toNext != p.0 && toNext != p.1)
  {
    var toPrev, toNext := Delta(path[i], path[i - 1]), Delta(path[i], path[i + 1]);
    assert NeighbourDirs(path, i) == [toPrev, toNext];
    assert path[i - 1] != path[i + 1];
    assert toPrev != toNext;
    AsWrittenTurnsStraights(toPrev, toNext);
    if ClassifyAsWritten(toPrev, toNext).shape == Elbow {
      ClassifyConnects(toPrev, toNext);
    } else {
      AsWrittenStraightCrossesPath(toPrev, toNext);
    }
  }

  /** A cell off the path gets a decoy: the drawn tile type and rotation and
      no solution. */
  lemma OffPathTile(size: int, path: seq<Coord>, draws: seq<seq<Draw>>, r: int, c: int)
    requires ReachedPath(size, path) && ValidDraws(draws, size)
    requires 0 <= r < size && 0 <= c < size && Coord(r, c) !in path
    ensures TileAt(size, path, draws, r, c)
         == Tile(Pipe(TileTypes[draws[r][c].shapeIndex]), Rotations[draws[r][c].rotationIndex], None, false)
    ensures IsRotation(TileAt(size, path, draws, r, c).rotation)
  {
    assert path[0] in path && path[|path| - 1] in path;
    RotationsAreRotations(draws[r][c].rotationIndex);
  }

  /** Exactly the path cells other than source and target carry a solution. */
  lemma SolutionExactlyOnPath(size: int, path: seq<Coord>, draws: seq<seq<Draw>>, r: int, c: int)
    requires ReachedPath(size, path) && ValidDraws(draws, size)
    requires 0 <= r < size && 0 <= c < size
    ensures TileAt(size, path, draws, r, c).solution.Some?
        <==> Coord(r, c) in path && Coord(r, c) != path[0] && Coord(r, c) != path[|path| - 1]
  {
    if Coord(r, c) !in path {
      OffPathTile(size, path, draws, r, c);
    } else if Coord(r, c) != path[0] && Coord(r, c) != path[|path| - 1] {
      PathCellTile(size, path, draws, r, c);
    }
  }

  /** Every rotation on the grid is one of the four, and a solution only
      sits on a pipe and is one of the four too. */
  predicate WellFormed(g: Grid)
  {
    forall r, c :: 0 <= r < |g| && 0 <= c < |g[r]| ==>
      && IsRotation(g[r][c].rotation)
      && (g[r][c].solution.Some? ==> g[r][c].kind.Pipe? && IsRotation(g[r][c].solution.value))
  }

  lemma LayoutWellFormed(size: nat, path: seq<Coord>, draws: seq<seq<Draw>>)
    requires ReachedPath(size, path) && ValidDraws(draws, size)
    ensures IsGrid(Layout(size, path, draws), size)
    ensures WellFormed(Layout(size, path, draws))
  {
    var g: Grid := Layout(size, path, draws);
    forall r, c | 0 <= r < size && 0 <= c < size
      ensures IsRotation(g[r][c].rotation)
      ensures g[r][c].solution.Some? ==> g[r][c].kind.Pipe? && IsRotation(g[r][c].solution.value)
    {
      if Coord(r, c) !in path {
        OffPathTile(size, path, draws, r, c);
      } else if Coord(r, c) != path[0] && Coord(r, c) != path[|path| - 1] {
        PathCellTile(size, path, draws, r, c);
      }
    }
  }

  /** A tile shows its solution, or has none. */
  predicate TileSolved(t: Tile)
  {
    t.solution.Some? ==> t.rotation == t.solution.value
  }

  /** The win condition: every tile with a solution shows it. */
  predicate Solved(g: Grid)
  {
    forall r, c :: 0 <= r < |g| && 0 <= c < |g[r]| ==> TileSolved(g[r][c])
  }

  /** The `solved` flag loop shared by `checkFlow` and `submitSolution`. */
  method ScanSolved(g: Grid, size: nat) returns (solved: bool)
    requires IsGrid(g, size)
    ensures solved == Solved(g)
  {
    solved := true;
    var r := 0;
    while r < size
      invariant 0 <= r <= size
      invariant solved <==> forall r', c :: 0 <= r' < r && 0 <= c < size ==> TileSolved(g[r'][c])
    {
      var c := 0;
      while c < size
        invariant 0 <= c <= size
        invariant solved <==>
          (forall r', c' :: 0 <= r' < r && 0 <= c' < size ==> TileSolved(g[r'][c']))
          && (forall c' :: 0 <= c' < c ==> TileSolved(g[r][c']))
      {
        var tile := g[r][c];
        if tile.solution.Some? {
          if tile.rotation != tile.solution.value {
            solved := false;
          }
        }
        c := c + 1;
      }
      r := r + 1;
    }
  }

  /** Rotations of tiles without a solution do not matter to the win check:
      two grids that agree on every solution, and on the rotation of every
      tile that has one, are both solved or both not. */
  lemma SolvedIgnoresDecoys(g: Grid, h: Grid)
    requires |g| == |h| && forall r :: 0 <= r < |g| ==> |g[r]| == |h[r]|
    requires forall r, c :: 0 <= r < |g| && 0 <= c < |g[r]| ==>
      g[r][c].solution == h[r][c].solution
      && (g[r][c].solution.Some? ==> g[r][c].rotation == h[r][c].rotation)
    ensures Solved(g) <==> Solved(h)
  {
    if Solved(g) {
      forall r, c | 0 <= r < |h| && 0 <= c < |h[r]| ensures TileSolved(h[r][c]) {
        assert TileSolved(g[r][c]);
      }
    }
    if Solved(h) {
      forall r, c | 0 <= r < |g| && 0 <= c < |g[r]| ensures TileSolved(g[r][c]) {
        assert TileSolved(h[r][c]);
      }
    }
  }

  /** What the win reveal hides: a tile with no solution that is neither
      source nor target. */
  predicate IsDecoy(t: Tile)
  {
    t.solution.None? && !t.kind.Source? && !t.kind.Target?
  }

  function HideIfDecoy(t: Tile): Tile
  {
    if IsDecoy(t) then t.(hidden := true) else t
  }

  /** The grid after the win reveal. */
  function HideDecoys(g: Grid): Grid
  {
    seq(|g|, r requires 0 <= r < |g| => seq(|g[r]|, c requires 0 <= c < |g[r]| => HideIfDecoy(g[r][c])))
  }

  /** The win reveal hides exactly the decoys, changes nothing else about any
      tile, and keeps the grid solved. */
  lemma HideDecoysEffect(g: Grid)
    ensures var h := HideDecoys(g);
      && |h| == |g|
      && (forall r :: 0 <= r < |g| ==> |h[r]| == |g[r]|)
      && (forall r, c :: 0 <= r < |g| && 0 <= c < |g[r]| ==>
            && h[r][c].hidden == (g[r][c].hidden || IsDecoy(g[r][c]))
            && h[r][c].kind == g[r][c].kind
            && h[r][c].rotation == g[r][c].rotation
            && h[r][c].solution == g[r][c].solution)
      && (Solved(h) <==> Solved(g))
  {
    SolvedIgnoresDecoys(g, HideDecoys(g));
  }

  /** The hiding loop of `checkFlow`, run when the puzzle is solved. */
  method HideNonPath(g: Grid, size: nat) returns (h: Grid)
    requires IsGrid(g, size)
    ensures h == HideDecoys(g)
  {
    h := g;
    var r := 0;
    while r < size
      invariant 0 <= r <= size && IsGrid(h, size)
      invariant forall r' :: 0 <= r' < r ==> h[r'] == HideDecoys(g)[r']
      invariant forall r' :: r <= r' < size ==> h[r'] == g[r']
    {
      var c := 0;
      while c < size
        invariant 0 <= c <= size && IsGrid(h, size)
        invariant forall r' :: 0 <= r' < r ==> h[r'] == HideDecoys(g)[r']
        invariant forall r' :: r < r' < size ==> h[r'] == g[r']
        invariant forall c' :: 0 <= c' < c ==> h[r][c'] == HideIfDecoy(g[r][c'])
        invariant forall c' :: c <= c' < size ==> h[r][c'] == g[r][c']
      {
        if IsDecoy(h[r][c]) {
          h := h[r := h[r][c := h[r][c].(hidden := true)]];
        }
        c := c + 1;
      }
      assert h[r] == HideDecoys(g)[r];
      r := r + 1;
    }
  }

  /** The decoy cells among the first `k` columns of row `r`, left to right. */
  function RowDecoys(g: Grid, r: nat, k: nat): seq<Coord>
    requires r < |g| && k <= |g[r]|
    decreases k
  {
    if k == 0 then []
    else RowDecoys(g, r, k - 1) + (if IsDecoy(g[r][k - 1]) then [Coord(r, k - 1)] else [])
  }

  /** `RowDecoys` lists exactly the decoys of its columns of row `r`, each once. */
  lemma {:induction false} RowDecoysFacts(g: Grid, r: nat, k: nat)
    requires r < |g| && k <= |g[r]|
    ensures var s := RowDecoys(g, r, k);
      && (forall x :: x in s <==> x.row == r && 0 <= x.col < k && IsDecoy(g[r][x.col]))
      && (forall i :: 0 <= i < |s| ==> s[i].row == r && s[i].col < k)
      && Distinct(s)
    decreases k
  {
    if k > 0 {
      RowDecoysFacts(g, r, k - 1);
    }
  }

  /** The decoy cells of the first `k` rows, in row-major order. */
  function DecoysBefore(g: Grid, k: nat): seq<Coord>
    requires k <= |g|
    decreases k
  {
    if k == 0 then [] else DecoysBefore(g, k - 1) + RowDecoys(g, k - 1, |g[k - 1]|)
  }

  /** `DecoysBefore` lists exactly the decoys of its rows, each once. */
  lemma {:induction false} DecoysBeforeFacts(g: Grid, k: nat)
    requires k <= |g|
    ensures var s := DecoysBefore(g, k);
      && (forall x :: x in s <==> 0 <= x.row < k && 0 <= x.col < |g[x.row]| && IsDecoy(g[x.row][x.col]))
      && (forall i :: 0 <= i < |s| ==> s[i].row < k)
      && Distinct(s)
    decreases k
  {
    if k > 0 {
      DecoysBeforeFacts(g, k - 1);
      RowDecoysFacts(g, k - 1, |g[k - 1]|);
      var before, row := DecoysBefore(g, k - 1), RowDecoys(g, k - 1, |g[k - 1]|);
      forall i, j | 0 <= i < |before| && 0 <= j < |row| ensures before[i] != row[j] {
        assert before[i].row < k - 1 && row[j].row == k - 1;
      }
    }
  }

  /** The `extraTiles` list of `showHint`: every decoy, in row-major order. */
  function DecoyList(g: Grid): (s: seq<Coord>)
    ensures forall x :: x in s <==>
      0 <= x.row < |g| && 0 <= x.col < |g[x.row]| && IsDecoy(g[x.row][x.col])
    ensures Distinct(s)
  {
    DecoysBeforeFacts(g, |g|);
    DecoysBefore(g, |g|)
  }

  /** The inner loop of the first loop of `showHint`, over row `r`. */
  method CollectRow(g: Grid, size: nat, r: nat) returns (found: seq<Coord>)
    requires IsGrid(g, size) && r < size
    ensures found == RowDecoys(g, r, size)
  {
    found := [];
    var c := 0;
    while c < size
      invariant 0 <= c <= size && found == RowDecoys(g, r, c)
    {
      if IsDecoy(g[r][c]) {
        found := found + [Coord(r, c)];
      }
      c := c + 1;
    }
  }

  /** The first loop of `showHint`, which collects the decoys. */
  method CollectDecoys(g: Grid, size: nat) returns (extras: seq<Coord>)
    requires IsGrid(g, size)
    ensures extras == DecoyList(g)
  {
    extras := [];
    var r := 0;
    while r < size
      invariant 0 <= r <= size && extras == DecoysBefore(g, r)
    {
      var found := CollectRow(g, size, r);
      extras := extras + found;
      r := r + 1;
    }
  }

  /** Draws `picks[0..n]` fit a list of length `len` that loses one entry per
      draw: draw `j` is an index into the `len - j` entries still there. */
  predicate PicksFit(len: nat, picks: seq<nat>, n: nat)
  {
    n <= len && |picks| >= n && forall j :: 0 <= j < n ==> picks[j] < len - j
  }

  /** Each hint draw is the floor of a random number times the number of
      decoys still in the list, and there is one draw per hidden decoy. */
  predicate ValidPicks(len: nat, picks: seq<nat>)
  {
    PicksFit(len, picks, len / 2)
  }

  /** The entries drawn from `s` by `n` draws without replacement: each
      draw takes the entry at its index and splices it out of the list. */
  function Drawn(s: seq<Coord>, picks: seq<nat>, n: nat): seq<Coord>
    requires PicksFit(|s|, picks, n)
    decreases n
  {
    if n == 0 then []
    else
      var p := picks[0];
      [s[p]] + Drawn(s[..p] + s[p + 1..], picks[1..], n - 1)
  }

  /** One draw: the entry at the first index, then the draws from the list
      with that entry spliced out. */
  lemma DrawnStep(s: seq<Coord>, picks: seq<nat>, n: nat)
    requires PicksFit(|s|, picks, n) && n > 0
    ensures var p := picks[0];
      && PicksFit(|s| - 1, picks[1..], n - 1)
      && Drawn(s, picks, n) == [s[p]] + Drawn(s[..p] + s[p + 1..], picks[1..], n - 1)
  {
  }

  /** `n` draws without replacement take `n` entries, each as often as it
      is in the list at most. */
  lemma {:induction false} DrawnFromList(s: seq<Coord>, picks: seq<nat>, n: nat)
    requires PicksFit(|s|, picks, n)
    ensures |Drawn(s, picks, n)| == n
    ensures multiset(Drawn(s, picks, n)) <= multiset(s)
    decreases n
  {
    if n > 0 {
      var p := picks[0];
      var rest := s[..p] + s[p + 1..];
      DrawnFromList(rest, picks[1..], n - 1);
      assert s == s[..p] + [s[p]] + s[p + 1..];
      assert multiset(s) == multiset(rest) + multiset{s[p]};
    }
  }

  /** The second loop of `showHint`: `floor(n / 2)` times, draw an index into
      the remaining list, hide that cell and splice it out. */
  method PickDecoys(extras: seq<Coord>, picks: seq<nat>) returns (hidden: seq<Coord>)
    requires ValidPicks(|extras|, picks)
    ensures hidden == Drawn(extras, picks, |extras| / 2)
  {
    var remaining, rest := extras, picks;
    hidden := [];
    var toRemove := |extras| / 2;
    var i := 0;
    while i < toRemove
      invariant 0 <= i <= toRemove
      invariant PicksFit(|remaining|, rest, toRemove - i)
      invariant hidden + Drawn(remaining, rest, toRemove - i) == Drawn(extras, picks, toRemove)
    {
      var idx := rest[0];
      DrawnStep(remaining, rest, toRemove - i);
      hidden := hidden + [remaining[idx]];
      remaining := remaining[..idx] + remaining[idx + 1..];
      rest := rest[1..];
      i := i + 1;
    }
  }

  /** A sequence drawn without replacement from a list with no repeats has
      no repeats either. */
  lemma {:induction false} SubMultisetDistinct(s: seq<Coord>, t: seq<Coord>)
    requires Distinct(t) && multiset(s) <= multiset(t)
    ensures Distinct(s)
    decreases |s|
  {
    if |s| > 0 {
      var x := s[|s| - 1];
      var front := s[..|s| - 1];
      assert s == front + [x];
      assert multiset(front) <= multiset(t);
      SubMultisetDistinct(front, t);
      DistinctCount(t, x);
      assert multiset(s)[x] == multiset(front)[x] + 1;
      assert x !in multiset(front);
      assert x !in front;
    }
  }

  /** In a list with no repeats every entry occurs at most once. */
  lemma {:induction false} DistinctCount(t: seq<Coord>, x: Coord)
    requires Distinct(t)
    ensures multiset(t)[x] <= 1
    decreases |t|
  {
    if |t| > 0 {
      var front := t[..|t| - 1];
      assert t == front + [t[|t| - 1]];
      DistinctCount(front, x);
      if x == t[|t| - 1] {
        assert x !in front;
      }
    }
  }

  /** The whole of `showHint` on a grid: it hides exactly `floor(n / 2)`
      different decoys, where n is the number of decoys, and therefore never a
      path cell, the source or the target. */
  method ChooseHint(g: Grid, size: nat, picks: seq<nat>) returns (hidden: seq<Coord>)
    requires IsGrid(g, size) && ValidPicks(|DecoyList(g)|, picks)
    ensures hidden == Drawn(DecoyList(g), picks, |DecoyList(g)| / 2)
    ensures |hidden| == |DecoyList(g)| / 2
    ensures Distinct(hidden)
    ensures forall i :: 0 <= i < |hidden| ==>
      var x := hidden[i]; 0 <= x.row < size && 0 <= x.col < size && IsDecoy(g[x.row][x.col])
  {
    var extras := CollectDecoys(g, size);
    hidden := PickDecoys(extras, picks);
    DrawnFromList(extras, picks, |extras| / 2);
    SubMultisetDistinct(hidden, extras);
    forall i | 0 <= i < |hidden|
      ensures var x := hidden[i]; 0 <= x.row < size && 0 <= x.col < size && IsDecoy(g[x.row][x.col])
    {
      assert hidden[i] in multiset(hidden);
      assert hidden[i] in extras;
    }
  }

  /** The grid with the listed cells hidden. */
  function HideCells(g: Grid, cells: seq<Coord>): Grid
  {
    seq(|g|, r requires 0 <= r < |g| => seq(|g[r]|, c requires 0 <= c < |g[r]| =>
      if Coord(r, c) in cells then g[r][c].(hidden := true) else g[r][c]))
  }

  /** Hiding cells sets the hidden flag of exactly the listed cells and
      changes no kind, rotation or solution, so it never changes whether the
      puzzle is solved. */
  lemma HideCellsEffect(g: Grid, cells: seq<Coord>)
    ensures var h := HideCells(g, cells);
      && |h| == |g|
      && (forall r :: 0 <= r < |g| ==> |h[r]| == |g[r]|)
      && (forall r, c :: 0 <= r < |g| && 0 <= c < |g[r]| ==>
            && h[r][c].hidden == (g[r][c].hidden || Coord(r, c) in cells)
            && h[r][c].kind == g[r][c].kind
            && h[r][c].rotation == g[r][c].rotation
            && h[r][c].solution == g[r][c].solution)
      && (Solved(h) <==> Solved(g))
      && (WellFormed(g) ==> WellFormed(h))
  {
    SolvedIgnoresDecoys(g, HideCells(g, cells));
  }

  /** One click on the tile at (r, c): a pipe turns a quarter, the source
      and target have no click handler. */
  function RotateAt(g: Grid, r: int, c: int): Grid
    requires 0 <= r < |g| && 0 <= c < |g[r]|
  {
    if g[r][c].kind.Pipe? then g[r := g[r][c := g[r][c].(rotation := Rotate(g[r][c].rotation))]]
    else g
  }

  /** A click changes only the clicked tile, and of it only the rotation;
      it keeps the grid well formed. */
  lemma RotateAtEffect(g: Grid, r: int, c: int)
    requires 0 <= r < |g| && 0 <= c < |g[r]|
    ensures var h := RotateAt(g, r, c);
      && |h| == |g|
      && (forall r' :: 0 <= r' < |g| ==> |h[r']| == |g[r']|)
      && (forall r', c' :: 0 <= r' < |g| && 0 <= c' < |g[r']| && (r', c') != (r, c) ==> h[r'][c'] == g[r'][c'])
      && h[r][c] == g[r][c].(rotation := if g[r][c].kind.Pipe? then Rotate(g[r][c].rotation) else g[r][c].rotation)
      && (WellFormed(g) ==> WellFormed(h))
  {
  }

  /** Clicking a tile four times gives back the grid it started from. */
  lemma RotateAtFourTimes(g: Grid, r: int, c: int)
    requires 0 <= r < |g| && 0 <= c < |g[r]| && g[r][c].rotation < 360
    ensures var g1 := RotateAt(g, r, c);
      var g2 := RotateAt(g1, r, c);
      var g3 := RotateAt(g2, r, c);
      RotateAt(g3, r, c) == g
  {
    RotateFourTimes(g[r][c].rotation);
    var t := g[r][c];
    if t.kind.Pipe? {
      var g1: Grid := RotateAt(g, r, c);
      var g2: Grid := RotateAt(g1, r, c);
      var g3: Grid := RotateAt(g2, r, c);
      assert g1[r][c].rotation == RotateTimes(t.rotation, 1);
      assert g2[r][c].rotation == RotateTimes(t.rotation, 2);
      assert g3[r][c].rotation == RotateTimes(t.rotation, 3);
      assert RotateAt(g3, r, c)[r] == g[r];
    }
  }

  /** Clicking a decoy never changes whether the puzzle is solved. */
  lemma ClickOnDecoyIrrelevant(g: Grid, r: int, c: int)
    requires 0 <= r < |g| && 0 <= c < |g[r]| && g[r][c].solution.None?
    ensures Solved(RotateAt(g, r, c)) <==> Solved(g)
  {
    RotateAtEffect(g, r, c);
    SolvedIgnoresDecoys(g, RotateAt(g, r, c));
  }

  /** On a solved grid, clicking a tile that has a solution unsolves it. */
  lemma ClickOnPathUnsolves(g: Grid, r: int, c: int)
    requires 0 <= r < |g| && 0 <= c < |g[r]| && WellFormed(g) && g[r][c].solution.Some?
    requires Solved(g)
    ensures !Solved(RotateAt(g, r, c))
  {
    RotateAtEffect(g, r, c);
    assert !TileSolved(RotateAt(g, r, c)[r][c]);
  }

  /** The rest of the grid being solved, clicking one path tile the number of
      times `ClicksNeeded` says solves it. */
  lemma ClicksSolve(g: Grid, r: int, c: int)
    requires 0 <= r < |g| && 0 <= c < |g[r]| && WellFormed(g) && g[r][c].solution.Some?
    requires forall r', c' :: 0 <= r' < |g| && 0 <= c' < |g[r']| && (r', c') != (r, c) ==> TileSolved(g[r'][c'])
    ensures var n := ClicksNeeded(g[r][c].rotation, g[r][c].solution.value);
      n < 4 && Solved(g[r := g[r][c := g[r][c].(rotation := RotateTimes(g[r][c].rotation, n))]])
  {
    ClicksReachSolution(g[r][c].rotation, g[r][c].solution.value);
  }
}
