/** The random walk that carves the puzzle's path, from a bottom-row cell up
    to row 0. Each random draw is an index into the candidate moves. */
module PathWalk {
  import opened Tiles

  /** `q` is one step left, right or up from `p`. */
  predicate Step(p: Coord, q: Coord)
  {
    (q.row == p.row && (q.col == p.col - 1 || q.col == p.col + 1))
    || (q.row == p.row - 1 && q.col == p.col)
  }

  predicate InGrid(size: int, p: Coord)
  {
    0 <= p.row < size && 0 <= p.col < size
  }

  /** The candidates offered from (row, col): left and right when they stay
      in the grid, then up, which is always offered. */
  function Moves(size: int, row: int, col: int): (m: seq<Coord>)
    ensures 1 <= |m| <= 3 && m[|m| - 1] == Coord(row - 1, col)
    ensures forall i :: 0 <= i < |m| ==> Step(Coord(row, col), m[i])
    ensures 0 <= col < size ==> forall i :: 0 <= i < |m| ==> 0 <= m[i].col < size
    ensures Coord(row, col - 1) in m <==> col > 0
    ensures Coord(row, col + 1) in m <==> col < size - 1
  {
    (if col > 0 then [Coord(row, col - 1)] else [])
    + (if col < size - 1 then [Coord(row, col + 1)] else [])
    + [Coord(row - 1, col)]
  }

  /** How a walk driven by a finite list of draws ends: at row 0, with the
      draws used up while the walker is still below row 0, or at a draw that
      is not an index into the candidate moves. */
  datatype WalkResult =
    | Reached(path: seq<Coord>)
    | OutOfChoices(path: seq<Coord>)
    | BadChoice(path: seq<Coord>)

  /** The walk from the walker's position (row, col), with `path` recorded so
      far: a new position is recorded only if it is not already in `path`. */
  function Walk(size: int, row: int, col: int, path: seq<Coord>, choices: seq<nat>): WalkResult
    decreases |choices|
  {
    if row <= 0 then Reached(path)
    else if choices == [] then OutOfChoices(path)
    else
      var moves := Moves(size, row, col);
      if choices[0] >= |moves| then BadChoice(path)
      else
        var next := moves[choices[0]];
        Walk(size, next.row, next.col, if next in path then path else path + [next], choices[1..])
  }

  /** The walk from the bottom-row cell in column `startCol`. */
  function Run(size: int, startCol: int, choices: seq<nat>): WalkResult
  {
    Walk(size, size - 1, startCol, [Coord(size - 1, startCol)], choices)
  }

  predicate Distinct(s: seq<Coord>)
  {
    forall i, j :: 0 <= i < j < |s| ==> s[i] != s[j]
  }

  predicate AllInGrid(size: int, s: seq<Coord>)
  {
    forall i :: 0 <= i < |s| ==> InGrid(size, s[i])
  }

  /** No entry lies in a lower row than an earlier one. */
  predicate RowsNonIncreasing(s: seq<Coord>)
  {
    forall i, j :: 0 <= i < j < |s| ==> s[j].row <= s[i].row
  }

  /** `q` is one step from some entry of `s`. */
  predicate StepsFrom(s: seq<Coord>, q: Coord)
  {
    exists k :: 0 <= k < |s| && Step(s[k], q)
  }

  /** Each entry after the first is one step from some earlier entry. */
  predicate EachStepsFromEarlier(s: seq<Coord>)
  {
    forall j :: 0 < j < |s| ==> StepsFrom(s[..j], s[j])
  }

  /** What holds of every recorded path, finished or not: it starts in the
      bottom row, stays in the grid, never lists a cell twice, never goes down,
      and each entry after the first is one step left, right or up from some
      earlier entry (though not necessarily from the one just before it). */
  predicate WalkPath(size: int, path: seq<Coord>)
  {
    && |path| >= 1
    && path[0].row == size - 1
    && AllInGrid(size, path)
    && Distinct(path)
    && RowsNonIncreasing(path)
    && EachStepsFromEarlier(path)
  }

  /** A path of a walk that reached the top: its last entry, and only that
      one, lies in row 0. */
  predicate ReachedPath(size: int, path: seq<Coord>)
  {
    && WalkPath(size, path)
    && path[|path| - 1].row == 0
    && (forall j :: 0 <= j < |path| - 1 ==> path[j].row > 0)
  }

  /** The state of an unfinished walk: a recorded path together with the
      walker's position, which is itself recorded and lies in the lowest row
      reached so far. */
  predicate WalkState(size: int, path: seq<Coord>, row: int, col: int)
  {
    && WalkPath(size, path)
    && Coord(row, col) in path
    && (forall j :: 0 <= j < |path| ==> path[j].row >= row)
    && (row == 0 ==> ReachedPath(size, path))
  }

  /** Appending a new cell one step from an entry, in a row no lower than
      any recorded one, keeps a walk path. */
  lemma AppendKeepsWalkPath(size: int, path: seq<Coord>, k: nat, next: Coord)
    requires WalkPath(size, path) && k < |path| && Step(path[k], next)
    requires InGrid(size, next) && next !in path
    requires forall j :: 0 <= j < |path| ==> path[j].row >= next.row
    ensures WalkPath(size, path + [next])
  {
    var p := path + [next];
    assert p[..|path|] == path;
    assert StepsFrom(p[..|path|], p[|path|]);
    forall j | 0 < j < |path| ensures StepsFrom(p[..j], p[j]) {
      assert p[..j] == path[..j];
    }
  }

  /** One move of the walker keeps the walk state. */
  lemma StepKeepsState(size: int, path: seq<Coord>, row: int, col: int, next: Coord)
    requires WalkState(size, path, row, col) && row > 0
    requires next in Moves(size, row, col)
    ensures WalkState(size, if next in path then path else path + [next], next.row, next.col)
  {
    var k :| 0 <= k < |path| && path[k] == Coord(row, col);
    assert InGrid(size, path[k]);
    var m := Moves(size, row, col);
    var i :| 0 <= i < |m| && m[i] == next;
    assert Step(path[k], next);
    assert InGrid(size, next);
    if next !in path {
      AppendKeepsWalkPath(size, path, k, next);
      AppendKeepsState(size, path, next);
    } else {
      assert next.row > 0;
    }
  }

  /** The bookkeeping half of StepKeepsState for a newly recorded cell. */
  lemma AppendKeepsState(size: int, path: seq<Coord>, next: Coord)
    requires WalkPath(size, path + [next]) && next.row >= 0
    requires forall j :: 0 <= j < |path| ==> path[j].row >= next.row + (if next.row == 0 then 1 else 0)
    ensures WalkState(size, path + [next], next.row, next.col)
  {
    var p := path + [next];
    assert p[|path|] == next;
    assert forall j :: 0 <= j < |path| ==> p[j] == path[j];
  }

  /** Every walk keeps the walk state to its end; a walk that ends at row 0
      has a reached path. */
  lemma {:induction false} WalkKeepsState(size: int, path: seq<Coord>, row: int, col: int, choices: seq<nat>)
    requires WalkState(size, path, row, col)
    ensures WalkPath(size, Walk(size, row, col, path, choices).path)
    ensures Walk(size, row, col, path, choices).path[0] == path[0]
    ensures Walk(size, row, col, path, choices).Reached? ==> ReachedPath(size, Walk(size, row, col, path, choices).path)
    decreases |choices|
  {
    if row > 0 && choices != [] {
      var moves := Moves(size, row, col);
      if choices[0] < |moves| {
        var next := moves[choices[0]];
        StepKeepsState(size, path, row, col, next);
        var path' := if next in path then path else path + [next];
        WalkKeepsState(size, path', next.row, next.col, choices[1..]);
      }
    }
  }

  /** The properties of every run from a bottom-row column. */
  lemma RunProperties(size: int, startCol: int, choices: seq<nat>)
    requires 0 <= startCol < size
    ensures WalkPath(size, Run(size, startCol, choices).path)
    ensures Run(size, startCol, choices).path[0] == Coord(size - 1, startCol)
    ensures Run(size, startCol, choices).Reached? ==> ReachedPath(size, Run(size, startCol, choices).path)
  {
    WalkKeepsState(size, [Coord(size - 1, startCol)], size - 1, startCol, choices);
  }

  /** One step of a walk that is below row 0 and has a valid draw left. */
  lemma WalkStep(size: int, row: int, col: int, path: seq<Coord>, choices: seq<nat>)
    requires row > 0 && choices != [] && choices[0] < |Moves(size, row, col)|
    ensures var next := Moves(size, row, col)[choices[0]];
      Walk(size, row, col, path, choices)
      == Walk(size, next.row, next.col, if next in path then path else path + [next], choices[1..])
  {
  }

  /** The walk loop of `buildGrid`. Starts at (size - 1, startCol) and draws
      one move per iteration while the walker is below row 0. */
  method BuildPath(size: int, startCol: int, choices: seq<nat>) returns (res: WalkResult)
    requires 0 <= startCol < size
    ensures res == Run(size, startCol, choices)
    ensures WalkPath(size, res.path) && res.path[0] == Coord(size - 1, startCol)
    ensures res.Reached? ==> ReachedPath(size, res.path)
  {
    RunProperties(size, startCol, choices);
    var path := [Coord(size - 1, startCol)];
    var row, col := size - 1, startCol;
    var i := 0;
    while row > 0
      invariant 0 <= i <= |choices|
      invariant Walk(size, row, col, path, choices[i..]) == Run(size, startCol, choices)
      decreases |choices| - i
    {
      if i == |choices| {
        return OutOfChoices(path);
      }
      var moves := Moves(size, row, col);
      if choices[i] >= |moves| {
        return BadChoice(path);
      }
      var next := moves[choices[i]];
      assert choices[i..][1..] == choices[i + 1..];
      WalkStep(size, row, col, path, choices[i..]);
      row, col := next.row, next.col;
      if next !in path {
        path := path + [next];
      }
      i := i + 1;
    }
    res := Reached(path);
  }

  /** The draw that moves the walker straight up from column `col`. */
  function UpChoice(size: int, col: int): nat
  {
    |Moves(size, 0, col)| - 1
  }

  /** From any row, always drawing "up" reaches row 0 after exactly `row`
      draws: some finite sequence of draws ends every walk. */
  lemma {:induction false} UpwardsReaches(size: int, row: nat, col: int, path: seq<Coord>)
    ensures Walk(size, row, col, path, seq(row, _ => UpChoice(size, col))).Reached?
    decreases row
  {
    var cs := seq(row, _ => UpChoice(size, col));
    if row > 0 {
      var m := Moves(size, row, col);
      assert |m| == |Moves(size, 0, col)|;
      assert cs[0] == |m| - 1 && m[cs[0]] == Coord(row - 1, col);
      assert cs[1..] == seq(row - 1, _ => UpChoice(size, col));
      var next := Coord(row - 1, col);
      UpwardsReaches(size, row - 1, col, if next in path then path else path + [next]);
    }
  }

  /** The walk has no bound on its length: on a grid at least two wide,
      always drawing the first candidate moves sideways forever and never
      reaches row 0, however many draws are made. */
  lemma {:induction false} SidewaysNeverReaches(size: int, row: int, col: int, path: seq<Coord>, n: nat)
    requires size >= 2 && row > 0 && 0 <= col < size
    ensures Walk(size, row, col, path, seq(n, _ => 0)).OutOfChoices?
    decreases n
  {
    var cs: seq<nat> := seq(n, _ => 0);
    if n > 0 {
      var next := Moves(size, row, col)[0];
      assert next.row == row && 0 <= next.col < size;
      assert cs[1..] == seq(n - 1, _ => 0);
      SidewaysNeverReaches(size, row, next.col, if next in path then path else path + [next], n - 1);
    }
  }

  /** A 3-wide walk from column 1 that steps left, back right (a revisit,
      not recorded), right again and then up twice: the draws 0, 0, 1, 1, 1. */
  predicate IsDetourChoices(cs: seq<nat>)
  {
    |cs| == 5 && cs[0] == 0 && cs[1] == 0 && cs[2] == 1 && cs[3] == 1 && cs[4] == 1
  }

  /** The path that walk records: (2,1) (2,0) (2,2) (1,2) (0,2). */
  predicate IsDetourPath(p: seq<Coord>)
  {
    && |p| == 5
    && p[0] == Coord(2, 1) && p[1] == Coord(2, 0) && p[2] == Coord(2, 2)
    && p[3] == Coord(1, 2) && p[4] == Coord(0, 2)
  }

  /** The first two draws of the detour walk: left, then back right onto the
      start cell, which is not recorded again. */
  lemma DetourStart(p: seq<Coord>, cs: seq<nat>)
    requires IsDetourPath(p) && IsDetourChoices(cs)
    ensures Run(3, 1, cs) == Walk(3, 2, 1, p[..2], cs[2..])
  {
    assert p[..1] == [Coord(2, 1)];
    assert p[..2] == p[..1] + [p[1]];
    assert Moves(3, 2, 1)[0] == p[1] && p[1] !in p[..1];
    assert Moves(3, 2, 0)[0] == p[0] && p[0] in p[..2];
    assert cs[1..][0] == 0 && cs[1..][1..] == cs[2..];
    calc {
      Run(3, 1, cs);
      Walk(3, 2, 1, p[..1], cs);
      Walk(3, 2, 0, p[..2], cs[1..]);
      Walk(3, 2, 1, p[..2], cs[2..]);
    }
  }

  /** The detour walk records (2,0) and (2,2) next to each other although
      they are two columns apart. */
  lemma NonAdjacentEntries(p: seq<Coord>, cs: seq<nat>)
    requires IsDetourPath(p) && IsDetourChoices(cs)
    ensures Run(3, 1, cs) == Reached(p)
    ensures !Step(p[1], p[2]) && !Step(p[2], p[1])
  {
    DetourStart(p, cs);
    assert p[..3] == p[..2] + [p[2]] && p[..4] == p[..3] + [p[3]] && p == p[..4] + [p[4]];
    assert Moves(3, 2, 1)[1] == p[2] && p[2] !in p[..2];
    assert Moves(3, 2, 2)[1] == p[3] && p[3] !in p[..3];
    assert Moves(3, 1, 2)[1] == p[4] && p[4] !in p[..4];
    assert cs[2..][0] == 1 && cs[2..][1..] == cs[3..];
    assert cs[3..][0] == 1 && cs[3..][1..] == cs[4..];
    assert cs[4..][0] == 1 && cs[4..][1..] == [];
    calc {
      Walk(3, 2, 1, p[..2], cs[2..]);
      Walk(3, 2, 2, p[..3], cs[3..]);
      Walk(3, 1, 2, p[..4], cs[4..]);
      Walk(3, 0, 2, p, []);
    }
  }
}
