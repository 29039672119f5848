/** The page's module-level state: the grid, `gameActive`, the countdown
    `timeLeft` and its one-second interval timer, with the handlers that change
    them. */
module Session {
  import opened Tiles
  import opened PathWalk
  import opened Board

  /** `gameActive`, `timeLeft`, and whether the interval timer is set. */
  datatype Clock = Clock(active: bool, timeLeft: int, running: bool)

  /** One firing of the interval callback. A cleared interval never fires;
      an inactive game ignores the tick; the tick that brings the countdown
      to zero or below clears the interval and ends the game. */
  function TickClock(k: Clock): (k': Clock)
    ensures !k.running || !k.active ==> k' == k
    ensures k.running && k.active ==> k'.timeLeft == k.timeLeft - 1
    ensures k.running && k.active ==> (k'.active <==> k'.timeLeft > 0) && k'.running == k'.active
  {
    if !k.running || !k.active then k
    else if k.timeLeft - 1 <= 0 then Clock(false, k.timeLeft - 1, false)
    else Clock(true, k.timeLeft - 1, true)
  }

  /** `n` firings of the interval callback. */
  function Ticks(k: Clock, n: nat): Clock
    decreases n
  {
    if n == 0 then k else TickClock(Ticks(k, n - 1))
  }

  /** A countdown started at `limit` stays active for `limit - 1` ticks, ends
      the game on tick `limit` with the countdown at zero, and then stays
      ended: the game is over exactly once. */
  lemma {:induction false} CountdownExpiresOnce(limit: int, n: nat)
    requires limit >= 1
    ensures Ticks(Clock(true, limit, true), n)
         == if n < limit then Clock(true, limit - n, true) else Clock(false, 0, false)
    decreases n
  {
    if n > 0 {
      CountdownExpiresOnce(limit, n - 1);
    }
  }

  /** Resetting does not restore `timeLeft`: a game reset after its countdown
      ran out ends again at the very next tick. */
  lemma StaleCountdownEndsAtOnce(timeLeft: int)
    requires timeLeft <= 1
    ensures Ticks(Clock(true, timeLeft, true), 1) == Clock(false, timeLeft - 1, false)
  {
  }

  /** The three difficulties a player can choose. */
  datatype Level = Easy | Normal | Hard

  /** The grid size and the seconds allowed at each difficulty. */
  function Difficulty(level: Level): (d: (nat, int))
    ensures 4 <= d.0 <= 8 && 30 <= d.1 <= 60
    ensures level == Easy <==> d.0 == 4
  {
    match level
    case Easy => (4, 60)
    case Normal => (6, 45)
    case Hard => (8, 30)
  }

  class Game {
    var difficulty: Level
    var size: nat
    var tiles: Grid
    var active: bool
    var timeLeft: int
    var timerRunning: bool

    ghost predicate Valid()
      reads this
    {
      IsGrid(tiles, size) && WellFormed(tiles)
    }

    function Countdown(): Clock
      reads this
    {
      Clock(active, timeLeft, timerRunning)
    }

    /** The initial load: the easy difficulty's size and time, an active
        game, then `resetGame`. */
    constructor (startCol: nat, choices: seq<nat>, draws: seq<seq<Draw>>)
      requires startCol < 4 && Run(4, startCol, choices).Reached? && ValidDraws(draws, 4)
      ensures Valid()
      ensures difficulty == Easy && size == 4 && timeLeft == 60 && active && timerRunning
      ensures ReachedPath(4, Run(4, startCol, choices).path)
      ensures tiles == Layout(4, Run(4, startCol, choices).path, draws)
    {
      difficulty := Easy;
      size := Difficulty(Easy).0;
      timeLeft := Difficulty(Easy).1;
      active := true;
      tiles := [];
      timerRunning := false;
      new;
      Reset(startCol, choices, draws);
    }

    /** `setDifficulty`: the chosen level's size and time, then `resetGame`. */
    method SetDifficulty(level: Level, startCol: nat, choices: seq<nat>, draws: seq<seq<Draw>>)
      requires startCol < Difficulty(level).0 && ValidDraws(draws, Difficulty(level).0)
      requires Run(Difficulty(level).0, startCol, choices).Reached?
      modifies this
      ensures Valid()
      ensures difficulty == level && size == Difficulty(level).0 && timeLeft == Difficulty(level).1
      ensures active && timerRunning
      ensures ReachedPath(size, Run(size, startCol, choices).path)
      ensures tiles == Layout(size, Run(size, startCol, choices).path, draws)
    {
      difficulty := level;
      size := Difficulty(level).0;
      timeLeft := Difficulty(level).1;
      Reset(startCol, choices, draws);
    }

    /** `buildGrid`: the walk, then the placement. It returns only once the
        walk has reached row 0, which is what the requires states of the
        draws. */
    method BuildGrid(startCol: nat, choices: seq<nat>, draws: seq<seq<Draw>>)
      requires startCol < size && Run(size, startCol, choices).Reached? && ValidDraws(draws, size)
      modifies this`tiles
      ensures Valid()
      ensures ReachedPath(size, Run(size, startCol, choices).path)
      ensures tiles == Layout(size, Run(size, startCol, choices).path, draws)
    {
      RunProperties(size, startCol, choices);
      var walk := BuildPath(size, startCol, choices);
      tiles := PlaceTiles(size, walk.path, draws);
      LayoutWellFormed(size, walk.path, draws);
    }

    /** `resetGame`: activates the game, builds a new grid and restarts the
        interval timer. The countdown keeps its value. */
    method Reset(startCol: nat, choices: seq<nat>, draws: seq<seq<Draw>>)
      requires startCol < size && Run(size, startCol, choices).Reached? && ValidDraws(draws, size)
      modifies this`active, this`tiles, this`timerRunning
      ensures Valid()
      ensures active && timerRunning && timeLeft == old(timeLeft)
      ensures ReachedPath(size, Run(size, startCol, choices).path)
      ensures tiles == Layout(size, Run(size, startCol, choices).path, draws)
    {
      active := true;
      BuildGrid(startCol, choices, draws);
      timerRunning := true;
    }

    /** `gameOver`: the game becomes inactive. */
    method GameOver()
      modifies this`active
      ensures !active
    {
      active := false;
    }

    /** One firing of the interval callback of `startTimer`. */
    method Tick()
      modifies this`active, this`timeLeft, this`timerRunning
      ensures Countdown() == TickClock(old(Countdown()))
    {
      if !timerRunning {
        return;
      }
      if !active {
        return;
      }
      timeLeft := timeLeft - 1;
      if timeLeft <= 0 {
        timerRunning := false;
        GameOver();
      }
    }

    /** `checkFlow`: nothing while the game is inactive; otherwise the
        puzzle is solved iff every tile with a solution shows it, and a solved
        puzzle has its decoys hidden. */
    method CheckFlow() returns (solvedNow: bool)
      requires Valid()
      modifies this`tiles
      ensures Valid()
      ensures solvedNow == (old(active) && Solved(old(tiles)))
      ensures tiles == if solvedNow then HideDecoys(old(tiles)) else old(tiles)
    {
      if !active {
        return false;
      }
      solvedNow := ScanSolved(tiles, size);
      if solvedNow {
        HideDecoysEffect(tiles);
        tiles := HideNonPath(tiles, size);
      }
    }

    /** `submitSolution`: the same check, with a message instead of the
        reveal; it changes no tile. */
    method SubmitSolution() returns (solvedNow: bool)
      requires Valid()
      ensures solvedNow == (active && Solved(tiles))
    {
      if !active {
        return false;
      }
      solvedNow := ScanSolved(tiles, size);
    }

    /** A click on the tile at (r, c). A visible pipe turns a quarter and the
        win check runs; the source and target have no click handler and a
        hidden tile receives no clicks. The turn happens whether or not the
        game is active. */
    method Click(r: nat, c: nat) returns (solvedNow: bool)
      requires Valid() && r < size && c < size
      modifies this`tiles
      ensures Valid()
      ensures var turned := RotateAt(old(tiles), r, c);
        if old(tiles)[r][c].kind.Pipe? && !old(tiles)[r][c].hidden then
          && solvedNow == (active && Solved(turned))
          && tiles == (if solvedNow then HideDecoys(turned) else turned)
        else
          !solvedNow && tiles == old(tiles)
    {
      if tiles[r][c].kind.Pipe? && !tiles[r][c].hidden {
        RotateAtEffect(tiles, r, c);
        tiles := RotateAt(tiles, r, c);
        solvedNow := CheckFlow();
      } else {
        solvedNow := false;
      }
    }

    /** `showHint`: hides `floor(n / 2)` different decoys, n being the number
        of decoys, and nothing else; it does not look at `gameActive`. */
    method ShowHint(picks: seq<nat>) returns (hidden: seq<Coord>)
      requires Valid() && ValidPicks(|DecoyList(tiles)|, picks)
      modifies this`tiles
      ensures Valid()
      ensures tiles == HideCells(old(tiles), hidden)
      ensures hidden == Drawn(DecoyList(old(tiles)), picks, |DecoyList(old(tiles))| / 2)
      ensures |hidden| == |DecoyList(old(tiles))| / 2 && Distinct(hidden)
      ensures forall i :: 0 <= i < |hidden| ==>
        var x := hidden[i]; 0 <= x.row < size && 0 <= x.col < size && IsDecoy(old(tiles)[x.row][x.col])
    {
      hidden := ChooseHint(tiles, size, picks);
      HideCellsEffect(tiles, hidden);
      tiles := HideCells(tiles, hidden);
    }
  }

  /** `p` is the path (3,2) (3,1) (2,1) (1,1) (0,1) of a 4 by 4 puzzle. */
  predicate IsExamplePath(p: seq<Coord>)
  {
    && |p| == 5
    && p[0] == Coord(3, 2) && p[1] == Coord(3, 1) && p[2] == Coord(2, 1)
    && p[3] == Coord(1, 1) && p[4] == Coord(0, 1)
  }

  /** `cs` is the list of draws left, up, up, up, as indices into the
      candidates offered at each position of the example walk. */
  predicate IsExampleChoices(cs: seq<nat>)
  {
    |cs| == 4 && cs[0] == 0 && cs[1] == 2 && cs[2] == 2 && cs[3] == 2
  }

  /** From column 2 of the bottom row of a 4 by 4 grid, the draws left, up,
      up, up carve the example path. */
  lemma ExampleWalk(p: seq<Coord>, cs: seq<nat>)
    requires IsExamplePath(p) && IsExampleChoices(cs)
    ensures Run(4, 2, cs) == Reached(p)
  {
    assert p[..1] == [Coord(3, 2)];
    assert p[..2] == p[..1] + [p[1]] && p[..3] == p[..2] + [p[2]];
    assert p[..4] == p[..3] + [p[3]] && p == p[..4] + [p[4]];
    assert Moves(4, 3, 2)[0] == p[1] && p[1] !in p[..1];
    assert Moves(4, 3, 1)[2] == p[2] && p[2] !in p[..2];
    assert Moves(4, 2, 1)[2] == p[3] && p[3] !in p[..3];
    assert Moves(4, 1, 1)[2] == p[4] && p[4] !in p[..4];
    assert cs[1..][0] == 2 && cs[1..][1..] == cs[2..];
    assert cs[2..][0] == 2 && cs[2..][1..] == cs[3..];
    assert cs[3..][0] == 2 && cs[3..][1..] == [];
    calc {
      Run(4, 2, cs);
      Walk(4, 3, 2, p[..1], cs);
      Walk(4, 3, 1, p[..2], cs[1..]);
      Walk(4, 2, 1, p[..3], cs[2..]);
      Walk(4, 1, 1, p[..4], cs[3..]);
      Walk(4, 0, 1, p, []);
    }
  }

  /** The example path is therefore a finished walk. */
  lemma ExamplePathReached(p: seq<Coord>)
    requires IsExamplePath(p)
    ensures ReachedPath(4, p)
  {
    ExampleWalk(p, [0, 2, 2, 2]);
    RunProperties(4, 2, [0, 2, 2, 2]);
  }

  /** The tiles of the example puzzle: the source at (3,2), the target at
      (0,1), an elbow solved at 0 at (3,1) where the path turns from the left
      to up, and straights solved at 90 at (2,1) and (1,1), which the art
      draws horizontal across the vertical path. */
  lemma {:induction false} ExamplePuzzle(p: seq<Coord>, draws: seq<seq<Draw>>)
    requires IsExamplePath(p) && ValidDraws(draws, 4)
    ensures ReachedPath(4, p)
    ensures TileAt(4, p, draws, 3, 2).kind == Source
    ensures TileAt(4, p, draws, 0, 1).kind == Target
    ensures TileAt(4, p, draws, 3, 1).kind == Pipe(Elbow)
    ensures TileAt(4, p, draws, 3, 1).solution == Some(0)
    ensures TileAt(4, p, draws, 2, 1).kind == Pipe(Straight)
    ensures TileAt(4, p, draws, 2, 1).solution == Some(90)
    ensures TileAt(4, p, draws, 1, 1).kind == Pipe(Straight)
    ensures TileAt(4, p, draws, 1, 1).solution == Some(90)
  {
    ExamplePathReached(p);
    assert IndexOf(p, Coord(3, 1)) == 1;
    assert IndexOf(p, Coord(2, 1)) == 2;
    assert IndexOf(p, Coord(1, 1)) == 3;
    PathCellTile(4, p, draws, 3, 1);
    PathCellTile(4, p, draws, 2, 1);
    PathCellTile(4, p, draws, 1, 1);
  }
}
