/** Pipe shapes, rotations and the classifier that picks a path tile's shape
    and solution rotation from the directions to its two path neighbours. */
module Tiles {

  /** A grid position, or the difference of two positions, in (row, column)
      order. Rows grow downwards, columns to the right. */
  datatype Coord = Coord(row: int, col: int)

  /** The vector from `from` to `to`. */
  function Delta(from: Coord, to: Coord): (d: Coord)
    ensures Coord(from.row + d.row, from.col + d.col) == to
  {
    Coord(to.row - from.row, to.col - from.col)
  }

  /** The four unit steps: up, right, down and left. */
  predicate IsUnit(d: Coord)
  {
    d == Coord(-1, 0) || d == Coord(0, 1) || d == Coord(1, 0) || d == Coord(0, -1)
  }

  datatype Shape = Straight | Elbow

  /** The tile types offered for a decoy, indexed by a random draw. */
  const TileTypes: seq<Shape> := [Straight, Elbow]

  /** The displayable rotations in degrees, indexed by a random draw. */
  const Rotations: seq<nat> := [0, 90, 180, 270]

  predicate IsRotation(r: int)
  {
    r == 0 || r == 90 || r == 180 || r == 270
  }

  lemma RotationsAreRotations(i: nat)
    requires i < 4
    ensures IsRotation(Rotations[i])
  {
  }

  /** One click: a clockwise quarter turn, `(rot + 90) % 360`. The operand is
      never negative, so the remainder agrees with JavaScript's `%`. */
  function Rotate(rot: nat): (r: nat)
    ensures r < 360
    ensures IsRotation(rot) ==> IsRotation(r) && r != rot
    ensures rot < 360 ==> r == if rot < 270 then rot + 90 else rot - 270
  {
    (rot + 90) % 360
  }

  /** `n` successive clicks. */
  function RotateTimes(rot: nat, n: nat): (r: nat)
    decreases n
  {
    if n == 0 then rot else Rotate(RotateTimes(rot, n - 1))
  }

  /** Four clicks bring any displayed rotation back to where it started. */
  lemma RotateFourTimes(rot: nat)
    requires rot < 360
    ensures RotateTimes(rot, 4) == rot
    ensures RotateTimes(rot, 1) != rot && RotateTimes(rot, 2) != rot && RotateTimes(rot, 3) != rot
  {
    var r1 := Rotate(rot);
    var r2 := Rotate(r1);
    var r3 := Rotate(r2);
    assert r1 == if rot < 270 then rot + 90 else rot - 270;
    assert r2 == if rot < 180 then rot + 180 else rot - 180;
    assert r3 == if rot < 90 then rot + 270 else rot - 90;
    assert RotateTimes(rot, 1) == r1;
    assert RotateTimes(rot, 2) == r2;
    assert RotateTimes(rot, 3) == r3;
  }

  /** The number of clicks that takes rotation `from` to rotation `to`. */
  function ClicksNeeded(from: nat, to: nat): nat
    requires IsRotation(from) && IsRotation(to)
  {
    Quarters(if from <= to then to - from else to + 360 - from)
  }

  /** The number of quarter turns in a rotation. */
  function Quarters(rot: nat): (k: nat)
    requires IsRotation(rot)
    ensures k < 4 && Rotations[k] == rot
  {
    if rot == 0 then 0 else if rot == 90 then 1 else if rot == 180 then 2 else 3
  }

  /** Every tile can be brought to any of the four rotations, in particular to
      its solution, with at most three clicks. */
  lemma ClicksReachSolution(from: nat, to: nat)
    requires IsRotation(from) && IsRotation(to)
    ensures ClicksNeeded(from, to) < 4
    ensures RotateTimes(from, ClicksNeeded(from, to)) == to
  {
    var r1 := Rotate(from);
    var r2 := Rotate(r1);
    var r3 := Rotate(r2);
    assert r1 == if from < 270 then from + 90 else from - 270;
    assert r2 == if from < 180 then from + 180 else from - 180;
    assert r3 == if from < 90 then from + 270 else from - 90;
    assert RotateTimes(from, 1) == r1;
    assert RotateTimes(from, 2) == r2;
    assert RotateTimes(from, 3) == r3;
  }

  /** A shape together with an orientation. */
  datatype Fit = Fit(shape: Shape, rotation: nat)

  /** Classifies a path cell that has both neighbours, from the vectors to the
      previous and to the next path entry. This is the rule of scripts.js:131-142
      with the straight's rotation corrected to the tile art: a straight at 0
      is drawn vertical, so two horizontal neighbours need 90 and two vertical
      ones 0. `ClassifyAsWritten` is the rule as the page has it. */
  function Classify(toPrev: Coord, toNext: Coord): (f: Fit)
    ensures IsRotation(f.rotation)
  {
    if (toPrev.row == 0 && toNext.row == 0) || (toPrev.col == 0 && toNext.col == 0) then
      Fit(Straight, if toPrev.row == 0 then 90 else 0)
    else if (toPrev.row == -1 && toNext.col == 1) || (toNext.row == -1 && toPrev.col == 1) then
      Fit(Elbow, 0)
    else if (toPrev.row == -1 && toNext.col == -1) || (toNext.row == -1 && toPrev.col == -1) then
      Fit(Elbow, 270)
    else if (toPrev.row == 1 && toNext.col == 1) || (toNext.row == 1 && toPrev.col == 1) then
      Fit(Elbow, 90)
    else
      Fit(Elbow, 180)
  }

  /** Classifies a path cell with a single neighbour: always a straight,
      vertical (0) towards a vertical neighbour and horizontal (90) towards a
      horizontal one. `ClassifyEndAsWritten` is the page's rule. */
  function ClassifyEnd(toNeighbour: Coord): (f: Fit)
    ensures f.shape == Straight && IsRotation(f.rotation)
  {
    if toNeighbour.row == 0 then Fit(Straight, 90) else Fit(Straight, 0)
  }

  /** The two-neighbour rule exactly as the page computes it: a straight gets
      0 when the first vector has zero row, that is for horizontal
      neighbours. */
  function ClassifyAsWritten(toPrev: Coord, toNext: Coord): (f: Fit)
    ensures IsRotation(f.rotation)
  {
    if (toPrev.row == 0 && toNext.row == 0) || (toPrev.col == 0 && toNext.col == 0) then
      Fit(Straight, if toPrev.row == 0 then 0 else 90)
    else if (toPrev.row == -1 && toNext.col == 1) || (toNext.row == -1 && toPrev.col == 1) then
      Fit(Elbow, 0)
    else if (toPrev.row == -1 && toNext.col == -1) || (toNext.row == -1 && toPrev.col == -1) then
      Fit(Elbow, 270)
    else if (toPrev.row == 1 && toNext.col == 1) || (toNext.row == 1 && toPrev.col == 1) then
      Fit(Elbow, 90)
    else
      Fit(Elbow, 180)
  }

  /** The one-neighbour rule exactly as the page computes it. */
  function ClassifyEndAsWritten(toNeighbour: Coord): (f: Fit)
    ensures f.shape == Straight && IsRotation(f.rotation)
  {
    if toNeighbour.row == 0 then Fit(Straight, 0) else Fit(Straight, 90)
  }

  /** Chooses between the page's two rules by how many neighbour vectors the
      path supplied. */
  function ClassifyDirs(dirs: seq<Coord>): (f: Fit)
    requires 1 <= |dirs| <= 2
    ensures IsRotation(f.rotation)
    ensures |dirs| == 1 ==> f.shape == Straight
  {
    if |dirs| == 2 then ClassifyAsWritten(dirs[0], dirs[1]) else ClassifyEndAsWritten(dirs[0])
  }

  /** The page's decision table, for arbitrary integer vectors. */
  lemma ClassifyTable(toPrev: Coord, toNext: Coord)
    ensures var f := ClassifyAsWritten(toPrev, toNext);
      && (f.shape == Straight <==>
            (toPrev.row == 0 && toNext.row == 0) || (toPrev.col == 0 && toNext.col == 0))
      && (f.shape == Straight ==> (f.rotation == 0 <==> toPrev.row == 0))
      && (f.shape == Straight ==> (f.rotation == 90 <==> toPrev.row != 0))
      && (f.shape == Elbow && toPrev == Coord(-1, 0) && toNext == Coord(0, 1) ==> f.rotation == 0)
      && (f.shape == Elbow && toPrev == Coord(-1, 0) && toNext == Coord(0, -1) ==> f.rotation == 270)
      && (f.shape == Elbow && toPrev == Coord(1, 0) && toNext == Coord(0, 1) ==> f.rotation == 90)
      && (f.shape == Elbow && toPrev == Coord(1, 0) && toNext == Coord(0, -1) ==> f.rotation == 180)
  {
  }

  /** Swapping the two vectors does not change the classification, as long as
      neither is the zero vector (a path never lists a cell twice, so the
      vectors to its neighbours are never zero). */
  lemma ClassifySymmetric(d0: Coord, d1: Coord)
    requires d0 != Coord(0, 0) && d1 != Coord(0, 0)
    ensures ClassifyAsWritten(d0, d1) == ClassifyAsWritten(d1, d0)
    ensures Classify(d0, d1) == Classify(d1, d0)
  {
  }

  /** With a zero vector the straight rotation depends on the order. */
  lemma ClassifyZeroVectorOrder()
    ensures Classify(Coord(0, 0), Coord(1, 0)) != Classify(Coord(1, 0), Coord(0, 0))
    ensures ClassifyAsWritten(Coord(0, 0), Coord(1, 0)) != ClassifyAsWritten(Coord(1, 0), Coord(0, 0))
  {
  }

  /** A clockwise quarter turn of a direction on screen. */
  function Turn(d: Coord): Coord
  {
    Coord(d.col, -d.row)
  }

  /** `d` turned clockwise `k` times, for up to three quarter turns. */
  function TurnTimes(d: Coord, k: nat): Coord
    requires k < 4
  {
    if k == 0 then d
    else if k == 1 then Turn(d)
    else if k == 2 then Turn(Turn(d))
    else Turn(Turn(Turn(d)))
  }

  /** The two openings of a shape at rotation 0, as the tile art draws it
      (scripts.js:33-35): the straight is a vertical bar, open up and down; the
      elbow has an arm up and an arm to the right. */
  function BaseOpenings(s: Shape): (Coord, Coord)
  {
    match s
    case Straight => (Coord(-1, 0), Coord(1, 0))
    case Elbow => (Coord(-1, 0), Coord(0, 1))
  }

  /** The two neighbours a tile connects to on screen: its base openings
      turned clockwise once per 90 degrees, as the CSS `rotate` does. */
  function Openings(f: Fit): (Coord, Coord)
    requires IsRotation(f.rotation)
  {
    var (a, b) := BaseOpenings(f.shape);
    var k := Quarters(f.rotation);
    (TurnTimes(a, k), TurnTimes(b, k))
  }

  /** `p` holds exactly the directions `a` and `b`, in either order. */
  predicate SameEnds(p: (Coord, Coord), a: Coord, b: Coord)
  {
    (p.0 == a && p.1 == b) || (p.0 == b && p.1 == a)
  }

  /** The openings of every shape and rotation, written out. */
  lemma OpeningsTable()
    ensures Openings(Fit(Straight, 0)) == (Coord(-1, 0), Coord(1, 0))
    ensures Openings(Fit(Straight, 90)) == (Coord(0, 1), Coord(0, -1))
    ensures Openings(Fit(Straight, 180)) == (Coord(1, 0), Coord(-1, 0))
    ensures Openings(Fit(Straight, 270)) == (Coord(0, -1), Coord(0, 1))
    ensures Openings(Fit(Elbow, 0)) == (Coord(-1, 0), Coord(0, 1))
    ensures Openings(Fit(Elbow, 90)) == (Coord(0, 1), Coord(1, 0))
    ensures Openings(Fit(Elbow, 180)) == (Coord(1, 0), Coord(0, -1))
    ensures Openings(Fit(Elbow, 270)) == (Coord(0, -1), Coord(-1, 0))
  {
  }

  /** For two different unit vectors, the classified tile opens towards
      exactly those two neighbours. */
  lemma ClassifyConnects(toPrev: Coord, toNext: Coord)
    requires IsUnit(toPrev) && IsUnit(toNext) && toPrev != toNext
    ensures SameEnds(Openings(Classify(toPrev, toNext)), toPrev, toNext)
  {
    OpeningsTable();
  }

  /** A single-neighbour cell's straight opens towards that neighbour. */
  lemma ClassifyEndConnects(toNeighbour: Coord)
    requires IsUnit(toNeighbour)
    ensures var p := Openings(ClassifyEnd(toNeighbour)); toNeighbour == p.0 || toNeighbour == p.1
  {
    OpeningsTable();
  }

  /** Any tile that opens towards exactly the two neighbours has the
      classified shape; an elbow also has the classified rotation, and a
      straight has it up to a half turn. */
  lemma ClassifyUnique(toPrev: Coord, toNext: Coord, f: Fit)
    requires IsUnit(toPrev) && IsUnit(toNext) && toPrev != toNext
    requires IsRotation(f.rotation) && SameEnds(Openings(f), toPrev, toNext)
    ensures f.shape == Classify(toPrev, toNext).shape
    ensures f.shape == Elbow ==> f.rotation == Classify(toPrev, toNext).rotation
    ensures f.shape == Straight ==> f.rotation % 180 == Classify(toPrev, toNext).rotation
  {
    OpeningsTable();
  }

  /** The page's rule differs from the corrected one only in the straights,
      which it turns a quarter: elbows agree, straights are off by 90. */
  lemma AsWrittenTurnsStraights(toPrev: Coord, toNext: Coord)
    ensures ClassifyAsWritten(toPrev, toNext).shape == Classify(toPrev, toNext).shape
    ensures Classify(toPrev, toNext).shape == Elbow ==> ClassifyAsWritten(toPrev, toNext) == Classify(toPrev, toNext)
    ensures Classify(toPrev, toNext).shape == Straight ==>
      ClassifyAsWritten(toPrev, toNext).rotation == 90 - Classify(toPrev, toNext).rotation
    ensures ClassifyEndAsWritten(toNext).rotation == 90 - ClassifyEnd(toNext).rotation
  {
  }

  /** As written, a straight on the path is drawn across it: for two
      different unit vectors classified as a straight, the tile opens towards
      neither neighbour. */
  lemma AsWrittenStraightCrossesPath(toPrev: Coord, toNext: Coord)
    requires IsUnit(toPrev) && IsUnit(toNext) && toPrev != toNext
    requires ClassifyAsWritten(toPrev, toNext).shape == Straight
    ensures var p := Openings(ClassifyAsWritten(toPrev, toNext));
      toPrev != p.0 && toPrev != p.1 && toNext != p.0 && toNext != p.1
  {
    OpeningsTable();
  }

  /** As written, a one-neighbour straight opens away from its neighbour. */
  lemma AsWrittenEndCrossesPath(toNeighbour: Coord)
    requires IsUnit(toNeighbour)
    ensures var p := Openings(ClassifyEndAsWritten(toNeighbour)); toNeighbour != p.0 && toNeighbour != p.1
  {
    OpeningsTable();
  }

  /** A cell between a neighbour below and one above: the page solves it at
      90, which draws a horizontal bar opening left and right. */
  lemma VerticalRunAsWritten()
    ensures ClassifyAsWritten(Coord(1, 0), Coord(-1, 0)) == Fit(Straight, 90)
    ensures Openings(Fit(Straight, 90)) == (Coord(0, 1), Coord(0, -1))
    ensures Classify(Coord(1, 0), Coord(-1, 0)) == Fit(Straight, 0)
  {
    OpeningsTable();
  }
}
