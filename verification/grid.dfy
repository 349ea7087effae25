/** The level grid: fixed 50x50 tiles stored row-major, the MOVE/DIRECTIONS
    tables, the key table of the input poll, and the `sign` helper. */
module Grid {
  import opened Wrappers

  /** Tile size of the level (LEVEL_WIDTH, LEVEL_HEIGHT). */
  const LevelWidth: int := 50
  const LevelHeight: int := 50
  const Cells: int := 2500

  /** Pixel size of a tile: 48 in Pizza Quest, 24 in Olinland Redux. */
  const PizzaTileSize: int := 48
  const ReduxTileSize: int := 24

  datatype Dir = Left | Right | Up | Down

  /** The MOVE table: the unit step of each facing. */
  function Delta(d: Dir): (int, int)
  {
    match d
    case Left => (-1, 0)
    case Right => (1, 0)
    case Up => (0, -1)
    case Down => (0, 1)
  }

  /** The DIRECTIONS table: the facing whose step is (dx, dy); the source's
      dictionary has no entry (a KeyError) for any other vector. */
  function DirectionOf(dx: int, dy: int): (r: Option<Dir>)
    ensures r.Some? ==> Delta(r.value) == (dx, dy)
    ensures r.None? ==> forall d: Dir :: Delta(d) != (dx, dy)
  {
    if (dx, dy) == (-1, 0) then Some(Left)
    else if (dx, dy) == (1, 0) then Some(Right)
    else if (dx, dy) == (0, -1) then Some(Up)
    else if (dx, dy) == (0, 1) then Some(Down)
    else None
  }

  /** Looking up a facing's own step in DIRECTIONS gives the facing back. */
  lemma DirectionsInvertsMove(d: Dir)
    ensures DirectionOf(Delta(d).0, Delta(d).1) == Some(d)
  {
  }

  /** Facings are told apart by their steps. */
  lemma DeltaInjective(d1: Dir, d2: Dir)
    ensures Delta(d1) == Delta(d2) <==> d1 == d2
  {
  }

  function Abs(x: int): (r: int)
    ensures r >= 0 && (r == x || r == -x)
  {
    if x < 0 then -x else x
  }

  function Max(a: int, b: int): (r: int)
    ensures r >= a && r >= b && (r == a || r == b)
  {
    if a < b then b else a
  }

  /** `sign(x) = (x > 0) - (x < 0)`, with Python booleans counted as 0/1. */
  function Sign(x: int): (r: int)
    ensures -1 <= r <= 1
    ensures r * x == Abs(x)
    ensures r == 0 <==> x == 0
  {
    (if x > 0 then 1 else 0) - (if x < 0 then 1 else 0)
  }

  /** Scalar product of a step with an offset: how far the step goes towards it. */
  function Dot(v: (int, int), dx: int, dy: int): int
  {
    v.0 * dx + v.1 * dy
  }

  /** Commands the input poll recognises. */
  datatype Command = Quit | Go(d: Dir) | Take | Interact | Shoot | NoCommand

  /** The key tests of the input poll: 'q' quits, a MOVE key (arrow names or
      w/a/s/d) moves, 'f' takes, 'e' interacts, 'space' shoots. */
  function KeyCommand(key: string): (r: Command)
    ensures r.Go? <==> key in {"Left", "Right", "Up", "Down", "a", "d", "w", "s"}
    ensures r.Go? ==> (key == "Left" || key == "a") == (r.d == Left)
    ensures r.Go? ==> (key == "Right" || key == "d") == (r.d == Right)
    ensures r.Go? ==> (key == "Up" || key == "w") == (r.d == Up)
    ensures r == Quit <==> key == "q"
    ensures r == Take <==> key == "f"
    ensures r == Interact <==> key == "e"
    ensures r == Shoot <==> key == "space"
  {
    if key == "q" then Quit
    else if key == "Left" || key == "a" then Go(Left)
    else if key == "Right" || key == "d" then Go(Right)
    else if key == "Up" || key == "w" then Go(Up)
    else if key == "Down" || key == "s" then Go(Down)
    else if key == "f" then Take
    else if key == "e" then Interact
    else if key == "space" then Shoot
    else NoCommand
  }

  predicate InBounds(x: int, y: int)
  {
    0 <= x < LevelWidth && 0 <= y < LevelHeight
  }

  /** `Level._pos`: the row-major index of tile (x, y). */
  function Pos(x: int, y: int): (i: int)
    ensures InBounds(x, y) ==> 0 <= i < Cells
  {
    x + y * LevelWidth
  }

  /** `Level.ind_to_pos`: the pixel corner of the tile at index `ind`. */
  function IndToPos(ind: int, tileSize: int): (int, int)
  {
    var x := ind % LevelWidth;
    var y := (ind - x) / LevelWidth;
    (x * tileSize, y * tileSize)
  }

  /** Distinct on-grid tiles have distinct indices. */
  lemma PosInjective(x1: int, y1: int, x2: int, y2: int)
    requires InBounds(x1, y1) && InBounds(x2, y2)
    ensures Pos(x1, y1) == Pos(x2, y2) <==> (x1, y1) == (x2, y2)
  {
  }

  /** `ind_to_pos` undoes `_pos` for every column 0 <= x < LEVEL_WIDTH and every row. */
  lemma IndToPosInvertsPos(x: int, y: int, tileSize: int)
    requires 0 <= x < LevelWidth
    ensures IndToPos(Pos(x, y), tileSize) == (x * tileSize, y * tileSize)
  {
  }

  /** Every index of the map is `_pos` of exactly the on-grid tile `ind_to_pos` names. */
  lemma PosInvertsIndToPos(i: int, tileSize: int)
    requires 0 <= i < Cells
    ensures InBounds(i % LevelWidth, i / LevelWidth)
    ensures Pos(i % LevelWidth, i / LevelWidth) == i
    ensures IndToPos(i, tileSize) == ((i % LevelWidth) * tileSize, (i / LevelWidth) * tileSize)
  {
  }

  /** The static terrain of a level: its codes, plus the UNWALKABLES and
      FLAMMABLES classification sets, which come from level data. */
  datatype Terrain = Terrain(codes: seq<int>, unwalkable: set<int>, flammable: set<int>)

  predicate WellSized(t: Terrain)
  {
    |t.codes| == Cells
  }

  /** `Level.tile`: the code of an on-grid tile. */
  function Tile(t: Terrain, x: int, y: int): int
    requires WellSized(t) && InBounds(x, y)
  {
    t.codes[Pos(x, y)]
  }

  /** Fire consuming a flammable tile: its code becomes 0 (empty ground); no other tile changes. */
  function Scorch(t: Terrain, x: int, y: int): (r: Terrain)
    requires WellSized(t) && InBounds(x, y)
    ensures WellSized(r) && Tile(r, x, y) == 0
    ensures r.unwalkable == t.unwalkable && r.flammable == t.flammable
    ensures forall x', y' :: InBounds(x', y') && (x', y') != (x, y) ==> Tile(r, x', y') == Tile(t, x', y')
  {
    var r := t.(codes := t.codes[Pos(x, y) := 0]);
    assert forall x', y' :: InBounds(x', y') && (x', y') != (x, y) ==> Pos(x', y') != Pos(x, y) by {
      forall x', y' | InBounds(x', y') && (x', y') != (x, y)
        ensures Pos(x', y') != Pos(x, y)
      {
        PosInjective(x', y', x, y);
      }
    }
    r
  }
}
