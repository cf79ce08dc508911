/** A move of the sliding-tile puzzle: which tile slides, and in which direction. */
module Action {
  import opened JavaLang
  import opened Tile

  datatype Direction = UP | DOWN | RIGHT | LEFT

  /** `Direction.values()`, in declaration order. */
  const Directions: seq<Direction> := [UP, DOWN, RIGHT, LEFT]

  /** The enum constant's name, as `Direction.toString` gives it. */
  function DirectionName(d: Direction): string {
    match d
    case UP => "UP"
    case DOWN => "DOWN"
    case RIGHT => "RIGHT"
    case LEFT => "LEFT"
  }

  /** Tile and direction are fixed at construction: the type has no other state. */
  datatype Action = Action(tile: Tile, direction: Direction) {

    /** `getTile`. */
    function GetTile(): (t: Tile)
      ensures Action(t, direction) == this
    {
      tile
    }

    /** `getDirection`. */
    function GetDirection(): (d: Direction)
      ensures Action(tile, d) == this
    {
      direction
    }

    /** `toString`: "Move <value> <direction in lower case>". */
    function ToString(): string {
      "Move " + IntToString(tile.value) + " " + ToLowerAscii(DirectionName(direction))
    }
  }

  lemma DirectionNamesLower()
    ensures ToLowerAscii(DirectionName(UP)) == "up"
    ensures ToLowerAscii(DirectionName(DOWN)) == "down"
    ensures ToLowerAscii(DirectionName(RIGHT)) == "right"
    ensures ToLowerAscii(DirectionName(LEFT)) == "left"
  {
  }

  /** Index of the first space of `s`, or `|s|` when there is none. */
  function SpaceIndex(s: string): (i: nat)
    ensures i <= |s|
  {
    if s == [] || s[0] == ' ' then 0 else 1 + SpaceIndex(s[1..])
  }

  lemma {:induction false} SpaceIndexAfter(p: string, rest: string)
    requires forall i :: 0 <= i < |p| ==> p[i] != ' '
    ensures SpaceIndex(p + " " + rest) == |p|
  {
    if p != [] {
      assert (p + " " + rest)[1..] == p[1..] + " " + rest;
      SpaceIndexAfter(p[1..], rest);
    }
  }

  lemma SplitPrinted(p: string, x: string, q: string, y: string)
    requires forall i :: 0 <= i < |p| ==> p[i] != ' '
    requires forall i :: 0 <= i < |q| ==> q[i] != ' '
    requires "Move " + p + " " + x == "Move " + q + " " + y
    ensures p == q && x == y
  {
    var t := ("Move " + p + " " + x)[5..];
    assert t == p + " " + x;
    assert t == q + " " + y;
    SpaceIndexAfter(p, x);
    SpaceIndexAfter(q, y);
    assert p == t[..|p|] == q;
    assert x == t[|p| + 1..] == y;
  }

  /** The printed form determines the action: tile value and direction can be read back. */
  lemma ToStringInjective(a: Action, b: Action)
    requires a.ToString() == b.ToString()
    ensures a == b
  {
    var p, q := IntToString(a.tile.value), IntToString(b.tile.value);
    SplitPrinted(p, ToLowerAscii(DirectionName(a.direction)), q, ToLowerAscii(DirectionName(b.direction)));
    ParseIntOfIntToString(a.tile.value);
    ParseIntOfIntToString(b.tile.value);
    DirectionNamesLower();
  }
}
