/** A numbered tile of the sliding-tile puzzle; 0 is the empty tile. */
module Tile {
  import opened JavaLang

  datatype Tile = Tile(value: int) {

    /** `getValue`: the number the tile was constructed with. */
    function GetValue(): (v: int)
      ensures Tile(v) == this
    {
      value
    }

    /** `equals(Object)`: only another tile with the same number is equal. */
    predicate Equals(other: JavaObject<Tile>)
    {
      other.Instance? && value == other.value.value
    }

    /** `hashCode`: `Integer.hashCode(value)`, the value itself. */
    function HashCode(): int {
      value
    }
  }

  lemma TileEqualsIff(t: Tile, other: JavaObject<Tile>)
    ensures t.Equals(other) <==> other == Instance(t)
  {
  }

  lemma EqualTilesHashEqual(t: Tile, u: Tile)
    requires t.Equals(Instance(u))
    ensures t.HashCode() == u.HashCode()
  {
  }
}
