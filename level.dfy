/**
 * Level data: the best score kept for a solved level and the list of tile
 * types a level bans.
 */
module Levels {
  import opened Wrappers
  import opened Tiles

  /** A solution's cost: tiles used and rounds needed (fewer is better). */
  datatype SolveData = SolveData(tiles: nat, turns: nat) {

    /** The better of the two scores in each field separately. */
    function Combine(other: SolveData): (r: SolveData)
      ensures r.tiles <= tiles && r.tiles <= other.tiles
      ensures r.tiles == tiles || r.tiles == other.tiles
      ensures r.turns <= turns && r.turns <= other.turns
      ensures r.turns == turns || r.turns == other.turns
    {
      SolveData(if tiles <= other.tiles then tiles else other.tiles,
                if turns <= other.turns then turns else other.turns)
    }

    /** Merges a score that may be missing; a missing one leaves this one as it is. */
    function CombineOption(other: Option<SolveData>): (r: SolveData)
      ensures other.None? ==> r == this
      ensures other.Some? ==> r.tiles <= tiles && r.tiles <= other.value.tiles
      ensures other.Some? ==> r.turns <= turns && r.turns <= other.value.turns
    {
      match other
      case Some(d) => Combine(d)
      case None => this
    }
  }

  /** Merging scores is commutative, associative and idempotent, so the
      stored best does not depend on the order solutions arrive in. */
  lemma CombineLaws(a: SolveData, b: SolveData, c: SolveData)
    ensures a.Combine(b) == b.Combine(a)
    ensures a.Combine(b).Combine(c) == a.Combine(b.Combine(c))
    ensures a.Combine(a) == a
  {
  }

  /** Merging in a score never worsens the stored one, and merging in a
      missing score or the same score again changes nothing. */
  lemma CombineOptionLaws(a: SolveData, d: Option<SolveData>)
    ensures a.CombineOption(d).CombineOption(d) == a.CombineOption(d)
    ensures d.Some? ==> a.CombineOption(d) == a.Combine(d.value)
    ensures a.CombineOption(Some(a)) == a
  {
  }

  /** The banned-type flags of a level: exactly the listed types, however
      often each is listed. */
  method DeserializeBanned(banList: seq<TileType>) returns (banned: set<TileType>)
    ensures forall t :: t in banned <==> t in banList
  {
    banned := {};
    for k := 0 to |banList|
      invariant forall t :: t in banned <==> t in banList[..k]
    {
      assert banList[..k + 1] == banList[..k] + [banList[k]];
      banned := banned + {banList[k]};
    }
    assert banList[..|banList|] == banList;
  }
}
