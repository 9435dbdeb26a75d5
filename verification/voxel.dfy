/**
 * Block coordinates and search boxes of the ore scanner
 * (packages/hardhat/scripts/readMapTiles.ts).
 */
module Voxel {

  /** A block position in the world (the oracle's VoxelCoord struct). */
  datatype Coord = Coord(x: int, y: int, z: int)

  /** An axis-aligned box: its lower south-west corner and its extent on each axis. */
  datatype Area = Area(corner: Coord, size: Coord)

  /** Distance from the player to the faces of the search cube, in blocks. */
  const Radius: int := 5
  /** Number of horizontal layers queried per scan. */
  const LayerCount: nat := 11

  /** Whether block `c` lies inside box `a` (corner inclusive, corner + size exclusive). */
  predicate Contains(a: Area, c: Coord) {
    && a.corner.x <= c.x < a.corner.x + a.size.x
    && a.corner.y <= c.y < a.corner.y + a.size.y
    && a.corner.z <= c.z < a.corner.z + a.size.z
  }

  /** Whether block `c` lies in the 11 x 11 x 11 cube centred on the player at `p`. */
  predicate InCube(p: Coord, c: Coord) {
    && p.x - Radius <= c.x <= p.x + Radius
    && p.y - Radius <= c.y <= p.y + Radius
    && p.z - Radius <= c.z <= p.z + Radius
  }

  /**
   * `increaseY`: a new box, `i` blocks higher than `a`, with the same extent.
   * A block is in the shifted box exactly when the block `i` below it is in `a`.
   */
  function IncreaseY(a: Area, i: int): (r: Area)
    ensures r.size == a.size
    ensures r.corner.x == a.corner.x && r.corner.z == a.corner.z
    ensures r.corner.y == a.corner.y + i
    ensures forall c :: Contains(r, c) <==> Contains(a, Coord(c.x, c.y - i, c.z))
  {
    a.(corner := a.corner.(y := a.corner.y + i))
  }

  /** Shifting by `i` and then by `j` is shifting by `i + j`; shifting by 0 changes nothing. */
  lemma IncreaseYComposes(a: Area, i: int, j: int)
    ensures IncreaseY(IncreaseY(a, i), j) == IncreaseY(a, i + j)
    ensures IncreaseY(a, 0) == a
  {
  }

  /**
   * The layer-0 box of `findOre`: corner five blocks below, west and south
   * of the player, 11 wide, 1 high, 11 deep. It is the bottom slice of the
   * player's cube.
   */
  function BaseArea(p: Coord): (r: Area)
    ensures r.size == Coord(2 * Radius + 1, 1, 2 * Radius + 1)
    ensures forall c :: Contains(r, c) <==> InCube(p, c) && c.y == p.y - Radius
  {
    Area(Coord(p.x - Radius, p.y - Radius, p.z - Radius), Coord(11, 1, 11))
  }

  /** The eleven boxes queried for one object id, layer `i` being `increaseY(base, i)`. */
  function Layers(p: Coord): (r: seq<Area>)
    ensures |r| == LayerCount
    ensures forall i :: 0 <= i < |r| ==> r[i] == IncreaseY(BaseArea(p), i)
  {
    seq(LayerCount, i requires 0 <= i < LayerCount => IncreaseY(BaseArea(p), i))
  }

  /** Layer `i` holds exactly the cube's blocks at height `p.y - 5 + i`. */
  lemma LayerContains(p: Coord, c: Coord, i: nat)
    requires i < LayerCount
    ensures Contains(Layers(p)[i], c) <==> InCube(p, c) && c.y == p.y - Radius + i
  {
    var a := Layers(p)[i];
    assert a == Area(Coord(p.x - Radius, p.y - Radius + i, p.z - Radius), Coord(11, 1, 11));
  }

  /**
   * The layers tile the player's cube: a block is in the cube exactly when
   * it is in some layer, and then it is in no other layer.
   */
  lemma LayersTileCube(p: Coord, c: Coord)
    ensures InCube(p, c) <==> exists i :: 0 <= i < LayerCount && Contains(Layers(p)[i], c)
    ensures forall i, j :: 0 <= i < j < LayerCount ==> !(Contains(Layers(p)[i], c) && Contains(Layers(p)[j], c))
  {
    forall i | 0 <= i < LayerCount
      ensures Contains(Layers(p)[i], c) <==> InCube(p, c) && c.y == p.y - Radius + i
    {
      LayerContains(p, c, i);
    }
    if InCube(p, c) {
      var i := c.y - (p.y - Radius);
      assert Contains(Layers(p)[i], c);
    }
  }
}
