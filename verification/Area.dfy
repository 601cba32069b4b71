/** The world border: which blocks may be touched, and which chunks are delivered. */
module Areas {
  import opened Numbers

  datatype Area2D = Area2D(minX: int32, minZ: int32, maxX: int32, maxZ: int32) {
    /** Strictly inside: the border blocks themselves are out. */
    predicate PositionInside(x: int32, z: int32) {
      minX < x < maxX && minZ < z < maxZ
    }

    /** The chunk touches the closed rectangle; `<< 4` and `+ 15` are 32-bit. */
    predicate ChunkInside(chunkX: int32, chunkZ: int32) {
      var x, z := Corner(chunkX), Corner(chunkZ);
      && x <= maxX as int && Wrap32(x + 15) >= minX as int
      && z <= maxZ as int && Wrap32(z + 15) >= minZ as int
    }
  }

  /** `c << 4`, on 32 bits. */
  function Corner(c: int32): (r: int)
    ensures FitsInt32(r)
  {
    Wrap32(c as int * 16)
  }

  /** `v >> 4`: the chunk of a block. */
  function ChunkOf(v: int32): int32 {
    (v as int / 16) as int32
  }

  /** Shifting down and up again gives the corner of the block's chunk, without wrapping. */
  lemma CornerOfChunk(v: int32)
    ensures Corner(ChunkOf(v)) == v as int / 16 * 16
    ensures Corner(ChunkOf(v)) <= v as int <= Corner(ChunkOf(v)) + 15
    ensures Wrap32(Corner(ChunkOf(v)) + 15) == Corner(ChunkOf(v)) + 15
  {
  }

  /** A shifted coordinate is a multiple of 16, so its 16 columns fit in 32 bits. */
  lemma CornerIsAligned(c: int32)
    ensures Corner(c) % 16 == 0 && Corner(c) + 15 <= 0x7FFF_FFFF
    ensures Wrap32(Corner(c) + 15) == Corner(c) + 15
  {
  }

  /** Block coordinate of a column of a chunk. */
  function Column(c: int32, i: int): int {
    Corner(c) + i
  }

  /** A column of the chunk lies in the closed interval; of an inverted interval, both ends lie in the chunk. */
  ghost predicate Meets(c: int32, lo: int32, hi: int32) {
    if lo <= hi then exists i :: 0 <= i < 16 && lo as int <= Column(c, i) <= hi as int
    else exists i, j :: 0 <= i < 16 && 0 <= j < 16 && Column(c, i) == hi as int && Column(c, j) == lo as int
  }

  lemma AxisMeets(c: int32, lo: int32, hi: int32)
    ensures Meets(c, lo, hi) <==> Corner(c) <= hi as int && Wrap32(Corner(c) + 15) >= lo as int
  {
    CornerIsAligned(c);
    if Corner(c) <= hi as int && Corner(c) + 15 >= lo as int {
      if lo <= hi {
        var i := if lo as int <= Corner(c) then 0 else lo as int - Corner(c);
        assert lo as int <= Column(c, i) <= hi as int;
      } else {
        var i, j := hi as int - Corner(c), lo as int - Corner(c);
        assert Column(c, i) == hi as int && Column(c, j) == lo as int;
      }
    }
  }

  /**
   A chunk is delivered exactly when it meets the border along both axes: for a border the
   right way round, when one of its 256 columns lies in the closed rectangle.
   */
  lemma ChunkInsideIsIntersection(area: Area2D, chunkX: int32, chunkZ: int32)
    ensures area.ChunkInside(chunkX, chunkZ) <==> Meets(chunkX, area.minX, area.maxX) && Meets(chunkZ, area.minZ, area.maxZ)
    ensures area.minX <= area.maxX && area.minZ <= area.maxZ ==>
              (area.ChunkInside(chunkX, chunkZ) <==>
               exists i, j | 0 <= i < 16 && 0 <= j < 16 ::
                 && area.minX as int <= Column(chunkX, i) <= area.maxX as int
                 && area.minZ as int <= Column(chunkZ, j) <= area.maxZ as int)
  {
    AxisMeets(chunkX, area.minX, area.maxX);
    AxisMeets(chunkZ, area.minZ, area.maxZ);
    hide Corner, Column;
  }

  /** A touchable block is always in a delivered chunk. */
  lemma InsideIsDelivered(area: Area2D, x: int32, z: int32)
    requires area.PositionInside(x, z)
    ensures area.ChunkInside(ChunkOf(x), ChunkOf(z))
  {
    CornerOfChunk(x);
    CornerOfChunk(z);
  }
}
