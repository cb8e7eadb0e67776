/** The header bytes of the layered allocator: what `malloc` writes in front of a user's block, and how `free`
    gets back to the buffer from nothing but the user's pointer. */
module AllocLayout {
  import opened Options
  import opened PowersOfTwo
  import opened Checksum

  const SMALL_ALLOCATION_FLAG: byte := 0
  const LARGE_ALLOCATION_FLAG: byte := 1
  const UINT32_MAX: nat := 0xFFFF_FFFF

  /** Bucket, shard, size and flag bytes of a small block; bucket, shard and flag bytes of a large one. */
  const SMALL_HEADERS: nat := 1 + 1 + 4 + 1
  const LARGE_HEADERS: nat := 1 + 1 + 1

  /** What `free` finds out: where the buffer starts, whose it is, and the size queue of a small one. */
  datatype Origin = Origin(start: nat, bucket: byte, shard: byte, usrSz: Option<nat>)

  /** The bytes in front of a small user block, from the start of its buffer. */
  function SmallHeader(bucket: byte, shard: byte, usrSz: nat): (bs: seq<byte>)
    ensures |bs| == SMALL_HEADERS
  {
    [bucket] + [shard] + LittleEndian(usrSz, 4) + [SMALL_ALLOCATION_FLAG]
  }

  function LargeHeader(bucket: byte, shard: byte): (bs: seq<byte>)
    ensures |bs| == LARGE_HEADERS
  {
    [bucket] + [shard] + [LARGE_ALLOCATION_FLAG]
  }

  method WriteBytes(mem: array<byte>, pos: nat, bs: seq<byte>)
    requires pos + |bs| <= mem.Length
    modifies mem
    ensures mem[..] == old(mem[..pos]) + bs + old(mem[pos + |bs|..])
  {
    for i := 0 to |bs|
      invariant mem[..pos] == old(mem[..pos])
      invariant mem[pos..pos + i] == bs[..i]
      invariant mem[pos + i..] == old(mem[pos + i..])
    {
      mem[pos + i] := bs[i];
      assert mem[pos..pos + (i + 1)] == mem[pos..pos + i] + [bs[i]];
    }
    assert bs[..|bs|] == bs;
    assert mem[..] == mem[..pos] + mem[pos..pos + |bs|] + mem[pos + |bs|..];
  }

  /** The four layers of a small `malloc` write their headers one after the other and move the pointer on. */
  method StampSmall(mem: array<byte>, start: nat, bucket: byte, shard: byte, usrSz: nat) returns (usr: nat)
    requires start + SMALL_HEADERS <= mem.Length
    modifies mem
    ensures usr == start + SMALL_HEADERS
    ensures mem[..] == old(mem[..start]) + SmallHeader(bucket, shard, usrSz) + old(mem[usr..])
  {
    ghost var before, size := mem[..], LittleEndian(usrSz, 4);
    mem[start] := bucket;
    var unit := start + 1;
    mem[unit] := shard;
    var distributed := unit + 1;
    WriteBytes(mem, distributed, LittleEndian(usrSz, 4));
    var affined := distributed + 4;
    mem[affined] := SMALL_ALLOCATION_FLAG;
    usr := affined + 1;
    Stamped(before, mem[..], start, bucket, shard, size, SMALL_ALLOCATION_FLAG);
  }

  lemma Stamped(before: seq<byte>, after: seq<byte>, start: nat, bucket: byte, shard: byte, size: seq<byte>, flag: byte)
    requires |size| == 4 && start + 7 <= |before| == |after|
    requires after[..start] == before[..start] && after[start + 7..] == before[start + 7..]
    requires after[start] == bucket && after[start + 1] == shard && after[start + 2..start + 6] == size && after[start + 6] == flag
    ensures after == before[..start] + ([bucket] + [shard] + size + [flag]) + before[start + 7..]
  {
    assert after == after[..start] + [after[start]] + [after[start + 1]] + after[start + 2..start + 6] + [after[start + 6]] + after[start + 7..];
    var h := [bucket] + [shard] + size + [flag];
    assert after[..start] + [bucket] + [shard] + size + [flag] + after[start + 7..] == after[..start] + h + after[start + 7..];
  }

  method StampLarge(mem: array<byte>, start: nat, bucket: byte, shard: byte) returns (usr: nat)
    requires start + LARGE_HEADERS <= mem.Length
    modifies mem
    ensures usr == start + LARGE_HEADERS
    ensures mem[..] == old(mem[..start]) + LargeHeader(bucket, shard) + old(mem[usr..])
  {
    ghost var before := mem[..];
    mem[start] := bucket;
    mem[start + 1] := shard;
    mem[start + 2] := LARGE_ALLOCATION_FLAG;
    usr := start + 3;
    assert mem[..] == before[..start] + [bucket, shard, LARGE_ALLOCATION_FLAG] + before[usr..];
    assert LargeHeader(bucket, shard) == [bucket, shard, LARGE_ALLOCATION_FLAG];
  }

  /** The layers of `free`, each reading the header in front of its pointer and moving it back. */
  method Peel(mem: array<byte>, usr: nat) returns (o: Option<Origin>)
    requires usr <= mem.Length
    ensures o == Peeled(mem[..], usr)
  {
    if usr < LARGE_HEADERS {
      return None;
    }
    var internal := usr - 1;
    if mem[internal] == SMALL_ALLOCATION_FLAG {
      if usr < SMALL_HEADERS {
        return None;
      }
      var distributed := internal - 4;
      var unit := distributed - 1;
      var start := unit - 1;
      assert mem[..][distributed..internal] == mem[distributed..internal];
      return Some(Origin(start, mem[start], mem[unit], Some(Load(mem[distributed..internal]))));
    } else {
      return Some(Origin(internal - 2, mem[internal - 2], mem[internal - 1], None));
    }
  }

  ghost function Peeled(mem: seq<byte>, usr: nat): Option<Origin>
    requires usr <= |mem|
  {
    if usr < LARGE_HEADERS then None
    else if mem[usr - 1] != SMALL_ALLOCATION_FLAG then Some(Origin(usr - 3, mem[usr - 3], mem[usr - 2], None))
    else if usr < SMALL_HEADERS then None
    else Some(Origin(usr - 7, mem[usr - 7], mem[usr - 6], Some(Load(mem[usr - 5..usr - 1]))))
  }

  lemma AtByte(buf: seq<byte>, pos: nat, bs: seq<byte>, i: nat)
    requires At(buf, pos, bs) && i < |bs|
    ensures buf[pos + i] == bs[i]
  {
    assert buf[pos..pos + |bs|][i] == bs[i];
  }

  lemma AtSlice(buf: seq<byte>, pos: nat, bs: seq<byte>, i: nat, j: nat)
    requires At(buf, pos, bs) && i <= j <= |bs|
    ensures buf[pos + i..pos + j] == bs[i..j]
  {
    var w := buf[pos..pos + |bs|];
    assert w == bs && |buf[pos + i..pos + j]| == j - i;
    forall k | 0 <= k < j - i ensures buf[pos + i..pos + j][k] == w[i..j][k] {
      assert buf[pos + i + k] == w[i + k];
    }
    assert buf[pos + i..pos + j] == w[i..j];
  }

  lemma SmallHeaderParts(bucket: byte, shard: byte, usrSz: nat)
    ensures var h := SmallHeader(bucket, shard, usrSz);
      h[0] == bucket && h[1] == shard && h[2..6] == LittleEndian(usrSz, 4) && h[6] == SMALL_ALLOCATION_FLAG
  {}

  /** Whatever the user wrote into the block, and whatever is elsewhere, `free` finds the buffer of a small block. */
  lemma SmallPeels(mem: seq<byte>, start: nat, bucket: byte, shard: byte, usrSz: nat)
    requires usrSz <= UINT32_MAX && At(mem, start, SmallHeader(bucket, shard, usrSz))
    ensures Peeled(mem, start + SMALL_HEADERS) == Some(Origin(start, bucket, shard, Some(usrSz)))
  {
    var h := SmallHeader(bucket, shard, usrSz);
    AtByte(mem, start, h, 0);
    AtByte(mem, start, h, 1);
    AtSlice(mem, start, h, 2, 6);
    AtByte(mem, start, h, 6);
    SmallHeaderParts(bucket, shard, usrSz);
    Pow256Values();
    LoadDump(usrSz, 4);
  }

  lemma LargePeels(mem: seq<byte>, start: nat, bucket: byte, shard: byte)
    requires At(mem, start, LargeHeader(bucket, shard))
    ensures Peeled(mem, start + LARGE_HEADERS) == Some(Origin(start, bucket, shard, None))
  {
    var h := LargeHeader(bucket, shard);
    AtByte(mem, start, h, 0);
    AtByte(mem, start, h, 1);
    AtByte(mem, start, h, 2);
  }

  // ----- aligned blocks -----

  const ALIGNMENT_HEADER_SZ: nat := 4
  const METADATA_SZ: nat := 8

  datatype AllocResult = BadAlloc | Null | Aborted | Block(ptr: nat)

  /** What `malloc` is asked for so that an aligned block and `meta` bytes in front of it fit. */
  function AdjustedSize(alignment: nat, meta: nat, blkSz: nat): int
  {
    blkSz + (alignment + (meta - 1))
  }

  /** The aligned block and the header in front of it lie in the raw block, and the distance fits 32 bits. */
  lemma AlignedBlockFits(ptr: nat, alignment: nat, meta: nat, blkSz: nat)
    requires 0 < meta && 0 < alignment
    ensures var p := AlignUp(ptr + meta, alignment);
      && p % alignment == 0
      && ptr <= p - meta
      && p + blkSz <= ptr + AdjustedSize(alignment, meta, blkSz)
      && p - ptr <= alignment + (meta - 1)
  {}

  /** `dg_aligned_alloc`; `ptr` is what the inner `malloc` hands out, if it is asked. */
  method AlignedAlloc(alignment: nat, blkSz: nat, mem: array<byte>, ptr: nat) returns (r: AllocResult)
    requires ptr + AdjustedSize(alignment, ALIGNMENT_HEADER_SZ, blkSz) <= mem.Length
    modifies mem
    ensures r == BadAlloc <==> !IsPow2(alignment) || alignment + 3 > UINT32_MAX
    ensures r == Null <==> IsPow2(alignment) && alignment + 3 <= UINT32_MAX && blkSz == 0
    ensures !r.Block? ==> mem[..] == old(mem[..])
    ensures r != Aborted
    ensures r.Block? ==>
      && r.ptr % alignment == 0 && ptr + ALIGNMENT_HEADER_SZ <= r.ptr
      && r.ptr + blkSz <= ptr + AdjustedSize(alignment, ALIGNMENT_HEADER_SZ, blkSz)
      && mem[..] == old(mem[..r.ptr - 4]) + LittleEndian(r.ptr - ptr, 4) + old(mem[r.ptr..])
      && r.ptr - ptr <= UINT32_MAX
  {
    var pow2 := IsPowerOfTwo(alignment);
    if !pow2 {
      return BadAlloc;
    }
    Pow2IsPositive(alignment);
    var maxFwdSz := alignment + (ALIGNMENT_HEADER_SZ - 1);
    if maxFwdSz > UINT32_MAX {
      return BadAlloc;
    }
    if blkSz == 0 {
      return Null;
    }
    AlignedBlockFits(ptr, alignment, ALIGNMENT_HEADER_SZ, blkSz);
    var alignedPtr := AlignUp(ptr + ALIGNMENT_HEADER_SZ, alignment);
    var difference := alignedPtr - ptr;
    WriteBytes(mem, alignedPtr - ALIGNMENT_HEADER_SZ, LittleEndian(difference, 4));
    return Block(alignedPtr);
  }

  /** `stdx::is_pow2` */
  method IsPowerOfTwo(val: nat) returns (r: bool)
    ensures r <==> IsPow2(val)
  {
    if val == 0 {
      Pow2IsPositive(val);
      return false;
    }
    Ceil2OrNot(val);
    return Ceil2(val) == val;
  }

  lemma Ceil2OrNot(x: nat)
    requires x > 0
    ensures Ceil2(x) == x <==> IsPow2(x)
  {
    if IsPow2(x) {
      Ceil2OfPow2(x);
    }
  }

  lemma Pow2IsPositive(x: nat)
    ensures IsPow2(x) ==> x > 0
  {}

  /** The raw pointer that `dg_aligned_free` and `dg_xaligned_free` free: the distance is in the first four bytes of the
      header in front of the block. */
  function RawPtr(mem: seq<byte>, ptr: nat, meta: nat): int
    requires 4 <= meta <= ptr <= |mem|
  {
    ptr - Load(mem[ptr - meta..ptr - meta + 4])
  }

  /** With the four bytes in front of the block as they were written, the raw pointer is recovered. */
  lemma AlignedRecovers(mem: seq<byte>, ptr: nat, raw: nat)
    requires ALIGNMENT_HEADER_SZ <= ptr && raw <= ptr && ptr - raw <= UINT32_MAX
    requires At(mem, ptr - 4, LittleEndian(ptr - raw, 4))
    ensures RawPtr(mem, ptr, ALIGNMENT_HEADER_SZ) == raw
  {
    Pow256Values();
    LoadDump(ptr - raw, 4);
  }

  /** `dg_xaligned_alloc`: the block's size is kept too, and must fit 32 bits. */
  method XAlignedAlloc(alignment: nat, blkSz: nat, mem: array<byte>, ptr: nat) returns (r: AllocResult)
    requires ptr + AdjustedSize(alignment, METADATA_SZ, blkSz) <= mem.Length
    modifies mem
    ensures r == BadAlloc <==> !IsPow2(alignment) || alignment + 7 > UINT32_MAX
    ensures r == Null <==> IsPow2(alignment) && alignment + 7 <= UINT32_MAX && blkSz == 0
    ensures r == Aborted <==> IsPow2(alignment) && alignment + 7 <= UINT32_MAX && blkSz > UINT32_MAX
    ensures !r.Block? ==> mem[..] == old(mem[..])
    ensures r.Block? ==>
      && r.ptr % alignment == 0 && ptr + METADATA_SZ <= r.ptr
      && r.ptr + blkSz <= ptr + AdjustedSize(alignment, METADATA_SZ, blkSz)
      && mem[..] == old(mem[..r.ptr - 8]) + (LittleEndian(r.ptr - ptr, 4) + LittleEndian(blkSz, 4)) + old(mem[r.ptr..])
      && r.ptr - ptr <= UINT32_MAX
  {
    var pow2 := IsPowerOfTwo(alignment);
    if !pow2 {
      return BadAlloc;
    }
    Pow2IsPositive(alignment);
    var maxFwdSz := alignment + (METADATA_SZ - 1);
    if maxFwdSz > UINT32_MAX {
      return BadAlloc;
    }
    if blkSz == 0 {
      return Null;
    }
    if blkSz > UINT32_MAX {
      return Aborted;
    }
    AlignedBlockFits(ptr, alignment, METADATA_SZ, blkSz);
    var alignedPtr := AlignUp(ptr + METADATA_SZ, alignment);
    WriteBytes(mem, alignedPtr - METADATA_SZ, LittleEndian(alignedPtr - ptr, 4) + LittleEndian(blkSz, 4));
    return Block(alignedPtr);
  }

  /** `dg_xaligned_free` and `dg_xaligned_blk_size` get back the raw pointer and the size. */
  lemma XAlignedRecovers(mem: seq<byte>, ptr: nat, raw: nat, blkSz: nat)
    requires METADATA_SZ <= ptr && raw <= ptr && ptr - raw <= UINT32_MAX && blkSz <= UINT32_MAX
    requires At(mem, ptr - 8, LittleEndian(ptr - raw, 4) + LittleEndian(blkSz, 4))
    ensures RawPtr(mem, ptr, METADATA_SZ) == raw && Load(mem[ptr - 4..ptr]) == blkSz
  {
    var a, b := LittleEndian(ptr - raw, 4), LittleEndian(blkSz, 4);
    assert mem[ptr - 8..ptr - 4] == mem[ptr - 8..ptr][..4] == (a + b)[..4] == a;
    assert mem[ptr - 4..ptr] == mem[ptr - 8..ptr][4..] == (a + b)[4..] == b;
    Pow256Values();
    LoadDump(ptr - raw, 4);
    LoadDump(blkSz, 4);
  }
}
