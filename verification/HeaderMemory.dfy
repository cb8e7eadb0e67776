/** The allocator's headers as bytes of one memory: in every run, with users writing what they like into their blocks,
    the bytes in front of a block lead `free` back to its buffer. */
module HeaderMemory {
  import opened Options
  import opened PowersOfTwo
  import opened Checksum
  import opened AllocLayout
  import opened BufferLedger
  import opened AllocatorSteps

  /** The memory has what is known of the header of the buffer at `p`. */
  ghost predicate Holds(mem: seq<byte>, p: Ptr, h: Header)
  {
    && p + SMALL_HEADERS <= |mem| && mem[p] == h.bucket
    && (h.shard.Some? ==> mem[p + 1] == h.shard.value)
    && (h.usrSz > 0 ==> mem[p + 2..p + 6] == LittleEndian(h.usrSz, 4))
    && (h.flag.Small? ==> mem[p + 6] == SMALL_ALLOCATION_FLAG)
    && (h.flag.Large? ==> mem[p + 2] == LARGE_ALLOCATION_FLAG)
  }

  /** The memory, of 64-bit addresses, holds the header of every buffer. */
  ghost predicate Written(mem: seq<byte>, header: map<Ptr, Header>, heapTop: nat)
  {
    heapTop <= |mem| <= Pow2(64) && forall p :: p in header ==> Holds(mem, p, header[p])
  }

  /** Nothing but `mem[from..to]` was written. */
  ghost predicate WroteWithin(mem: seq<byte>, mem': seq<byte>, from: nat, to: nat)
  {
    |mem'| == |mem| && forall i :: 0 <= i < |mem| && !(from <= i < to) ==> mem'[i] == mem[i]
  }

  function Stored(mem: seq<byte>, pos: nat, bs: seq<byte>): (mem': seq<byte>)
    requires pos + |bs| <= |mem|
    ensures |mem'| == |mem|
  {
    mem[..pos] + bs + mem[pos + |bs|..]
  }

  lemma {:induction false} StoredThere(mem: seq<byte>, pos: nat, bs: seq<byte>)
    requires pos + |bs| <= |mem|
    ensures WroteWithin(mem, Stored(mem, pos, bs), pos, pos + |bs|)
    ensures Stored(mem, pos, bs)[pos..pos + |bs|] == bs
    ensures forall i :: 0 <= i < |bs| ==> Stored(mem, pos, bs)[pos + i] == bs[i]
  {}

  // ----- where things are -----

  lemma Pow2UpTo32()
    ensures Pow2(5) == 32
  {
    assert Pow2(1) == 2;
    assert Pow2(2) == 4;
    assert Pow2(3) == 8;
    assert Pow2(4) == 16;
  }

  /** The buffer at `p` is larger than its header, lies below the top of the heap, and ends before the next one starts. */
  ghost predicate SpacedAt(header: map<Ptr, Header>, heapTop: nat, p: Ptr)
    requires p in header
  {
    var end := p + Pow2(header[p].bucket);
    p + 32 <= end <= heapTop && Fitting(header[p]) && forall q :: q in header && p < q ==> end <= q
  }

  ghost predicate Spaced(header: map<Ptr, Header>, heapTop: nat)
  {
    forall p :: p in header ==> SpacedAt(header, heapTop, p)
  }

  lemma {:induction false} SoundIsSpaced(st: State)
    requires Sound(st)
    ensures Spaced(st.header, st.heapTop)
  {
    forall p | p in st.header ensures SpacedAt(st.header, st.heapTop, p) {
      assert Fitting(st.header[p]);
      BucketsHold32(st.header[p].bucket);
    }
  }

  lemma {:induction false} BucketsHold32(b: nat)
    requires MIN_POW2_VALUE <= b
    ensures Pow2(b) >= 32
  {
    Pow2Monotone(5, b);
    Pow2UpTo32();
  }

  /** With 64-bit addresses a bucket fits its byte. */
  lemma {:induction false} BucketFitsByte(b: nat)
    requires Pow2(b) <= Pow2(64)
    ensures b < 256
  {
    assert Pow2(65) == 2 * Pow2(64);
    if b >= 256 {
      Pow2Monotone(65, b);
    }
  }

  /** The header of a buffer is clear of the bytes of any other. */
  lemma {:induction false} HeadersApart(header: map<Ptr, Header>, heapTop: nat, p: Ptr, q: Ptr)
    requires Spaced(header, heapTop) && p in header && q in header && q != p
    ensures q + SMALL_HEADERS <= p || p + Pow2(header[p].bucket) <= q
  {
    assert SpacedAt(header, heapTop, p) && SpacedAt(header, heapTop, q);
  }

  lemma {:induction false} HoldsStill(mem: seq<byte>, mem': seq<byte>, from: nat, to: nat, q: Ptr, h: Header)
    requires Holds(mem, q, h) && WroteWithin(mem, mem', from, to)
    requires q + SMALL_HEADERS <= from || to <= q || (h.flag.Large? && h.usrSz == 0 && q + LARGE_HEADERS <= from)
    ensures Holds(mem', q, h)
  {
    if h.usrSz > 0 {
      assert mem'[q + 2..q + 6] == mem[q + 2..q + 6];
    }
  }

  // ----- the allocator's writes -----

  /** Where a field stands in its buffer, and its bytes. */
  function FieldPos(f: Field): (pos: nat)
    ensures pos + |FieldBytes(f)| <= SMALL_HEADERS
  {
    match f
    case ShardByte(_) => 1
    case SizeBytes(_) => 2
    case FlagByte(large) => if large then 2 else 6
  }

  function FieldBytes(f: Field): (bs: seq<byte>)
    ensures 1 <= |bs| <= 4
  {
    match f
    case ShardByte(k) => [k % 256]
    case SizeBytes(s) => LittleEndian(s, 4)
    case FlagByte(large) => [if large then LARGE_ALLOCATION_FLAG else SMALL_ALLOCATION_FLAG]
  }

  /** The bytes a step writes. */
  ghost function MemoryAfter(mem: seq<byte>, e: Event, heapTop: nat): (mem': seq<byte>)
    ensures |mem'| == |mem|
  {
    match e.op
    case MakeBuffer(_, b) => if heapTop < |mem| then Stored(mem, heapTop, [b % 256]) else mem
    case WriteField(p, f) => if p + SMALL_HEADERS <= |mem| then Stored(mem, p + FieldPos(f), FieldBytes(f)) else mem
    case _ => mem
  }

  lemma {:induction false} FieldIsWritten(mem: seq<byte>, p: Ptr, h: Header, f: Field)
    requires Holds(mem, p, h) && (f.ShardByte? ==> f.k < 256) && (h.flag.Large? ==> h.usrSz == 0)
    ensures Holds(Stored(mem, p + FieldPos(f), FieldBytes(f)), p, Rewritten(h, f))
  {
    var pos, bs := p + FieldPos(f), FieldBytes(f);
    var mem' := Stored(mem, pos, bs);
    StoredThere(mem, pos, bs);
    assert mem'[pos] == bs[0];
    if !f.SizeBytes? && Rewritten(h, f).usrSz > 0 {
      assert mem'[p + 2..p + 6] == mem[p + 2..p + 6];
    }
  }

  lemma {:induction false} FieldWithinHeader(mem: seq<byte>, p: Ptr, f: Field)
    requires p + SMALL_HEADERS <= |mem|
    ensures WroteWithin(mem, Stored(mem, p + FieldPos(f), FieldBytes(f)), p, p + SMALL_HEADERS)
  {
    StoredThere(mem, p + FieldPos(f), FieldBytes(f));
  }

  /** Bytes written in the header of one buffer leave the other headers in place. */
  lemma {:induction false} OthersStand(mem: seq<byte>, mem': seq<byte>, header: map<Ptr, Header>, heapTop: nat, p: Ptr, q: Ptr)
    requires Spaced(header, heapTop) && p in header && q in header && q != p && Holds(mem, q, header[q])
    requires WroteWithin(mem, mem', p, p + SMALL_HEADERS)
    ensures Holds(mem', q, header[q])
  {
    HeadersApart(header, heapTop, p, q);
    assert SpacedAt(header, heapTop, p);
    HoldsStill(mem, mem', p, p + SMALL_HEADERS, q, header[q]);
  }

  lemma {:induction false} WriteKeepsHeaders(mem: seq<byte>, header: map<Ptr, Header>, heapTop: nat, p: Ptr, f: Field)
    requires Spaced(header, heapTop) && Written(mem, header, heapTop) && p in header && Fitting(Rewritten(header[p], f))
    ensures Written(Stored(mem, p + FieldPos(f), FieldBytes(f)), header[p := Rewritten(header[p], f)], heapTop)
  {
    var mem', header' := Stored(mem, p + FieldPos(f), FieldBytes(f)), header[p := Rewritten(header[p], f)];
    FieldWithinHeader(mem, p, f);
    forall q | q in header' ensures Holds(mem', q, header'[q]) {
      if q == p {
        FieldIsWritten(mem, p, header[p], f);
      } else {
        OthersStand(mem, mem', header, heapTop, p, q);
      }
    }
  }

  lemma {:induction false} MakeKeepsHeaders(mem: seq<byte>, header: map<Ptr, Header>, heapTop: nat, b: nat)
    requires Spaced(header, heapTop) && Written(mem, header, heapTop) && heapTop + 32 <= heapTop + Pow2(b) <= |mem|
    ensures Written(Stored(mem, heapTop, [b % 256]), header[heapTop := Header(b, None, 0, Unset)], heapTop + Pow2(b))
  {
    var mem', header' := Stored(mem, heapTop, [b % 256]), header[heapTop := Header(b, None, 0, Unset)];
    BucketFitsByte(b);
    StoredThere(mem, heapTop, [b % 256]);
    forall q | q in header' ensures Holds(mem', q, header'[q]) {
      if q == heapTop {
        assert mem'[heapTop + 0] == [b % 256][0];
      } else {
        HoldsStill(mem, mem', heapTop, heapTop + 1, q, header[q]);
      }
    }
  }

  lemma {:induction false} OtherStepsWriteNothing(st: State, e: Event)
    requires Enabled(st, e) && !e.op.WriteField? && !e.op.MakeBuffer?
    ensures After(st, e).header == st.header && After(st, e).heapTop == st.heapTop
  {}

  lemma {:induction false} MakeStepKeepsHeaders(mem: seq<byte>, st: State, t: nat, k: nat, b: nat)
    requires Spaced(st.header, st.heapTop) && Written(mem, st.header, st.heapTop) && k < |st.shards| && MIN_POW2_VALUE <= b
    requires st.heapTop + Pow2(b) <= |mem|
    ensures var st' := WithBuffer(st, t, k, b); st.heapTop < |mem| && Written(Stored(mem, st.heapTop, [b % 256]), st'.header, st'.heapTop)
  {
    BucketsHold32(b);
    MakeKeepsHeaders(mem, st.header, st.heapTop, b);
  }

  lemma {:induction false} WriteStepKeepsHeaders(mem: seq<byte>, st: State, p: Ptr, f: Field)
    requires Spaced(st.header, st.heapTop) && Written(mem, st.header, st.heapTop) && p in st.header && Fitting(Rewritten(st.header[p], f))
    ensures var st' := FieldWritten(st, p, f);
      p + SMALL_HEADERS <= |mem| && Written(Stored(mem, p + FieldPos(f), FieldBytes(f)), st'.header, st'.heapTop)
  {
    WriteKeepsHeaders(mem, st.header, st.heapTop, p, f);
  }

  /** Every step of every thread, with the bytes it writes, leaves all headers in the memory. */
  lemma {:induction false} StepKeepsHeaders(mem: seq<byte>, st: State, e: Event)
    requires Spaced(st.header, st.heapTop) && Enabled(st, e) && Written(mem, st.header, st.heapTop) && After(st, e).heapTop <= |mem|
    ensures Written(MemoryAfter(mem, e, st.heapTop), After(st, e).header, After(st, e).heapTop)
  {
    if e.op.WriteField? {
      WriteStepKeepsHeaders(mem, st, e.op.p, e.op.f);
    } else if e.op.MakeBuffer? {
      MakeStepKeepsHeaders(mem, st, e.t, e.op.k, e.op.b);
    } else {
      OtherStepsWriteNothing(st, e);
    }
  }

  // ----- the users' writes -----

  /** Where the block of a user begins in its buffer. */
  function HeaderSize(h: Header): nat { if h.flag.Large? then LARGE_HEADERS else SMALL_HEADERS }

  /** A user wrote what it liked into its block. */
  ghost predicate UserWrote(mem: seq<byte>, mem': seq<byte>, st: State, p: Ptr)
  {
    && p in Users(st.place) && p in st.header
    && WroteWithin(mem, mem', p + HeaderSize(st.header[p]), p + Pow2(st.header[p].bucket))
  }

  /** That leaves every header in place, its own too. */
  lemma {:induction false} UserWriteKeepsHeaders(mem: seq<byte>, mem': seq<byte>, st: State, p: Ptr)
    requires Spaced(st.header, st.heapTop) && Written(mem, st.header, st.heapTop) && UserWrote(mem, mem', st, p)
    ensures Written(mem', st.header, st.heapTop)
  {
    var h := st.header[p];
    forall q | q in st.header ensures Holds(mem', q, st.header[q]) {
      if q != p {
        HeadersApart(st.header, st.heapTop, p, q);
      }
      HoldsStill(mem, mem', p + HeaderSize(h), p + Pow2(h.bucket), q, st.header[q]);
    }
  }

  // ----- runs -----

  datatype Move = Step(e: Event) | UserWrite(p: Ptr)

  /** A run of the threads' steps and the users' writes, from any memory, as long as the memory lasts. */
  ghost predicate IsMemoryRun(threads: nat, moves: seq<Move>, states: seq<State>, mems: seq<seq<byte>>)
  {
    && |states| == |mems| == |moves| + 1 && states[0] == Start(threads) && |mems[0]| <= Pow2(64)
    && forall i :: 0 <= i < |moves| ==> Moved(moves[i], states[i], states[i + 1], mems[i], mems[i + 1])
  }

  ghost predicate Moved(move: Move, st: State, st': State, mem: seq<byte>, mem': seq<byte>)
  {
    match move
    case Step(e) => Enabled(st, e) && st' == After(st, e) && st'.heapTop <= |mem| && mem' == MemoryAfter(mem, e, st.heapTop)
    case UserWrite(p) => st' == st && UserWrote(mem, mem', st, p)
  }

  /** Over every such run the memory holds the header of every buffer. */
  lemma {:induction false} HeadersStand(threads: nat, moves: seq<Move>, states: seq<State>, mems: seq<seq<byte>>, i: nat)
    requires IsMemoryRun(threads, moves, states, mems) && i <= |moves|
    ensures Sound(states[i]) && Written(mems[i], states[i].header, states[i].heapTop)
    decreases i
  {
    if i == 0 {
      StartIsSound(threads);
    } else {
      HeadersStand(threads, moves, states, mems, i - 1);
      assert Moved(moves[i - 1], states[i - 1], states[i], mems[i - 1], mems[i]);
      SoundIsSpaced(states[i - 1]);
      match moves[i - 1]
      case Step(e) =>
        StepIsSound(states[i - 1], e);
        StepKeepsHeaders(mems[i - 1], states[i - 1], e);
      case UserWrite(p) => UserWriteKeepsHeaders(mems[i - 1], mems[i], states[i - 1], p);
    }
  }

  lemma {:induction false} HeldPeels(mem: seq<byte>, p: Ptr, h: Header)
    requires Holds(mem, p, h) && h.bucket < 256 && h.shard.Some? && h.shard.value < 256 && Flagged(h)
    ensures Peeled(mem, p + HeaderSize(h)) == Some(Origin(p, h.bucket, h.shard.value, if h.flag.Large? then None else Some(h.usrSz)))
  {
    if h.flag.Small? {
      Pow256Values();
      LoadDump(h.usrSz, 4);
    }
  }

  lemma {:induction false} UserPeels(mem: seq<byte>, st: State, p: Ptr)
    requires Headed(st.header, st.place, st.home) && p in Users(st.place) && p in st.header
    requires Holds(mem, p, st.header[p]) && st.header[p].bucket < 256
    ensures FoundHome(mem, st, p)
  {
    BucketAtHome(st, p);
    HeldPeels(mem, p, st.header[p]);
  }

  /** From the bytes in front of its block `free` finds the buffer at `p`, the shard and bucket it came from, and the size of
      its queue. */
  ghost predicate FoundHome(mem: seq<byte>, st: State, p: Ptr)
  {
    && p in st.header && p in st.home && st.home[p].b < 256 && st.home[p].k < 256
    && var h, home, ptr := st.header[p], st.home[p], p + HeaderSize(st.header[p]);
      ptr <= |mem| && Peeled(mem, ptr) == Some(Origin(p, home.b, home.k, if h.flag.Large? then None else Some(h.usrSz)))
  }

  lemma {:induction false} UserFindsHome(mem: seq<byte>, st: State, p: Ptr)
    requires Sound(st) && Written(mem, st.header, st.heapTop) && p in Users(st.place)
    ensures FoundHome(mem, st, p)
  {
    BucketAtHome(st, p);
    SoundIsSpaced(st);
    assert SpacedAt(st.header, st.heapTop, p);
    BucketFitsByte(st.header[p].bucket);
    UserPeels(mem, st, p);
  }

  /** So in every run. */
  lemma {:induction false} FreeFindsHome(threads: nat, moves: seq<Move>, states: seq<State>, mems: seq<seq<byte>>, i: nat, p: Ptr)
    requires IsMemoryRun(threads, moves, states, mems) && i <= |moves| && p in Users(states[i].place)
    ensures FoundHome(mems[i], states[i], p)
  {
    HeadersStand(threads, moves, states, mems, i);
    UserFindsHome(mems[i], states[i], p);
  }
}
