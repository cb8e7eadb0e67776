/** The split stack allocator. */
module StackAllocator {
  import opened Options
  import opened PowersOfTwo
  import opened StackScopes

  class SplitStackAllocator {
    var stackBufferVec: seq<nat>                      // buf_sz of each segment
    var savedPointVec: seq<Option<MemoryPoint>>
    var validPoint: Option<MemoryPoint>
    ghost var live: seq<Block>
    ghost var marks: seq<nat>

    ghost function Abstract(): State
      reads this
    {
      State(|stackBufferVec|, savedPointVec, validPoint)
    }

    ghost predicate Doubling()
      reads this
    {
      forall i :: 0 <= i < |stackBufferVec| ==> stackBufferVec[i] == Pow2(i)
    }

    ghost predicate Valid()
      reads this
    {
      Doubling() && Holds(Abstract(), live, marks)
    }

    constructor ()
      ensures Valid() && savedPointVec == [] && live == []
    {
      stackBufferVec, savedPointVec, validPoint := [], [], None;
      live, marks := [], [];
    }

    /** `reserve_for_vector_size_of`: adds the missing segments, or takes back those it added. */
    method Reserve(sz: nat, limit: nat) returns (ok: bool)
      requires Doubling()
      modifies this`stackBufferVec
      ensures Doubling()
      ensures ok <==> sz <= old(|stackBufferVec|) || sz <= limit
      ensures |stackBufferVec| == if ok && sz > old(|stackBufferVec|) then sz else old(|stackBufferVec|)
    {
      var oldSz := |stackBufferVec|;
      var newSz := if sz > oldSz then sz else oldSz;
      for i := 0 to newSz - oldSz
        invariant Doubling() && |stackBufferVec| == oldSz + i
        invariant i == 0 || oldSz + i <= limit
      {
        if oldSz + i >= limit {
          stackBufferVec := stackBufferVec[..oldSz];
          return false;
        }
        stackBufferVec := stackBufferVec + [Pow2(oldSz + i)];
      }
      return true;
    }

    method EnterScope(limit: nat) returns (ok: bool)
      requires Valid()
      modifies this
      ensures Valid() && (Abstract(), ok) == Entered(old(Abstract()), limit)
      ensures !ok <==> old(validPoint) == None && old(stackBufferVec) == [] && limit == 0
      ensures !ok ==> Abstract() == old(Abstract())
      ensures ok ==> savedPointVec == old(savedPointVec) + [old(validPoint)]
      ensures ok ==> validPoint == if old(validPoint).Some? then old(validPoint) else Some(MemoryPoint(0, 0))
      ensures live == old(live) && marks == if ok then old(marks) + [|live|] else old(marks)
    {
      if validPoint.Some? {
        EnterHolds(Abstract(), live, marks, limit);
        savedPointVec := savedPointVec + [validPoint];
      } else {
        var reserved := Reserve(1, limit);
        if !reserved {
          return false;
        }
        EnterHolds(old(Abstract()), live, marks, limit);
        savedPointVec := savedPointVec + [validPoint];
        validPoint := Some(MemoryPoint(0, 0));
      }
      marks := marks + [|live|];
      return true;
    }

    method Allocate(blkSz: nat, limit: nat) returns (r: Result<Block>)
      requires Valid()
      modifies this
      ensures Valid() && (Abstract(), r) == Allocated(old(Abstract()), blkSz, limit)
      ensures Carved(old(Abstract()), blkSz, limit, Abstract(), r)
      ensures live == if r.Ok? then old(live) + [r.value] else old(live)
      ensures marks == old(marks)
    {
      AllocateHolds(Abstract(), live, marks, blkSz, limit);
      ghost var st := Abstract();
      r := Carve(blkSz, limit);
      AllocatedIffCarved(st, blkSz, limit, Abstract(), r);
      if r.Ok? {
        live := live + [r.value];
      }
    }

    method Carve(blkSz: nat, limit: nat) returns (r: Result<Block>)
      requires Doubling() && (validPoint.Some? ==> InSegments(validPoint.value, |stackBufferVec|))
      modifies this`stackBufferVec, this`validPoint
      ensures Doubling() && (Abstract(), r) == Allocated(old(Abstract()), blkSz, limit)
    {
      if validPoint.Some? && stackBufferVec[validPoint.value.slot] - validPoint.value.offset >= blkSz {
        r := Ok(Block(validPoint.value.slot, validPoint.value.offset, blkSz));
        validPoint := Some(MemoryPoint(validPoint.value.slot, validPoint.value.offset + blkSz));
      } else {
        r := SlowAllocate(blkSz, limit);
      }
    }

    method SlowAllocate(blkSz: nat, limit: nat) returns (r: Result<Block>)
      requires Doubling() && (validPoint.Some? ==> InSegments(validPoint.value, |stackBufferVec|))
      modifies this`stackBufferVec, this`validPoint
      ensures Doubling() && (Abstract(), r) == Allocated(old(Abstract()), blkSz, limit)
    {
      if validPoint.None? {
        return Err(BadState);
      }
      var curPoint := validPoint.value;
      ghost var found := Search(|stackBufferVec|, curPoint, blkSz, limit);
      while true
        invariant Doubling() && InSegments(curPoint, |stackBufferVec|) && validPoint == old(validPoint)
        invariant Search(|stackBufferVec|, curPoint, blkSz, limit) == found
        decreases (if blkSz > curPoint.slot then blkSz - curPoint.slot else 0) + (if curPoint.offset > 0 then 1 else 0)
      {
        var pointSz := stackBufferVec[curPoint.slot] - curPoint.offset;
        if pointSz >= blkSz {
          r := Ok(Block(curPoint.slot, curPoint.offset, blkSz));
          validPoint := Some(MemoryPoint(curPoint.slot, curPoint.offset + blkSz));
          return;
        }
        var reserved := Reserve(curPoint.slot + 2, limit);
        if !reserved {
          return Err(ResourceExhaustion);
        }
        curPoint := MemoryPoint(curPoint.slot + 1, 0);
      }
    }

    /** The source aborts when no scope is open. */
    method ExitScope()
      requires Valid() && savedPointVec != []
      modifies this
      ensures Valid() && Abstract() == Exited(old(Abstract()))
      ensures validPoint == old(savedPointVec)[old(|savedPointVec|) - 1] && savedPointVec == old(savedPointVec)[..old(|savedPointVec|) - 1]
      ensures live == old(live)[..old(marks)[old(|marks|) - 1]] && marks == old(marks)[..old(|marks|) - 1]
    {
      ghost var st, blocks, starts := Abstract(), live, marks;
      ghost var exited := Exited(st);
      validPoint := savedPointVec[|savedPointVec| - 1];
      savedPointVec := savedPointVec[..|savedPointVec| - 1];
      assert Abstract() == exited;
      ExitHolds(st, blocks, starts);
      live, marks := blocks[..starts[|starts| - 1]], starts[..|starts| - 1];
    }
  }
}
