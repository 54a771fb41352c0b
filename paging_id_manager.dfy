/** PagingIdManager (Paging/PagingIdManager.cs): a bounded allocator of
    session ids. It keeps one presence flag per 16-bit id and a 16-bit cursor
    that wraps from 65535 to 0.

    GetId scans from the cursor for the first free slot with the loop
    `while (_ids[_pos++]) ;`. Because of the post-increment the cursor has
    already moved one past that free slot when the loop ends, so GetId marks and
    returns the id AFTER the free slot it found; that id may still be held. */
module PagingIdAllocation {
  import opened Wrappers

  /** Number of slots: ushort.MaxValue + 1. */
  const IdSpace: nat := 0x1_0000

  /** The slot read at `offset` steps from `start`, wrapping like a ushort. */
  function Slot(ids: seq<bool>, start: nat, offset: nat): bool
    requires |ids| == IdSpace
  {
    ids[(start + offset) % IdSpace]
  }

  /** Advancing a wrapped cursor is the same as wrapping the advanced one. */
  lemma WrapSucc(a: nat)
    ensures (a % IdSpace + 1) % IdSpace == (a + 1) % IdSpace
  {
  }

  /** A cursor position less than two laps ahead, wrapped into range. */
  function Wrapped(n: nat): (w: nat)
    requires n < 2 * IdSpace
    ensures w == n % IdSpace
  {
    if n < IdSpace then n else n - IdSpace
  }

  ghost predicate HasFree(ids: seq<bool>)
  {
    exists i :: 0 <= i < |ids| && !ids[i]
  }

  /** Number of held slots the scan passes, starting at `start`, before it
      meets the first free one (searching from offset `k` on). */
  function FreeOffset(ids: seq<bool>, start: nat, k: nat): (d: nat)
    requires |ids| == IdSpace && k <= IdSpace
    requires exists j :: k <= j < IdSpace && !Slot(ids, start, j)
    ensures k <= d < IdSpace && !Slot(ids, start, d)
    ensures forall j :: k <= j < d ==> Slot(ids, start, j)
    decreases IdSpace - k
  {
    if !Slot(ids, start, k) then k else FreeOffset(ids, start, k + 1)
  }

  /** Any free slot is reached by the cyclic scan from any start. */
  lemma FreeSlotReachable(ids: seq<bool>, start: nat)
    requires |ids| == IdSpace && start < IdSpace && HasFree(ids)
    ensures exists j :: 0 <= j < IdSpace && !Slot(ids, start, j)
  {
    var i :| 0 <= i < |ids| && !ids[i];
    var j := if i >= start then i - start else i + IdSpace - start;
    assert (start + j) % IdSpace == i;
    assert !Slot(ids, start, j);
  }

  /** The first free slot the scan from `start` meets. */
  function FirstFree(ids: seq<bool>, start: nat): (f: nat)
    requires |ids| == IdSpace && start < IdSpace && HasFree(ids)
    ensures f < IdSpace && !ids[f]
  {
    FreeSlotReachable(ids, start);
    (start + FreeOffset(ids, start, 0)) % IdSpace
  }

  /** The id GetId returns and marks: the slot after the first free one. */
  function NextId(ids: seq<bool>, start: nat): (id: ushort)
    requires |ids| == IdSpace && start < IdSpace && HasFree(ids)
  {
    (FirstFree(ids, start) + 1) % IdSpace
  }

  /** The number of slots the scan from `start` reads before it stops, less
      one: the offset of the first free slot. The scan stops one past it. */
  lemma ScanLength(ids: seq<bool>, start: nat) returns (f: nat)
    requires |ids| == IdSpace && start < IdSpace && HasFree(ids)
    ensures exists j :: 0 <= j < IdSpace && !Slot(ids, start, j)
    ensures f == FreeOffset(ids, start, 0)
    ensures f < IdSpace && NextId(ids, start) == Wrapped(start + f + 1)
  {
    FreeSlotReachable(ids, start);
    f := FreeOffset(ids, start, 0);
    WrapSucc(start + f);
  }

  /** The slot the scan reads at step `steps` is held exactly before the
      first free one. */
  lemma ScanVisits(ids: seq<bool>, start: nat, steps: nat)
    requires |ids| == IdSpace && exists j :: 0 <= j < IdSpace && !Slot(ids, start, j)
    requires steps <= FreeOffset(ids, start, 0)
    requires start < IdSpace
    ensures ids[Wrapped(start + steps)] <==> steps < FreeOffset(ids, start, 0)
  {
    assert ids[Wrapped(start + steps)] == Slot(ids, start, steps);
  }

  class PagingIdManager {
    const ids: array<bool>
    var pos: int

    ghost predicate Valid()
      reads this
    {
      ids.Length == IdSpace && 0 <= pos < IdSpace
    }

    /** A new allocator: every slot free, cursor at 0. */
    constructor ()
      ensures Valid() && fresh(ids) && pos == 0
      ensures forall i :: 0 <= i < IdSpace ==> !ids[i]
    {
      ids := new bool[IdSpace](_ => false);
      pos := 0;
    }

    /** The scan `while (_ids[_pos++]) ;` run from cursor `start`: the cursor
        value it stops at, one past the first free slot. It does not end when
        every slot is held, hence the precondition. */
    method Scan(start: nat) returns (next: ushort)
      requires Valid() && start < IdSpace && HasFree(ids[..])
      ensures next == NextId(ids[..], start)
    {
      ghost var slots := ids[..];
      ghost var f := ScanLength(slots, start);
      ghost var steps: nat := 0;
      var p := start;
      var taken := true;
      while taken
        invariant 0 <= p < IdSpace && steps <= f + 1
        invariant p == Wrapped(start + steps)
        invariant taken <==> steps <= f
        decreases f + 1 - steps
      {
        taken := ids[p];
        ScanVisits(slots, start, steps);
        p := if p == IdSpace - 1 then 0 else p + 1;
        steps := steps + 1;
      }
      next := p;
    }

    /** Marks and returns the id after the first free slot from the cursor,
        which becomes the new cursor. */
    method GetId() returns (id: ushort)
      requires Valid() && HasFree(ids[..])
      modifies this, ids
      ensures Valid()
      ensures id == NextId(old(ids[..]), old(pos))
      ensures ids[..] == old(ids[..])[id := true]
      ensures pos == id
    {
      id := Scan(pos);
      pos := id;
      ids[id] := true;
    }

    /** Clears the slot of `id`, whether or not it was allocated. */
    method FreeId(id: ushort)
      requires Valid()
      modifies ids
      ensures Valid()
      ensures ids[..] == old(ids[..])[id := false]
    {
      ids[id] := false;
    }
  }

  /** GetId's id was free when every free slot is followed by a free slot
      (true of a fresh allocator and of any state without an isolated free slot). */
  lemma NextIdFreshWhenFreeSlotsPaired(ids: seq<bool>, start: nat)
    requires |ids| == IdSpace && start < IdSpace && HasFree(ids)
    requires forall i :: 0 <= i < IdSpace && !ids[i] ==> !Slot(ids, i, 1)
    ensures !ids[NextId(ids, start)]
  {
    var f := FirstFree(ids, start);
    assert !Slot(ids, f, 1);
  }

  /** The state after k allocations from a fresh allocator with no frees:
      the odd ids 1, 3, ..., 2k-1 are held and the cursor sits on the last one. */
  ghost predicate AfterSequentialAllocations(ids: seq<bool>, pos: nat, k: nat)
  {
    |ids| == IdSpace && k <= IdSpace / 2
    && pos == (if k == 0 then 0 else 2 * k - 1)
    && forall i :: 0 <= i < IdSpace ==> (ids[i] <==> i % 2 == 1 && i < 2 * k)
  }

  /** From a fresh allocator, successive GetId calls skip a slot each time:
      the (k+1)-th call returns 2k+1, and while the odd ids last it is free. */
  lemma {:induction false} SequentialAllocationStep(ids: seq<bool>, pos: nat, k: nat)
    requires AfterSequentialAllocations(ids, pos, k) && k < IdSpace / 2
    ensures HasFree(ids)
    ensures NextId(ids, pos) == (2 * k + 1) % IdSpace
    ensures k + 1 < IdSpace / 2 ==> !ids[NextId(ids, pos)]
    ensures AfterSequentialAllocations(ids[NextId(ids, pos) := true], NextId(ids, pos), k + 1)
  {
    assert !ids[2 * k];
    FreeSlotReachable(ids, pos);
    if k == 0 {
      assert !Slot(ids, pos, 0);
      assert FreeOffset(ids, pos, 0) == 0;
    } else {
      assert Slot(ids, pos, 0);
      assert !Slot(ids, pos, 1);
      assert FreeOffset(ids, pos, 1) == 1;
    }
    var id := NextId(ids, pos);
    assert id == 2 * k + 1;
    var ids' := ids[id := true];
    forall i | 0 <= i < IdSpace
      ensures ids'[i] <==> i % 2 == 1 && i < 2 * (k + 1)
    {
    }
  }

  /** Once every odd id is held with the cursor on 65535 (the state reached by
      32768 allocations from a fresh allocator), GetId returns 1 again although
      id 1 is still held: the scan finds slot 0 free and hands out slot 1. */
  lemma GetIdReturnsHeldId(ids: seq<bool>)
    requires AfterSequentialAllocations(ids, IdSpace - 1, IdSpace / 2)
    ensures HasFree(ids)
    ensures NextId(ids, IdSpace - 1) == 1 && ids[1]
  {
    assert !ids[0];
    FreeSlotReachable(ids, IdSpace - 1);
    assert Slot(ids, IdSpace - 1, 0);
    assert !Slot(ids, IdSpace - 1, 1);
    assert FreeOffset(ids, IdSpace - 1, 1) == 1;
  }
}
