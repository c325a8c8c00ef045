/**
 The buffer pool, run by one thread: where a returned block goes, with the guard that frees it
 on every path that does not keep it. `Lifecycle` has the same steps under any interleaving.
 */
module BufferPools {
  import opened Words
  import opened Bits
  import opened BlockLayouts
  import opened TaggedCaps
  import opened Memory
  import opened Headers
  import opened RawBuffers
  import opened UniqueBuffers
  import Allocators
  import BufferRuns

  // A queued buffer: its data pointer and its capacity; its length is 0.
  datatype Pooled = Pooled(buf: int, cap: RawCap)

  ghost predicate SlotOk(p: Params, h: Heap, e: Pooled)
    requires ValidParams(p)
  {
    && IsWord(e.cap) && e.cap.IsAllocated() && 0 < e.cap.Value()
    && e.buf - Offset(p) in h && GoodBlock(p, h[e.buf - Offset(p)])
    && CapOf(p, h[e.buf - Offset(p)].bytes) == e.cap.Value() && CountOf(p, h[e.buf - Offset(p)].bytes) == 1
  }

  ghost predicate SlotsOk(p: Params, h: Heap, queue: seq<Pooled>)
    requires ValidParams(p)
  {
    forall i :: 0 <= i < |queue| ==> SlotOk(p, h, queue[i])
  }

  predicate Apart(queue: seq<Pooled>, buf: int) {
    forall i :: 0 <= i < |queue| ==> queue[i].buf != buf
  }

  // Whatever happens to another block.
  lemma SlotsStay(p: Params, h: Heap, h': Heap, queue: seq<Pooled>, buf: int)
    requires ValidParams(p) && SlotsOk(p, h, queue) && Apart(queue, buf)
    requires h' - {buf - Offset(p)} == h - {buf - Offset(p)}
    ensures SlotsOk(p, h', queue)
  {
    hide SlotOk;
    forall i | 0 <= i < |queue|
      ensures SlotOk(p, h', queue[i])
    {
      SlotStays(p, h, h', queue[i], buf);
    }
  }

  lemma SlotStays(p: Params, h: Heap, h': Heap, e: Pooled, buf: int)
    requires ValidParams(p) && SlotOk(p, h, e) && e.buf != buf
    requires h' - {buf - Offset(p)} == h - {buf - Offset(p)}
    ensures SlotOk(p, h', e)
  {
    hide GoodBlock;
    hide CountOf;
    hide CapOf;
    hide And;
    hide Offset;
    SameAt(h, h', buf - Offset(p), e.buf - Offset(p));
  }

  lemma SameAt(h: Heap, h': Heap, base: int, b: int)
    requires h' - {base} == h - {base} && b != base && b in h
    ensures b in h' && h'[b] == h[b]
  {
    assert b in h - {base} && (h - {base})[b] == h[b];
    assert b in h' - {base} && (h' - {base})[b] == h'[b];
  }

  lemma SlotsSnoc(p: Params, h: Heap, queue: seq<Pooled>, e: Pooled)
    requires ValidParams(p) && SlotsOk(p, h, queue) && SlotOk(p, h, e)
    ensures SlotsOk(p, h, queue + [e])
  {
    hide SlotOk;
  }

  lemma OwnedIsSlot(raw: RawAlignedBuffer)
    requires raw.Owned() && raw.IsAllocated()
    ensures SlotOk(raw.p, raw.sys.heap, Pooled(raw.buf, raw.capOrLen))
  {}

  // The layout to free a queued block with is rebuilt from its capacity.
  method FreeBlock(p: Params, sys: System, e: Pooled)
    requires ValidParams(p) && WellFormed(sys.heap) && SlotOk(p, sys.heap, e)
    modifies sys`heap
    ensures WellFormed(sys.heap) && sys.heap == old(sys.heap) - {e.buf - Offset(p)}
  {
    var base := e.buf - Offset(p);
    var layout := LayoutOf(p, e.cap.Value());
    LayoutOfIs(p, e.cap.Value());
    assert BlockOk(sys.heap, base);
    Allocators.Deallocate(sys, base, layout.value);
  }

  // The blocks of the queued buffers.
  function Bases(p: Params, queue: seq<Pooled>): set<int>
    requires ValidParams(p)
  {
    if queue == [] then {} else Bases(p, queue[..|queue| - 1]) + {queue[|queue| - 1].buf - Offset(p)}
  }

  class BufferPool {
    const p: Params
    const sys: System
    const capacity: nat
    const shouldRetain: nat -> bool
    var alive: bool
    var queue: seq<Pooled>

    // Queued buffers are distinct, counted once, and record their blocks' capacities.
    ghost predicate Valid()
      reads this, sys
    {
      && ValidParams(p) && WellFormed(sys.heap) && |queue| <= capacity
      && SlotsOk(p, sys.heap, queue)
      && (forall i, j :: 0 <= i < j < |queue| ==> queue[i].buf != queue[j].buf)
    }

    predicate Keeps(cap: nat)
      reads this
    {
      shouldRetain(cap) && alive && |queue| < capacity
    }

    constructor (p: Params, sys: System, capacity: nat, shouldRetain: nat -> bool)
      requires ValidParams(p) && WellFormed(sys.heap)
      ensures Valid() && this.p == p && this.sys == sys && this.capacity == capacity && this.shouldRetain == shouldRetain
      ensures alive && queue == []
    {
      this.p := p;
      this.sys := sys;
      this.capacity := capacity;
      this.shouldRetain := shouldRetain;
      alive := true;
      queue := [];
    }

    // What dropping the guard does.
    method DropGuard(e: Pooled)
      requires Valid() && SlotOk(p, sys.heap, e) && Apart(queue, e.buf)
      modifies sys`heap
      ensures Valid() && sys.heap == old(sys.heap) - {e.buf - Offset(p)}
    {
      hide SlotOk;
      hide SlotsOk;
      hide Offset;
      ghost var h, base := sys.heap, e.buf - Offset(p);
      FreeBlock(p, sys, e);
      assert (h - {base}) - {base} == h - {base};
      SlotsStay(p, h, sys.heap, queue, e.buf);
    }

    // `deallocate_buffer`: the block is kept exactly when the policy wants it, the pool is still
    // there and the queue has room; otherwise it is freed. Either way it goes one way only.
    method DeallocateBuffer(buf: int, cap: RawCap)
      requires Valid() && SlotOk(p, sys.heap, Pooled(buf, cap)) && Apart(queue, buf)
      modifies this`queue, sys`heap
      ensures Valid()
      ensures queue == if old(Keeps(cap.Value())) then old(queue) + [Pooled(buf, cap)] else old(queue)
      ensures sys.heap == if old(Keeps(cap.Value())) then old(sys.heap) else old(sys.heap) - {buf - Offset(p)}
    {
      hide SlotOk;
      hide SlotsOk;
      hide Offset;
      var guarded := true;
      if shouldRetain(cap.Value()) {
        // the closure, with the guard in it, runs only if the upgrade succeeds
        if alive {
          guarded := false;
          if |queue| < capacity {
            SlotsSnoc(p, sys.heap, queue, Pooled(buf, cap));
            queue := queue + [Pooled(buf, cap)];
          } else {
            // the rejected buffer is forgotten, and its guard dropped instead
            DropGuard(Pooled(buf, cap));
          }
        }
      }
      if guarded {
        DropGuard(Pooled(buf, cap));
      }
    }

    // The drop of a handle allocated from this pool: only the last one of a block returns it.
    method DropBuffer(raw: RawAlignedBuffer)
      requires Valid() && raw.p == p && raw.sys == sys && raw.Valid()
      requires raw.IsAllocated() ==> Apart(queue, raw.buf)
      modifies this`queue, sys`heap
      ensures Valid()
      ensures !raw.IsAllocated() ==> queue == old(queue) && sys.heap == old(sys.heap)
      ensures raw.IsAllocated() && old(raw.Count()) != 1 ==>
                && queue == old(queue)
                && Recounted(p, old(sys.heap), sys.heap, raw.Base(), WrappingSub(old(raw.Count()), 1))
      ensures raw.IsAllocated() && old(raw.Count()) == 1 ==>
                if old(Keeps(raw.HeaderCap())) then
                  && queue == old(queue) + [Pooled(raw.buf, New(old(raw.HeaderCap()), true))]
                  && Recounted(p, old(sys.heap), sys.heap, raw.Base(), 1)
                else
                  queue == old(queue) && sys.heap == old(sys.heap) - {raw.Base()}
    {
      if !raw.IsAllocated() {
        return;
      }
      ghost var h := sys.heap;
      var count := raw.RefCount();
      WriteCount(p, sys, raw.Base(), WrappingSub(count, 1));
      SlotsStay(p, h, sys.heap, queue, raw.buf);
      if count == 1 {
        DropLast(raw);
      }
    }

    // What the last drop does after `fetch_sub`.
    method DropLast(raw: RawAlignedBuffer)
      requires Valid() && raw.p == p && raw.sys == sys && raw.Valid() && raw.IsAllocated() && Apart(queue, raw.buf)
      modifies this`queue, sys`heap
      ensures Valid()
      ensures if old(Keeps(raw.HeaderCap())) then
                && queue == old(queue) + [Pooled(raw.buf, New(old(raw.HeaderCap()), true))]
                && Recounted(p, old(sys.heap), sys.heap, raw.Base(), 1)
              else
                queue == old(queue) && sys.heap == old(sys.heap) - {raw.Base()}
    {
      hide And;
      hide Or;
      ghost var h := sys.heap;
      WriteCount(p, sys, raw.Base(), 1);
      var cap := CapOf(p, sys.heap[raw.Base()].bytes);
      LayoutOfIs(p, cap);
      PackUnpack(cap, true);
      hide CapOf;
      hide CountOf;
      hide LayoutOf;
      SlotsStay(p, h, sys.heap, queue, raw.buf);
      DeallocateBuffer(raw.buf, New(cap, true));
    }

    // `dealloc_buf`: the block, which still counts one handle, goes the way of a dropped one.
    method GiveUp(raw: RawAlignedBuffer)
      requires Valid() && raw.Owned() && raw.IsAllocated() && raw.p == p && raw.sys == sys && Apart(queue, raw.buf)
      modifies this`queue, sys`heap, raw
      ensures Valid() && raw.Owned() && !raw.IsAllocated()
      ensures if shouldRetain(old(raw.CapOrLen())) && alive && |old(queue)| < capacity then
                && queue == old(queue) + [Pooled(old(raw.buf), old(raw.capOrLen))]
                && sys.heap == old(sys.heap)
              else
                queue == old(queue) && sys.heap == old(sys.heap) - {old(raw.Base())}
    {
      OwnedIsSlot(raw);
      hide RawAlignedBuffer.Owned;
      hide RawAlignedBuffer.Valid;
      hide SlotOk;
      hide SlotsOk;
      hide CountOf;
      hide CapOf;
      hide And;
      DeallocateBuffer(raw.buf, raw.capOrLen);
      raw.Detach();
    }

    // `shrink_to_fit` of an empty buffer of this pool, which is left without a block.
    method ShrinkEmpty(u: UniqueAlignedBuffer)
      requires Valid() && u.Valid() && u.len == 0 && u.raw.p == p && u.raw.sys == sys
      requires u.raw.IsAllocated() ==> Apart(queue, u.raw.buf)
      modifies this`queue, sys`heap, u.raw
      ensures Valid() && u.Valid() && u.View() == BufferRuns.View([], 0) && !u.raw.IsAllocated()
      ensures !old(u.raw.IsAllocated()) ==> queue == old(queue) && sys.heap == old(sys.heap)
      ensures old(u.raw.IsAllocated()) ==>
                if shouldRetain(old(u.raw.CapOrLen())) && alive && |old(queue)| < capacity then
                  && queue == old(queue) + [Pooled(old(u.raw.buf), old(u.raw.capOrLen))]
                  && sys.heap == old(sys.heap)
                else
                  queue == old(queue) && sys.heap == old(sys.heap) - {old(u.raw.Base())}
    {
      ZeroParts();
      if u.raw.CapOrLen() != 0 {
        hide SlotsOk;
        GiveUp(u.raw);
      }
    }

    // `get`: the longest-waiting buffer, cleared and alone, or one without a block.
    method Get() returns (u: UniqueAlignedBuffer)
      requires Valid()
      modifies this`queue
      ensures Valid() && fresh(u) && fresh(u.raw) && u.raw.p == p && u.raw.sys == sys && u.Valid()
      ensures if old(queue) == [] then
                queue == [] && u.View() == BufferRuns.View([], 0)
              else
                && queue == old(queue)[1..] && u.raw.buf == old(queue)[0].buf
                && u.View() == BufferRuns.View([], old(queue)[0].cap.Value())
      ensures u.raw.IsAllocated() ==> Apart(queue, u.raw.buf)
    {
      if queue == [] {
        u := new UniqueAlignedBuffer(p, sys);
      } else {
        var e := queue[0];
        queue := queue[1..];
        var raw := new RawAlignedBuffer.FromRawParts(p, sys, e.buf, e.cap);
        u := new UniqueAlignedBuffer.FromRaw(raw, 0);
      }
    }

    // A queued buffer that finds no pool to return to.
    method DropFirst()
      requires Valid() && !alive && queue != []
      modifies this`queue, sys`heap
      ensures Valid() && queue == old(queue)[1..] && sys.heap == old(sys.heap) - {old(queue)[0].buf - Offset(p)}
    {
      var e := queue[0];
      ghost var h := sys.heap;
      assert SlotOk(p, h, e);
      queue := queue[1..];
      var raw := new RawAlignedBuffer.FromRawParts(p, sys, e.buf, e.cap);
      assert raw.Valid();
      hide SlotOk;
      hide GoodBlock;
      hide Offset;
      DropBuffer(raw);
      assert sys.heap == sys.heap - {raw.Base()};
    }

    // The pool's last reference goes: the queue is destroyed, and every buffer in it is freed.
    method DropPool()
      requires Valid() && alive
      modifies this`alive, this`queue, sys`heap
      ensures Valid() && !alive && queue == []
      ensures sys.heap == old(sys.heap) - Bases(p, old(queue))
    {
      hide SlotsOk;
      hide SlotOk;
      hide Offset;
      alive := false;
      ghost var all := queue;
      ghost var done := 0;
      while queue != []
        invariant Valid() && !alive && done <= |all| && queue == all[done..]
        invariant sys.heap == old(sys.heap) - Bases(p, all[..done])
        decreases |queue|
      {
        DropFirst();
        assert all[..done + 1][..done] == all[..done];
        done := done + 1;
      }
      assert all[..done] == all;
    }
  }
}
