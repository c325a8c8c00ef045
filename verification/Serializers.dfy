/** `Serializer`: its scratch allocator over a unique buffer. */
module Serializers {
  import opened Words
  import opened Bits
  import opened Layouts
  import opened BlockLayouts
  import opened Memory
  import opened RawBuffers
  import opened UniqueBuffers
  import BufferRuns
  import ScratchRuns

  // Wrapping negation before the remainder does not matter for a power of two.
  lemma WrappedPad(x: nat, align: nat)
    requires IsPow2(align) && 0 < align < WORD
    ensures WrappingSub(0, x) % align == Padding(x, align)
  {
    hide IsPow2;
    var k := AlignLog(align);
    var w := Exact(WORD, align);
    var q, r := (0 - x) / WORD, WrappingSub(0, x);
    Quotients(0 - x, q, w, r, align);
  }

  lemma Quotients(a: int, q: int, w: int, r: int, n: nat)
    requires 0 < n && a == q * (w * n) + r
    ensures a % n == r % n
  {
    var d := r / n;
    assert a == (q * w + d) * n + r % n;
    ModUnique(a, q * w + d, r % n, n);
  }

  function Zeroed(v: BufferRuns.View, need: nat): BufferRuns.View
    requires BufferRuns.Fits(v)
  {
    BufferRuns.View(v.bytes + BufferRuns.Repeat(0, need), Reserved(v.capacity, |v.bytes|, need))
  }

  // A stack over a block with capacity `cap`, somewhere in memory.
  predicate InBlock(p: Params, base: int, cap: nat) {
    && 1 < base && Offset(p) <= base && LayoutOf(p, cap).Some?
    && CanPlace(map[], base - Offset(p), LayoutOf(p, cap).value)
  }

  lemma BlockGuards(p: Params, s: ScratchRuns.Stack, size: nat, align: nat)
    requires 0 < align && s.len <= s.cap
    ensures InBlock(p, s.base, s.cap) && align <= BlockAlign(p) ==> ScratchRuns.Guarded(p, s, size, align)
  {}

  // What `push_alloc` does to the stack `s` with contents `v`.
  ghost predicate Pushes(p: Params, s: ScratchRuns.Stack, v: BufferRuns.View, s': ScratchRuns.Stack, v': BufferRuns.View,
                         size: nat, align: nat, o: Outcome, ptr: int)
    requires 0 < align && s.len <= s.cap && BufferRuns.Fits(v)
  {
    var need := ScratchRuns.Pad(s, align) + size;
    && (!o.Done? ==> v' == v)
    && (o.Done? ==>
          && v' == Zeroed(v, need)
          && ScratchRuns.MayBeAt(p, s, need, s'.base)
          && ptr == s'.base + s.len + ScratchRuns.Pad(s, align))
    && (s.len + need <= s.cap ==> o.Done? && s' == ScratchRuns.Pushed(s, size, align))
  }

  class Serializer {
    const scratch: UniqueAlignedBuffer

    ghost predicate Valid()
      reads scratch, scratch.raw, scratch.raw.sys
    {
      scratch.Valid()
    }

    // The scratch buffer as a stack of bytes at an address.
    ghost function Stack(): (s: ScratchRuns.Stack)
      requires scratch.Valid()
      reads scratch, scratch.raw, scratch.raw.sys
      ensures s.len == scratch.len && s.base == scratch.raw.buf && s.cap == scratch.raw.CapOrLen()
      ensures ValidParams(scratch.raw.p) && 8 <= BlockAlign(scratch.raw.p) && 0 < s.base
      ensures s.len <= s.cap && ScratchRuns.AtBlock(scratch.raw.p, s)
      ensures if scratch.raw.IsAllocated() then InBlock(scratch.raw.p, s.base, s.cap) else s.base == DANGLING && s.cap == 0
    {
      StackBase(scratch.raw);
      ScratchRuns.Stack(scratch.raw.buf, scratch.len, scratch.raw.CapOrLen())
    }

    constructor (scratch: UniqueAlignedBuffer)
      requires scratch.Valid()
      ensures this.scratch == scratch && Valid()
    {
      this.scratch := scratch;
    }

    // The reservation and the zeroing of `push_alloc`.
    method ExtendZeroed(need: nat) returns (o: Outcome)
      requires Valid() && need < WORD
      modifies scratch, scratch.raw, scratch.raw.sys
      ensures Valid() && scratch.raw.Others() == old(scratch.raw.Others()) && !o.Panicked?
      ensures !o.Done? ==> scratch.View() == old(scratch.View())
      ensures o.Failed? ==> o.error == ErrorFor(scratch.raw.p, Reserved(old(scratch.raw.CapOrLen()), old(scratch.len), need))
      ensures o.Done? ==> scratch.View() == Zeroed(old(scratch.View()), need)
      ensures o.Done? ==> BufferRuns.Filled(old(scratch.View()).bytes, scratch.View().bytes, need, 0)
      ensures scratch.raw.sys.refusals == old(scratch.raw.sys.refusals) + Refused(o)
      ensures o.Done? ==> ScratchRuns.MayBeAt(scratch.raw.p, old(Stack()), need, Stack().base)
      ensures old(scratch.len) + need <= old(scratch.raw.CapOrLen()) ==>
                o.Done? && Stack() == old(Stack()).(len := old(scratch.len) + need)
    {
      hide RawAlignedBuffer.Valid;
      hide UniqueAlignedBuffer.View;
      hide RawAlignedBuffer.IsAllocated;
      hide RawAlignedBuffer.CapOrLen;
      ghost var s := Stack();
      o := scratch.TryReserve(need);
      if !o.Done? {
        return;
      }
      scratch.Store(BufferRuns.Repeat(0, need));
      assert Stack().cap == Reserved(s.cap, s.len, need);
    }

    // The body of `push_alloc`: the padding comes from the address before the reservation.
    method PushPadded(size: nat, align: nat) returns (o: Outcome, ptr: int)
      requires Valid() && 0 < align && ValidLayout(Layout(size, align))
      modifies scratch, scratch.raw, scratch.raw.sys
      ensures Valid() && scratch.raw.Others() == old(scratch.raw.Others()) && !o.Panicked?
      ensures Pushes(scratch.raw.p, old(Stack()), old(scratch.View()), Stack(), scratch.View(), size, align, o, ptr)
      ensures o.Done? ==> BufferRuns.Filled(old(scratch.View()).bytes, scratch.View().bytes,
                                            ScratchRuns.Pad(old(Stack()), align) + size, 0)
      ensures scratch.raw.sys.refusals == old(scratch.raw.sys.refusals) + Refused(o)
    {
      hide UniqueAlignedBuffer.Valid;
      hide UniqueAlignedBuffer.View;
      hide RawAlignedBuffer.CapOrLen;
      hide ScratchRuns.MayBeAt;
      hide Zeroed;
      hide BufferRuns.Filled;
      hide Padding;
      hide IsPow2;
      hide Offset;
      ghost var s := Stack();
      var start := scratch.len;
      var offset := scratch.raw.buf + start;
      var pad := WrappingSub(0, offset) % align;
      WrappedPad(offset, align);
      ptr := DANGLING;
      o := ExtendZeroed(pad + size);
      if o.Done? {
        ptr := scratch.raw.buf + start + pad;
      }
    }

    // `push_alloc`; a failed reservation panics or aborts. The memory handed out is zero and
    // behind everything the buffer held, which is kept. It is aligned as requested if the buffer
    // has a block already and the request does not exceed the block's alignment, also when the
    // block is moved; and under the exact guard of `ScratchRuns.AlignedWhereverItGoes`.
    method PushAlloc(size: nat, align: nat) returns (o: Outcome, ptr: int)
      requires Valid() && 0 < align && ValidLayout(Layout(size, align))
      modifies scratch, scratch.raw, scratch.raw.sys
      ensures Valid() && scratch.raw.Others() == old(scratch.raw.Others()) && !o.Panicked?
      ensures Pushes(scratch.raw.p, old(Stack()), old(scratch.View()), Stack(), scratch.View(), size, align, o, ptr)
      ensures o.Done? ==> BufferRuns.Filled(old(scratch.View()).bytes, scratch.View().bytes,
                                            ScratchRuns.Pad(old(Stack()), align) + size, 0)
      ensures scratch.raw.sys.refusals == old(scratch.raw.sys.refusals) + Refused(o)
      ensures o.Done? && old(scratch.raw.IsAllocated()) && align <= BlockAlign(scratch.raw.p) ==> ptr % align == 0
      ensures o.Done? && ScratchRuns.Guarded(scratch.raw.p, old(Stack()), size, align) ==> ptr % align == 0
    {
      hide UniqueAlignedBuffer.Valid;
      hide UniqueAlignedBuffer.View;
      hide RawAlignedBuffer.IsAllocated;
      hide Stack;
      hide ScratchRuns.MayBeAt;
      hide ScratchRuns.Guarded;
      hide ScratchRuns.AtBlock;
      hide ScratchRuns.Pad;
      hide IsPow2;
      hide Zeroed;
      hide BufferRuns.Filled;
      ghost var s, p := Stack(), scratch.raw.p;
      ghost var guarded := ScratchRuns.Guarded(p, s, size, align);
      BlockGuards(p, s, size, align);
      o, ptr := PushPadded(size, align);
      if o.Done? && guarded {
        ScratchRuns.AlignedThere(p, s, size, align, Stack().base);
      }
    }

    // A push that fits.
    method PushInPlace(size: nat, align: nat) returns (ok: bool, a: ScratchRuns.Slot)
      requires Valid() && 0 < align && ValidLayout(Layout(size, align))
      requires ScratchRuns.Pushed(Stack(), size, align).len <= Stack().cap
      modifies scratch, scratch.raw, scratch.raw.sys
      ensures Valid() && ok && Stack() == ScratchRuns.Pushed(old(Stack()), size, align)
      ensures a == ScratchRuns.PushedSlot(old(Stack()), size, align)
    {
      hide UniqueAlignedBuffer.Valid;
      hide UniqueAlignedBuffer.View;
      hide Stack;
      hide RawAlignedBuffer.IsAllocated;
      hide RawAlignedBuffer.CapOrLen;
      hide ScratchRuns.Pad;
      hide ScratchRuns.AtBlock;
      hide ScratchRuns.Guarded;
      hide ScratchRuns.MayBeAt;
      hide InBlock;
      hide Zeroed;
      hide IsPow2;
      var o, ptr := PushAlloc(size, align);
      ok, a := o.Done?, ScratchRuns.Slot(ptr, size);
    }

    // `pop_alloc`
    method PopAlloc(ptr: int, size: nat) returns (r: ScratchRuns.PopResult)
      requires Valid()
      modifies scratch
      ensures Valid() && (Stack(), r) == ScratchRuns.Pop(old(Stack()), ScratchRuns.Slot(ptr, size))
      ensures 0 < size ==> (r.Popped? <==> ScratchRuns.Within(old(Stack()), ScratchRuns.Slot(ptr, size)))
      ensures r.Popped? ==> scratch.len == ptr - scratch.raw.buf
      ensures !r.Popped? ==> scratch.len == old(scratch.len)
      ensures r.NotPoppedInReverseOrder? ==>
                r.pos == scratch.len && r.poppedPos == ptr - scratch.raw.buf < r.pos < r.poppedPos + r.poppedSize && r.poppedSize == size
      ensures scratch.View() == old(scratch.View()).(bytes := old(scratch.View()).bytes[..Stack().len])
    {
      StackBase(scratch.raw);
      hide RawAlignedBuffer.Valid;
      hide RawAlignedBuffer.IsAllocated;
      hide RawAlignedBuffer.CapOrLen;
      hide UniqueAlignedBuffer.View;
      hide BlockAlign;
      hide And;
      hide ValidParams;
      hide InBlock;
      hide ScratchRuns.AtBlock;
      if scratch.raw.buf <= ptr < scratch.raw.buf + scratch.len {
        var pos := ptr - scratch.raw.buf;
        if pos + size <= scratch.len {
          scratch.SetLen(pos);
          r := ScratchRuns.Popped;
        } else {
          r := ScratchRuns.NotPoppedInReverseOrder(scratch.len, pos, size);
        }
      } else {
        r := ScratchRuns.DoesNotContainAllocation;
      }
    }

    // A user making well-bracketed calls on a scratch buffer with room for them: every pop
    // succeeds, the buffer is not moved, and its length ends between where it was and that
    // rounded up.
    method Nest(c: ScratchRuns.Calls, ghost m: nat) returns (ok: bool)
      requires Valid() && ScratchRuns.Requests(c) && ScratchRuns.Roomy(Stack(), c, m)
      modifies scratch, scratch.raw, scratch.raw.sys
      ensures Valid() && ok && Some(Stack()) == ScratchRuns.RunCalls(old(Stack()), c)
      ensures Stack().base == old(Stack()).base && Stack().cap == old(Stack()).cap
      ensures 0 < m && old(Stack()).len <= Stack().len <= ScratchRuns.RoundUp(old(Stack()).len, m)
      decreases c
    {
      hide UniqueAlignedBuffer.Valid;
      hide UniqueAlignedBuffer.View;
      hide Stack;
      hide RawAlignedBuffer.IsAllocated;
      hide RawAlignedBuffer.CapOrLen;
      hide ScratchRuns.Roomy;
      hide ScratchRuns.RoundUp;
      hide ScratchRuns.Pad;
      hide ScratchRuns.AtBlock;
      hide ScratchRuns.Sized;
      hide LayoutOf;
      hide BlockAlign;
      hide ValidParams;
      hide InBlock;
      hide IsPow2;
      hide ValidLayout;
      hide Padding;
      ghost var s := Stack();
      ScratchRuns.Balanced(s, c, m);
      ok := true;
      if c.Scope? {
        hide ScratchRuns.RunCalls;
        ScratchRuns.ScopeFits(s, c, m);
        var pushed, a := PushInPlace(c.size, c.align);
        var inner := Nest(c.inner, m);
        ScratchRuns.ScopeEnds(s, c, m, Stack());
        hide ScratchRuns.Pushed;
        hide ScratchRuns.PushedSlot;
        hide ScratchRuns.Pop;
        var r := PopAlloc(a.ptr, a.size);
        var rest := Nest(c.rest, m);
        ok := pushed && inner && r.Popped? && rest;
      }
    }

    // One call of `Execute`: a push that fits, or a pop of an outstanding allocation.
    method Do(c: ScratchRuns.Call, live: seq<ScratchRuns.Slot>) returns (ok: bool, live': seq<ScratchRuns.Slot>)
      requires Valid() && ScratchRuns.Ordered(ScratchRuns.Scratch(Stack(), live))
      requires ScratchRuns.Next(ScratchRuns.Scratch(Stack(), live), c).Some? && ScratchRuns.IsRequest(c)
      modifies scratch, scratch.raw, scratch.raw.sys
      ensures Valid() && ok
      ensures Some(ScratchRuns.Scratch(Stack(), live')) == ScratchRuns.Next(ScratchRuns.Scratch(old(Stack()), live), c)
    {
      hide UniqueAlignedBuffer.Valid;
      hide UniqueAlignedBuffer.View;
      hide Stack;
      hide ScratchRuns.Ordered;
      hide ScratchRuns.Pad;
      hide ScratchRuns.AtBlock;
      hide ScratchRuns.Guarded;
      hide ScratchRuns.MayBeAt;
      hide InBlock;
      hide LayoutOf;
      hide BlockAlign;
      hide ValidParams;
      hide Zeroed;
      hide IsPow2;
      match c {
        case PushCall(size, align) =>
          var a: ScratchRuns.Slot;
          ok, a := PushInPlace(size, align);
          live' := live + [a];
        case PopCall(index) =>
          ScratchRuns.OutstandingPops(ScratchRuns.Scratch(Stack(), live), index);
          var r := PopAlloc(live[index].ptr, live[index].size);
          ok, live' := r.Popped?, live[..index];
      }
    }

    // Users pushing and popping in any order, as long as it fits the capacity: the buffer goes
    // through the stacks of the run without being moved, every pop of an outstanding allocation
    // succeeds, and at every moment what is outstanding is in bounds and ordered.
    method Execute(cs: seq<ScratchRuns.Call>, ghost ss: seq<ScratchRuns.Scratch>) returns (ok: bool, live: seq<ScratchRuns.Slot>)
      requires Valid() && ScratchRuns.ScratchRun(ss, cs) && ss[0] == ScratchRuns.Scratch(Stack(), [])
      requires forall i :: 0 <= i < |cs| ==> ScratchRuns.IsRequest(cs[i])
      modifies scratch, scratch.raw, scratch.raw.sys
      ensures Valid() && ok && ss[|cs|] == ScratchRuns.Scratch(Stack(), live)
      ensures Stack().base == old(Stack()).base && Stack().cap == old(Stack()).cap
      ensures forall i :: 0 <= i <= |cs| ==> ScratchRuns.Ordered(ss[i])
    {
      ScratchRuns.OutstandingStayDisjoint(ss, cs);
      hide UniqueAlignedBuffer.Valid;
      hide Stack;
      hide ScratchRuns.Next;
      hide ScratchRuns.Ordered;
      hide ScratchRuns.AtBlock;
      hide InBlock;
      hide LayoutOf;
      hide BlockAlign;
      hide ValidParams;
      ok, live := true, [];
      var i := 0;
      while i < |cs|
        invariant Valid() && ok && i <= |cs| && ss[i] == ScratchRuns.Scratch(Stack(), live)
      {
        assert ScratchRuns.Next(ss[i], cs[i]) == Some(ss[i + 1]);
        ok, live := Do(cs[i], live);
        i := i + 1;
      }
    }
  }

  lemma StackBase(raw: RawAlignedBuffer)
    requires raw.Owned()
    ensures ValidParams(raw.p) && 8 <= BlockAlign(raw.p) && 0 < raw.buf
    ensures if raw.IsAllocated() then InBlock(raw.p, raw.buf, raw.CapOrLen()) && raw.buf % BlockAlign(raw.p) == 0
            else raw.buf == DANGLING && raw.CapOrLen() == 0
  {
    ZeroParts();
    if raw.IsAllocated() {
      raw.DataPointerIsAligned();
      assert BlockOk(raw.sys.heap, raw.Base());
    }
  }
}
