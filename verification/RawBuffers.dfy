/** `RawAlignedBuffer`: a pointer to the data, the tagged capacity or length, and the heap behind them. */
module RawBuffers {
  import opened Words
  import opened Bits
  import opened Layouts
  import opened BlockLayouts
  import opened TaggedCaps
  import opened Memory
  import opened Headers
  import Allocators

  datatype RawError = CapacityOverflow | AllocError(layout: Layout)
  datatype Outcome = Done | Failed(error: RawError) | Panicked

  // A capacity without a layout is an overflow; with one, a failure is the allocator's, and
  // carries that layout.
  function ErrorFor(p: Params, cap: nat): RawError {
    var layout := LayoutOf(p, cap);
    if layout.None? then CapacityOverflow else AllocError(layout.value)
  }

  function Refused(o: Outcome): nat {
    if o.Failed? && o.error.AllocError? then 1 else 0
  }

  const MIN_NON_ZERO_CAP: nat := 8

  predicate SamePrefix(s: seq<Byte>, t: seq<Byte>) {
    forall i :: 0 <= i < |s| && i < |t| ==> s[i] == t[i]
  }

  // The capacity amortised growth asks for.
  function Grown(cap: nat, required: nat): (r: nat)
    ensures required <= r && 2 * cap <= r && MIN_NON_ZERO_CAP <= r && cap < r
  {
    Max(MIN_NON_ZERO_CAP, Max(cap * 2, required))
  }

  // The capacity after reserving: unchanged if it suffices, else at least doubled.
  function Reserved(cap: nat, len: nat, additional: nat): (r: nat)
    requires len <= cap
    ensures len + additional <= r && (r == cap || (2 * cap <= r && MIN_NON_ZERO_CAP <= r))
  {
    if additional <= cap - len then cap else Grown(cap, len + additional)
  }

  lemma TooLarge(p: Params, cap: nat)
    requires ValidParams(p) && WORD <= cap
    ensures LayoutOf(p, cap).None?
  {
    LayoutOfIs(p, cap);
  }

  // The word arithmetic of `grow_amortized`: nothing wraps, and a sum that does not fit in a word
  // has no layout either.
  lemma GrownIs(p: Params, cap: nat, len: nat, additional: nat)
    requires ValidParams(p) && cap * 2 < WORD && len < WORD && additional < WORD
    ensures CheckedAdd(len, additional).None? ==> LayoutOf(p, Grown(cap, len + additional)).None?
    ensures CheckedAdd(len, additional).Some? ==>
              && Grown(cap, len + additional) < WORD
              && Grown(cap, len + additional) == Max(MIN_NON_ZERO_CAP, Max(cap * 2 % WORD, CheckedAdd(len, additional).value))
  {
    ModUnique(cap * 2, 0, cap * 2, WORD);
    if WORD <= len + additional {
      TooLarge(p, Grown(cap, len + additional));
    }
  }

  // The wrapping comparison of `needs_to_grow`. For a length above the capacity it only asks for
  // growth when the sum overflows.
  predicate Needs(cap: nat, len: nat, additional: nat) {
    if len <= cap then cap - len < additional else WORD + cap < len + additional
  }

  lemma NeedsIs(cap: nat, len: nat, additional: nat)
    requires cap < WORD && len < WORD
    ensures additional > WrappingSub(cap, len) <==> Needs(cap, len, additional)
  {
    SubWraps(cap, len);
  }

  // Doubling a capacity does not wrap.
  lemma CapIsSmall(c: TaggedCap)
    ensures c.Value() <= MAX_VALUE && c.Value() * 2 < WORD
  {
    UnpackPack(c);
  }

  // What `header.write` leaves in a new block.
  function Initialised(p: Params, s: seq<Byte>, cap: nat): (r: seq<Byte>)
    requires HasHeader(p, s)
    ensures |r| == |s|
  {
    SetCap(p, SetCount(p, s, 1), cap)
  }

  lemma InitialisedIsGood(p: Params, l: Layout, s: seq<Byte>, cap: nat)
    requires ValidParams(p) && LayoutOf(p, cap) == Some(l) && |s| == l.size
    ensures HasHeader(p, s)
    ensures var b := Block(l, Initialised(p, s, cap));
            GoodBlock(p, b) && CountOf(p, b.bytes) == 1 && CapOf(p, b.bytes) == cap
  {
    LayoutOfIs(p, cap);
    CountIsSet(p, s, 1);
    CapIsSet(p, SetCount(p, s, 1), cap);
  }

  method WriteHeader(p: Params, sys: System, base: int, cap: nat)
    requires WellFormed(sys.heap) && base in sys.heap && HasHeader(p, sys.heap[base].bytes)
    modifies sys`heap
    ensures WellFormed(sys.heap)
    ensures sys.heap == old(sys.heap)[base := old(sys.heap)[base].(bytes := Initialised(p, old(sys.heap)[base].bytes, cap))]
  {
    HeaderFits(p);
    sys.Write(base, 0, WordBytes(1));
    sys.Write(base, CapAt(p), WordBytes(cap));
  }

  lemma GainedIsNew(h: Heap, h1: Heap, h2: Heap, base: int, l: Layout)
    requires WellFormed(h) && Gained(h, h1, base, l) && 0 < l.size
    requires base in h2 && h2 == h1[base := h2[base]]
    ensures base !in h && h2 - {base} == h
  {
    assert base !in h;
  }

  // The block at `base` became the one at `moved`, with capacity `cap`: still the same count, a
  // fitting layout, and the data that fits; every other block is untouched.
  predicate Moved(p: Params, h: Heap, h1: Heap, base: int, moved: int, cap: nat)
    requires base in h && GoodBlock(p, h[base])
  {
    && moved in h1 && h1 - {moved} == h - {base} && GoodBlock(p, h1[moved])
    && CountOf(p, h1[moved].bytes) == CountOf(p, h[base].bytes) && CapOf(p, h1[moved].bytes) == cap
    && SamePrefix(DataOf(p, h[base].bytes), DataOf(p, h1[moved].bytes))
  }

  lemma ResizedIsGood(p: Params, h: Heap, h1: Heap, base: int, moved: int, now: Layout, cap: nat)
    requires base in h && GoodBlock(p, h[base]) && LayoutOf(p, cap) == Some(now)
    requires Allocators.Fits(h, base, h[base].layout) && Allocators.Resized(h, h1, base, h[base].layout, now, false, Some(moved))
    ensures moved in h1 && HasHeader(p, h1[moved].bytes)
    ensures var was, s := h[base].bytes, SetCap(p, h1[moved].bytes, cap);
            && GoodBlock(p, Block(now, s)) && CountOf(p, s) == CountOf(p, was) && CapOf(p, s) == cap
            && SamePrefix(DataOf(p, was), DataOf(p, s))
  {
    LayoutOfIs(p, CapOf(p, h[base].bytes));
    LayoutOfIs(p, cap);
    HeaderFits(p);
    var s, t, n := h[base].bytes, h1[moved].bytes, Allocators.Min(h[base].layout.size, now.size);
    PrefixIsKept(p, s, t, n);
    CapIsSet(p, t, cap);
    hide CountOf;
    hide CapOf;
    hide LayoutOf;
    KeptIsPrefix(DataOf(p, s), DataOf(p, t), n - Offset(p));
  }

  lemma KeptIsPrefix(s: seq<Byte>, t: seq<Byte>, n: nat)
    requires (n == |s| <= |t| || n == |t| <= |s|) && s[..n] == t[..n]
    ensures SamePrefix(s, t)
  {
    forall i | 0 <= i < n
      ensures s[i] == t[i]
    {
      assert s[i] == s[..n][i] == t[..n][i];
    }
  }

  // The block's part of `realloc`: the old layout is rebuilt from the capacity.
  method Move(p: Params, sys: System, base: int, was: Layout, now: Layout, cap: nat) returns (r: Option<int>)
    requires WellFormed(sys.heap) && base in sys.heap && GoodBlock(p, sys.heap[base])
    requires sys.heap[base].layout == was && LayoutOf(p, cap) == Some(now) && was.size != now.size
    modifies sys
    ensures WellFormed(sys.heap)
    ensures r.None? ==> sys.heap == old(sys.heap)
    ensures sys.refusals == old(sys.refusals) + if r.None? then 1 else 0
    ensures r.Some? ==> Moved(p, old(sys.heap), sys.heap, base, r.value, cap)
  {
    hide CountOf;
    hide CapOf;
    hide LayoutOf;
    ghost var h := sys.heap;
    assert BlockOk(h, base);
    LayoutOfIs(p, cap);
    if was.size < now.size {
      r := Allocators.GrowImpl(sys, base, was, now, false);
    } else {
      r := Allocators.Shrink(sys, base, was, now);
    }
    if r.None? {
      return;
    }
    ghost var h1 := sys.heap;
    ResizedIsGood(p, h, h1, base, r.value, now, cap);
    HeaderFits(p);
    sys.Write(r.value, CapAt(p), WordBytes(now.size - Offset(p)));
    RemovedIsWellFormed(h, base);
    GainedIsNew(h - {base}, h1, sys.heap, r.value, now);
  }

  // Only the count of the block at `base` changed.
  predicate Recounted(p: Params, h: Heap, h1: Heap, base: int, count: nat)
    requires base in h && GoodBlock(p, h[base])
  {
    && base in h1 && h1 - {base} == h - {base} && GoodBlock(p, h1[base]) && h1[base].layout == h[base].layout
    && CountOf(p, h1[base].bytes) == count && CapOf(p, h1[base].bytes) == CapOf(p, h[base].bytes)
    && DataOf(p, h1[base].bytes) == DataOf(p, h[base].bytes)
  }

  // The atomic updates of the counter.
  method WriteCount(p: Params, sys: System, base: int, count: nat)
    requires WellFormed(sys.heap) && base in sys.heap && GoodBlock(p, sys.heap[base]) && count < WORD
    modifies sys`heap
    ensures WellFormed(sys.heap) && Recounted(p, old(sys.heap), sys.heap, base, count)
  {
    CountIsSet(p, sys.heap[base].bytes, count);
    HeaderFits(p);
    sys.Write(base, 0, WordBytes(count));
  }

  // A store into the data of a block.
  method WriteBlock(p: Params, sys: System, base: int, at: nat, data: seq<Byte>)
    requires WellFormed(sys.heap) && base in sys.heap && GoodBlock(p, sys.heap[base])
    requires at + |data| <= |DataOf(p, sys.heap[base].bytes)|
    modifies sys`heap
    ensures WellFormed(sys.heap) && base in sys.heap && sys.heap - {base} == old(sys.heap) - {base}
    ensures GoodBlock(p, sys.heap[base]) && DataOf(p, sys.heap[base].bytes) == Patched(DataOf(p, old(sys.heap)[base].bytes), at, data)
    ensures CountOf(p, sys.heap[base].bytes) == CountOf(p, old(sys.heap)[base].bytes)
    ensures CapOf(p, sys.heap[base].bytes) == CapOf(p, old(sys.heap)[base].bytes)
  {
    hide CountOf;
    hide CapOf;
    hide LayoutOf;
    DataIsSet(p, sys.heap[base].bytes, at, data);
    sys.Write(base, Offset(p) + at, data);
  }

  lemma ZeroParts()
    ensures ZERO.Value() == 0 && !ZERO.IsAllocated() && New(0, false) == ZERO
  {
    PackUnpack(0, false);
    UnpackPack(ZERO);
  }

  class RawAlignedBuffer {
    const p: Params
    const sys: System
    var buf: int
    var capOrLen: RawCap

    function Base(): int
      requires ValidParams(p)
      reads this
    {
      buf - Offset(p)
    }

    // Without a block the pointer dangles and the word is 0. With one, the pointer is behind
    // the block's header, and the capacity or length is at most the recorded capacity.
    ghost predicate Valid()
      reads this, sys
    {
      && ValidParams(p) && IsWord(capOrLen) && WellFormed(sys.heap)
      && (if capOrLen.IsAllocated() then
            && Base() in sys.heap && GoodBlock(p, sys.heap[Base()])
            && 0 < CapOf(p, sys.heap[Base()].bytes) && capOrLen.Value() <= CapOf(p, sys.heap[Base()].bytes)
          else
            buf == DANGLING && capOrLen == ZERO)
    }

    predicate IsAllocated()
      reads this
    {
      capOrLen.IsAllocated()
    }

    function CapOrLen(): nat
      reads this
    {
      capOrLen.Value()
    }

    ghost function Count(): nat
      requires Valid()
      reads this, sys
    {
      if IsAllocated() then CountOf(p, sys.heap[Base()].bytes) else 1
    }

    ghost function HeaderCap(): nat
      requires Valid()
      reads this, sys
    {
      if IsAllocated() then CapOf(p, sys.heap[Base()].bytes) else 0
    }

    ghost function Data(): (d: seq<Byte>)
      requires Valid()
      reads this, sys
      ensures |d| == HeaderCap()
    {
      if IsAllocated() then
        DataIsCapacity(p, sys.heap[Base()]);
        DataOf(p, sys.heap[Base()].bytes)
      else
        []
    }

    // The rest of the heap.
    ghost function Others(): Heap
      requires Valid()
      reads this, sys
    {
      if IsAllocated() then sys.heap - {Base()} else sys.heap
    }

    // The state of a unique buffer: the word is the capacity, and the header counts one handle.
    ghost predicate Owned()
      reads this, sys
    {
      Valid() && CapOrLen() == HeaderCap() && Count() == 1
    }

    constructor (p: Params, sys: System)
      requires ValidParams(p) && WellFormed(sys.heap)
      ensures this.p == p && this.sys == sys && Owned() && !IsAllocated() && CapOrLen() == 0
    {
      this.p := p;
      this.sys := sys;
      buf := DANGLING;
      capOrLen := ZERO;
    }

    lemma DataPointerIsAligned()
      requires Valid() && IsAllocated()
      ensures buf % p.alignment == 0 && buf % BlockAlign(p) == 0 && Base() > 0
    {
      assert BlockOk(sys.heap, Base());
      LayoutOfIs(p, CapOf(p, sys.heap[Base()].bytes));
      DataIsAligned(p, Base());
    }

    // `from_raw_parts_in`
    constructor FromRawParts(p: Params, sys: System, buf: int, capOrLen: RawCap)
      ensures this.p == p && this.sys == sys && this.buf == buf && this.capOrLen == capOrLen
    {
      this.p := p;
      this.sys := sys;
      this.buf := buf;
      this.capOrLen := capOrLen;
    }

    // `Self::alloc`
    method Alloc(cap: nat) returns (o: Outcome)
      requires Owned() && !IsAllocated() && 0 < cap < WORD
      modifies this, sys
      ensures Owned() && Others() == old(Others())
      ensures o == Failed(CapacityOverflow) <==> LayoutOf(p, cap).None?
      ensures o.Failed? ==> o.error == ErrorFor(p, cap)
      ensures o.Failed? && LayoutOf(p, cap).Some? ==> o.error == AllocError(LayoutOf(p, cap).value)
      ensures o.Done? ==> IsAllocated() && CapOrLen() == cap
      ensures !o.Done? ==> o.Failed? && buf == old(buf) && capOrLen == old(capOrLen) && sys.heap == old(sys.heap)
      ensures sys.refusals == old(sys.refusals) + Refused(o)
    {
      hide CountOf;
      hide CapOf;
      hide And;
      hide Or;
      var layout := LayoutOf(p, cap);
      if layout.None? {
        return Failed(CapacityOverflow);
      }
      LayoutOfIs(p, cap);
      var ptr := Allocators.AllocImpl(sys, layout.value, false);
      if ptr.None? {
        return Failed(AllocError(layout.value));
      }
      var base := ptr.value;
      ghost var h := sys.heap;
      InitialisedIsGood(p, layout.value, h[base].bytes, cap);
      WriteHeader(p, sys, base, layout.value.size - Offset(p));
      GainedIsNew(old(sys.heap), h, sys.heap, base, layout.value);
      buf := base + Offset(p);
      capOrLen := New(cap, true);
      PackUnpack(cap, true);
      o := Done;
    }

    // `Self::realloc`
    method Realloc(cap: nat) returns (o: Outcome)
      requires Owned() && IsAllocated() && 0 < cap < WORD
      modifies this, sys
      ensures Owned() && IsAllocated() && Others() == old(Others())
      ensures o == Failed(CapacityOverflow) <==> LayoutOf(p, cap).None?
      ensures o.Failed? ==> o.error == ErrorFor(p, cap)
      ensures o.Failed? && LayoutOf(p, cap).Some? ==> o.error == AllocError(LayoutOf(p, cap).value)
      ensures o.Done? ==> CapOrLen() == cap && SamePrefix(old(Data()), Data())
      ensures !o.Done? ==> o.Failed? && buf == old(buf) && capOrLen == old(capOrLen) && sys.heap == old(sys.heap)
      ensures sys.refusals == old(sys.refusals) + Refused(o)
    {
      hide CountOf;
      hide CapOf;
      hide And;
      hide Or;
      var now := LayoutOf(p, cap);
      if now.None? {
        return Failed(CapacityOverflow);
      }
      var base := Base();
      var was := LayoutOf(p, CapOrLen()).value;
      LayoutOfIs(p, CapOrLen());
      LayoutOfIs(p, cap);
      if was.size == now.value.size {
        return Done;
      }
      var ptr := Move(p, sys, base, was, now.value, cap);
      if ptr.None? {
        return Failed(AllocError(now.value));
      }
      buf := ptr.value + Offset(p);
      WithValueIsNew(capOrLen, cap);
      PackUnpack(cap, true);
      capOrLen := capOrLen.WithValue(now.value.size - Offset(p));
      o := Done;
    }

    // `grow_to`
    method GrowTo(cap: nat) returns (o: Outcome)
      requires Owned() && CapOrLen() < cap < WORD
      modifies this, sys
      ensures Owned() && Others() == old(Others())
      ensures o == Failed(CapacityOverflow) <==> LayoutOf(p, cap).None?
      ensures o.Failed? ==> o.error == ErrorFor(p, cap)
      ensures o.Done? ==> IsAllocated() && CapOrLen() == cap && SamePrefix(old(Data()), Data())
      ensures !o.Done? ==> o.Failed? && buf == old(buf) && capOrLen == old(capOrLen) && sys.heap == old(sys.heap)
      ensures sys.refusals == old(sys.refusals) + Refused(o)
    {
      if !capOrLen.IsAllocated() {
        o := Alloc(cap);
      } else {
        o := Realloc(cap);
      }
    }

    // `needs_to_grow`
    predicate NeedsToGrow(len: nat, additional: nat)
      reads this
    {
      additional > WrappingSub(CapOrLen(), len)
    }

    // `try_reserve`; `reserve` panics or aborts where this fails. With a length above the
    // capacity nothing is ever reserved: it reports an overflow or succeeds as it is.
    method TryReserve(len: nat, additional: nat) returns (o: Outcome)
      requires Owned() && len < WORD && additional < WORD
      modifies this, sys
      ensures Owned() && Others() == old(Others())
      ensures o == Failed(CapacityOverflow) <==>
                && Needs(old(CapOrLen()), len, additional)
                && (len <= old(CapOrLen()) ==> LayoutOf(p, Reserved(old(CapOrLen()), len, additional)).None?)
      ensures o.Done? && len <= old(CapOrLen()) ==>
                CapOrLen() == Reserved(old(CapOrLen()), len, additional) && SamePrefix(old(Data()), Data())
      ensures !o.Done? ==> o.Failed?
      ensures o.Failed? && len <= old(CapOrLen()) ==> o.error == ErrorFor(p, Reserved(old(CapOrLen()), len, additional))
      ensures !o.Done? || !Needs(old(CapOrLen()), len, additional) || old(CapOrLen()) < len ==>
                buf == old(buf) && capOrLen == old(capOrLen) && sys.heap == old(sys.heap)
      ensures !Needs(old(CapOrLen()), len, additional) ==> o.Done?
      ensures sys.refusals == old(sys.refusals) + Refused(o)
    {
      CapIsSmall(capOrLen);
      NeedsIs(CapOrLen(), len, additional);
      if !NeedsToGrow(len, additional) {
        return Done;
      }
      if CapOrLen() < len {
        TooLarge(p, Grown(CapOrLen(), len + additional));
      }
      o := GrowAmortized(len, additional);
    }

    method GrowAmortized(len: nat, additional: nat) returns (o: Outcome)
      requires Owned() && len < WORD && 0 < additional < WORD
      modifies this, sys
      ensures Owned() && Others() == old(Others())
      ensures o == Failed(CapacityOverflow) <==> LayoutOf(p, Grown(old(CapOrLen()), len + additional)).None?
      ensures o.Failed? ==> o.error == ErrorFor(p, Grown(old(CapOrLen()), len + additional))
      ensures o.Done? ==> CapOrLen() == Grown(old(CapOrLen()), len + additional) && SamePrefix(old(Data()), Data())
      ensures !o.Done? ==> o.Failed? && buf == old(buf) && capOrLen == old(capOrLen) && sys.heap == old(sys.heap)
      ensures sys.refusals == old(sys.refusals) + Refused(o)
    {
      CapIsSmall(capOrLen);
      GrownIs(p, CapOrLen(), len, additional);
      hide CountOf;
      hide CapOf;
      hide And;
      hide LayoutOf;
      hide Grown;
      var required := CheckedAdd(len, additional);
      if required.None? {
        return Failed(CapacityOverflow);
      }
      // the doubling is a machine multiplication
      var cap := Max(CapOrLen() * 2 % WORD, required.value);
      o := GrowTo(Max(MIN_NON_ZERO_CAP, cap));
    }

    // `try_reserve_exact`; a length above the capacity is treated alike.
    method TryReserveExact(len: nat, additional: nat) returns (o: Outcome)
      requires Owned() && len < WORD && additional < WORD
      modifies this, sys
      ensures Owned() && Others() == old(Others())
      ensures o == Failed(CapacityOverflow) <==>
                Needs(old(CapOrLen()), len, additional) && LayoutOf(p, len + additional).None?
      ensures o.Done? && len <= old(CapOrLen()) ==>
                CapOrLen() == Max(old(CapOrLen()), len + additional) && SamePrefix(old(Data()), Data())
      ensures !o.Done? ==> o.Failed?
      ensures o.Failed? ==> o.error == ErrorFor(p, len + additional)
      ensures !o.Done? || !Needs(old(CapOrLen()), len, additional) || old(CapOrLen()) < len ==>
                buf == old(buf) && capOrLen == old(capOrLen) && sys.heap == old(sys.heap)
      ensures !Needs(old(CapOrLen()), len, additional) ==> o.Done?
      ensures sys.refusals == old(sys.refusals) + Refused(o)
    {
      CapIsSmall(capOrLen);
      NeedsIs(CapOrLen(), len, additional);
      if WORD <= len + additional {
        TooLarge(p, len + additional);
      }
      if !NeedsToGrow(len, additional) {
        return Done;
      }
      var cap := CheckedAdd(len, additional);
      if cap.None? {
        return Failed(CapacityOverflow);
      }
      o := GrowTo(cap.value);
    }

    // `dealloc_slow`: the allocator rebuilds the layout from the given capacity and frees.
    method DeallocSlow(cap: RawCap)
      requires Valid() && IsAllocated() && cap.Value() == HeaderCap()
      modifies sys`heap
      ensures sys.heap == old(Others()) && WellFormed(sys.heap)
    {
      hide CountOf;
      hide CapOf;
      hide And;
      var layout := LayoutOf(p, cap.Value());
      LayoutOfIs(p, cap.Value());
      assert BlockOk(sys.heap, Base());
      Allocators.Deallocate(sys, Base(), layout.value);
    }

    // The end of `dealloc_buf`: the block is someone else's now.
    method Detach()
      requires ValidParams(p) && WellFormed(sys.heap)
      modifies this
      ensures Owned() && !IsAllocated() && CapOrLen() == 0
    {
      ZeroParts();
      buf := DANGLING;
      capOrLen := ZERO;
    }

    // `shrink`; `shrink_to_fit` panics or aborts where this fails.
    method Shrink(cap: nat) returns (o: Outcome)
      requires Owned() && cap < WORD
      modifies this, sys
      ensures Owned() && Others() == old(Others())
      ensures o == Panicked <==> cap > old(CapOrLen())
      ensures o.Failed? ==> 0 < cap < old(CapOrLen()) && o.error == ErrorFor(p, cap)
      ensures o.Done? ==> CapOrLen() == cap && SamePrefix(old(Data()), Data())
      ensures o.Done? && cap == 0 ==> !IsAllocated()
      ensures !o.Done? ==> buf == old(buf) && capOrLen == old(capOrLen) && sys.heap == old(sys.heap)
      ensures sys.refusals == old(sys.refusals) + Refused(o)
    {
      if cap > CapOrLen() {
        return Panicked;
      }
      if cap == CapOrLen() {
        return Done;
      }
      if cap == 0 {
        DeallocSlow(capOrLen);
        Detach();
        return Done;
      }
      o := Realloc(cap);
    }

    // `reset_len`: from here on the word is a length.
    method ResetLen(len: nat)
      requires Owned() && len <= CapOrLen()
      modifies this
      ensures Valid() && CapOrLen() == len && IsAllocated() == old(IsAllocated()) && buf == old(buf)
      ensures HeaderCap() == old(HeaderCap()) && Data() == old(Data()) && Count() == old(Count()) && Others() == old(Others())
    {
      hide And;
      hide Or;
      hide CountOf;
      hide CapOf;
      CapIsSmall(capOrLen);
      WithValueIsNew(capOrLen, len);
      PackUnpack(len, capOrLen.IsAllocated());
      ZeroParts();
      capOrLen := capOrLen.WithValue(len);
    }

    // `reset_cap`: the capacity comes back from the header.
    method ResetCap()
      requires Valid()
      modifies this
      ensures Valid() && CapOrLen() == HeaderCap() && IsAllocated() == old(IsAllocated()) && buf == old(buf)
      ensures HeaderCap() == old(HeaderCap()) && Data() == old(Data()) && Count() == old(Count()) && Others() == old(Others())
    {
      if !capOrLen.IsAllocated() {
        ZeroParts();
        return;
      }
      hide And;
      hide Or;
      hide CountOf;
      var cap := CapOf(p, sys.heap[Base()].bytes);
      LayoutOfIs(p, cap);
      PackUnpack(cap, true);
      capOrLen := New(cap, true);
    }

    // `ref_count`, as compiled without debug assertions.
    method RefCount() returns (n: nat)
      requires Valid()
      ensures n == Count()
    {
      if !capOrLen.IsAllocated() {
        return 1;
      }
      n := CountOf(p, sys.heap[Base()].bytes);
    }

    // `ref_clone`; `None` is the abort on a runaway count.
    method RefClone() returns (r: Option<RawAlignedBuffer>)
      requires Valid()
      modifies sys`heap
      ensures Valid() && HeaderCap() == old(HeaderCap()) && Data() == old(Data()) && Others() == old(Others())
      ensures Count() == if IsAllocated() then WrappingAdd(old(Count()), 1) else 1
      ensures IsAllocated() ==> Recounted(p, old(sys.heap), sys.heap, Base(), WrappingAdd(old(Count()), 1))
      ensures r.None? <==> IsAllocated() && MAX_REFCOUNT < old(Count())
      ensures r.Some? ==>
                && fresh(r.value) && r.value.p == p && r.value.sys == sys && r.value.Valid()
                && r.value.buf == buf && r.value.capOrLen == capOrLen
    {
      if !capOrLen.IsAllocated() {
        var empty := new RawAlignedBuffer(p, sys);
        return Some(empty);
      }
      var count := CountOf(p, sys.heap[Base()].bytes);
      WriteCount(p, sys, Base(), WrappingAdd(count, 1));
      if MAX_REFCOUNT < count {
        return None;
      }
      var clone := new RawAlignedBuffer.FromRawParts(p, sys, buf, capOrLen);
      r := Some(clone);
    }

    // `drop`
    method Drop()
      requires Valid()
      modifies sys`heap
      ensures WellFormed(sys.heap)
      ensures !IsAllocated() ==> sys.heap == old(sys.heap)
      ensures IsAllocated() && old(Count()) == 1 ==> sys.heap == old(Others())
      ensures IsAllocated() && old(Count()) != 1 ==>
                Recounted(p, old(sys.heap), sys.heap, Base(), WrappingSub(old(Count()), 1))
    {
      if !capOrLen.IsAllocated() {
        return;
      }
      var count := CountOf(p, sys.heap[Base()].bytes);
      WriteCount(p, sys, Base(), WrappingSub(count, 1));
      if count != 1 {
        return;
      }
      WriteCount(p, sys, Base(), 1);
      var cap := CapOf(p, sys.heap[Base()].bytes);
      LayoutOfIs(p, cap);
      PackUnpack(cap, true);
      DeallocSlow(New(cap, true));
    }

    // A store through the data pointer.
    method WriteData(at: nat, data: seq<Byte>)
      requires Valid() && at + |data| <= HeaderCap()
      modifies sys`heap
      ensures Valid() && Data() == Patched(old(Data()), at, data)
      ensures HeaderCap() == old(HeaderCap()) && Count() == old(Count()) && Others() == old(Others())
    {
      if !capOrLen.IsAllocated() {
        return;
      }
      hide CountOf;
      hide CapOf;
      hide DataOf;
      hide LayoutOf;
      hide Patched;
      hide And;
      DataIsCapacity(p, sys.heap[Base()]);
      WriteBlock(p, sys, Base(), at, data);
    }
  }
}
