/**
 The serializer's scratch memory as a stack of allocations in one buffer: pushes pad to the
 requested alignment, pops cut the length back to where an allocation starts.
 */
module ScratchRuns {
  import opened Words
  import opened Bits
  import opened Layouts
  import opened BlockLayouts
  import Memory
  import RawBuffers

  // The address of the buffer's data, and its length and capacity.
  datatype Stack = Stack(base: nat, len: nat, cap: nat)

  datatype Slot = Slot(ptr: int, size: nat)

  datatype PopResult =
    | Popped
    | NotPoppedInReverseOrder(pos: nat, poppedPos: nat, poppedSize: nat)
    | DoesNotContainAllocation

  // The padding is computed from the address before room is reserved.
  function Pad(s: Stack, align: nat): nat
    requires 0 < align
  {
    Padding(s.base + s.len, align)
  }

  function Pushed(s: Stack, size: nat, align: nat): Stack
    requires 0 < align
  {
    s.(len := s.len + Pad(s, align) + size)
  }

  function PushedSlot(s: Stack, size: nat, align: nat): Slot
    requires 0 < align
  {
    Slot(s.base + s.len + Pad(s, align), size)
  }

  function Pop(s: Stack, a: Slot): (Stack, PopResult) {
    if s.base <= a.ptr < s.base + s.len then
      var pos := a.ptr - s.base;
      if pos + a.size <= s.len then (s.(len := pos), Popped) else (s, NotPoppedInReverseOrder(s.len, pos, a.size))
    else
      (s, DoesNotContainAllocation)
  }

  function RoundUp(x: nat, m: nat): (r: nat)
    requires 0 < m
    ensures x <= r
  {
    x + Padding(x, m)
  }

  // A push starts at the first address behind the stack that is aligned as requested, and the
  // stack ends with it.
  lemma PushIsTight(s: Stack, size: nat, align: nat)
    requires 0 < align
    ensures var a, t := PushedSlot(s, size, align), Pushed(s, size, align);
            && a.size == size && a.ptr % align == 0 && s.base + s.len <= a.ptr
            && (forall x :: s.base + s.len <= x < a.ptr ==> x % align != 0)
            && t == Stack(s.base, a.ptr + size - s.base, s.cap)
  {
    var end := s.base + s.len;
    PaddingIsLeast(end, align);
    forall x | end <= x < end + Pad(s, align)
      ensures x % align != 0
    {
      assert (end + (x - end)) % align != 0;
    }
  }

  predicate Within(s: Stack, a: Slot) {
    0 < a.size && s.base <= a.ptr && a.ptr + a.size <= s.base + s.len
  }

  // A pop succeeds exactly for what lies in the initialised part, and cuts back to where that
  // starts; else it changes nothing and tells why.
  lemma PopAcceptsIff(s: Stack, a: Slot)
    requires 0 < a.size
    ensures Pop(s, a).1.Popped? <==> Within(s, a)
    ensures Within(s, a) ==> Pop(s, a).0 == Stack(s.base, a.ptr - s.base, s.cap)
    ensures s.base <= a.ptr < s.base + s.len < a.ptr + a.size ==>
              Pop(s, a) == (s, NotPoppedInReverseOrder(s.len, a.ptr - s.base, a.size))
    ensures a.ptr < s.base || s.base + s.len <= a.ptr ==> Pop(s, a) == (s, DoesNotContainAllocation)
  {}

  // ---------- well-bracketed calls

  // Each scope pushes, makes its inner calls, pops what it pushed, and goes on.
  datatype Calls = End | Scope(size: nat, align: nat, inner: Calls, rest: Calls)

  predicate Sized(c: Calls, m: nat) {
    c.Scope? ==> 0 < c.size && 0 < c.align && 0 < m && m % c.align == 0 && Sized(c.inner, m) && Sized(c.rest, m)
  }

  // Every request is one a caller may make.
  predicate Requests(c: Calls) {
    c.Scope? ==> 0 < c.align && ValidLayout(Layout(c.size, c.align)) && Requests(c.inner) && Requests(c.rest)
  }

  // `None` if a pop fails or a push does not fit the capacity.
  function RunCalls(s: Stack, c: Calls): Option<Stack>
    decreases c
  {
    if c.End? then
      Some(s)
    else if c.align == 0 then
      None
    else
      var a, t := PushedSlot(s, c.size, c.align), Pushed(s, c.size, c.align);
      if t.cap < t.len then
        None
      else
        match RunCalls(t, c.inner)
        case None => None
        case Some(u) =>
          var (v, r) := Pop(u, a);
          if r.Popped? then RunCalls(v, c.rest) else None
  }

  // How far above its rounded start a run may reach.
  function Need(c: Calls, m: nat): nat
    requires 0 < m
  {
    if c.End? then 0 else Max(RoundUp(c.size, m) + Need(c.inner, m), Need(c.rest, m))
  }

  // The calls divide `m`, the data is aligned to it, and the capacity suffices.
  predicate Roomy(s: Stack, c: Calls, m: nat) {
    0 < m && Sized(c, m) && s.base % m == 0 && RoundUp(s.len, m) + Need(c, m) <= s.cap
  }

  // The room that suffices for a scope suffices for its inner calls and for those after it.
  lemma ScopeFits(s: Stack, c: Calls, m: nat)
    requires c.Scope? && Roomy(s, c, m)
    ensures 0 < c.size && 0 < c.align && 0 < m && Pushed(s, c.size, c.align).len <= s.cap
    ensures Roomy(Pushed(s, c.size, c.align), c.inner, m) && Roomy(s.(len := s.len + Pad(s, c.align)), c.rest, m)
    ensures RoundUp(s.len + Pad(s, c.align), m) == RoundUp(s.len, m)
  {
    hide RoundUp;
    hide Pad;
    PadsWithin(s, c.align, m);
    RoundsTogether(s.len, s.len + Pad(s, c.align), c.size, m);
  }

  // Every pop of a well-bracketed run succeeds. Padding is not given back, but it does not pile
  // up either: the length ends between where it was and that rounded up.
  lemma {:induction false} Balanced(s: Stack, c: Calls, m: nat)
    requires Roomy(s, c, m)
    ensures 0 < m && RunCalls(s, c).Some?
    ensures var t := RunCalls(s, c).value;
            t.base == s.base && t.cap == s.cap && s.len <= t.len <= RoundUp(s.len, m)
    decreases c
  {
    hide RoundUp;
    hide Pad;
    if c.Scope? {
      var t, v := Pushed(s, c.size, c.align), s.(len := s.len + Pad(s, c.align));
      ScopeFits(s, c, m);
      hide Roomy;
      Balanced(t, c.inner, m);
      PopReturns(s, c.size, c.align, RunCalls(t, c.inner).value);
      ScopeRuns(s, c, RunCalls(t, c.inner).value, v);
      Balanced(v, c.rest, m);
    }
  }

  // One scope of a run, once its inner calls and its pop are known.
  lemma ScopeRuns(s: Stack, c: Calls, u: Stack, v: Stack)
    requires c.Scope? && 0 < c.align && Pushed(s, c.size, c.align).len <= s.cap
    requires RunCalls(Pushed(s, c.size, c.align), c.inner) == Some(u)
    requires Pop(u, PushedSlot(s, c.size, c.align)) == (v, Popped)
    ensures RunCalls(s, c) == RunCalls(v, c.rest)
  {
    hide Pop;
    hide Padding;
  }

  lemma PopReturns(s: Stack, size: nat, align: nat, u: Stack)
    requires 0 < size && 0 < align && u.base == s.base && u.cap == s.cap && Pushed(s, size, align).len <= u.len
    ensures Pop(u, PushedSlot(s, size, align)) == (s.(len := s.len + Pad(s, align)), Popped)
  {}

  // A start aligned to a divisor of `m` is found before the next multiple of `m`.
  lemma PadsWithin(s: Stack, align: nat, m: nat)
    requires 0 < align && 0 < m && m % align == 0 && s.base % m == 0
    ensures s.len + Pad(s, align) <= RoundUp(s.len, m)
    ensures RoundUp(s.len + Pad(s, align), m) == RoundUp(s.len, m)
  {
    var top := RoundUp(s.len, m);
    PaddingIsLeast(s.len, m);
    SumOfMultiples(s.base, top, m);
    DividesThrough(s.base + top, m, align);
    PaddingIsLeast(s.base + s.len, align);
    assert (s.base + top) % align == 0;
    RoundsTo(s.len, s.len + Pad(s, align), m);
  }

  lemma RoundsTo(x: nat, y: nat, m: nat)
    requires 0 < m && x <= y <= RoundUp(x, m)
    ensures RoundUp(y, m) == RoundUp(x, m)
  {
    PaddingIsLeast(x, m);
    PaddingIsLeast(y, m);
    assert RoundUp(x, m) % m == 0 && RoundUp(y, m) % m == 0;
  }

  lemma RoundsTogether(x: nat, start: nat, size: nat, m: nat)
    requires 0 < m && start <= RoundUp(x, m)
    ensures RoundUp(start + size, m) <= RoundUp(x, m) + RoundUp(size, m)
  {
    PaddingIsLeast(x, m);
    PaddingIsLeast(size, m);
    PaddingIsLeast(start + size, m);
    SumOfMultiples(RoundUp(x, m), RoundUp(size, m), m);
    assert (RoundUp(x, m) + RoundUp(size, m)) % m == 0;
  }

  // The end of a scope, once its inner calls have run.
  lemma ScopeEnds(s: Stack, c: Calls, m: nat, u: Stack)
    requires c.Scope? && Roomy(s, c, m) && 0 < c.align && RunCalls(Pushed(s, c.size, c.align), c.inner) == Some(u)
    ensures var v := s.(len := s.len + Pad(s, c.align));
            && Pop(u, PushedSlot(s, c.size, c.align)) == (v, Popped)
            && Roomy(v, c.rest, m) && RunCalls(s, c) == RunCalls(v, c.rest)
  {
    hide RoundUp;
    hide Pad;
    ScopeFits(s, c, m);
    hide Roomy;
    Balanced(Pushed(s, c.size, c.align), c.inner, m);
    PopReturns(s, c.size, c.align, u);
    ScopeRuns(s, c, u, s.(len := s.len + Pad(s, c.align)));
  }

  // The upper bound is reached: one scope with the largest alignment keeps all its padding.
  lemma BoundIsReached(s: Stack, size: nat, m: nat)
    requires 0 < size && 0 < m && s.base % m == 0 && RoundUp(s.len, m) + size <= s.cap
    ensures RunCalls(s, Scope(size, m, End, End)) == Some(s.(len := RoundUp(s.len, m)))
  {
    hide Padding;
    PadAtMultiple(s, m);
    PopLeavesPadding(s, size, m);
    var c, t, v := Scope(size, m, End, End), Pushed(s, size, m), s.(len := s.len + Pad(s, m));
    assert RunCalls(t, c.inner) == Some(t);
    assert RunCalls(s, c) == RunCalls(v, c.rest);
    assert s.len + Pad(s, m) == RoundUp(s.len, m);
    assert v == s.(len := RoundUp(s.len, m));
    assert RunCalls(v, End) == Some(v);
    assert c.rest == End;
  }

  lemma PopLeavesPadding(s: Stack, size: nat, align: nat)
    requires 0 < size && 0 < align
    ensures Pop(Pushed(s, size, align), PushedSlot(s, size, align)) == (s.(len := s.len + Pad(s, align)), Popped)
  {}

  lemma PadAtMultiple(s: Stack, m: nat)
    requires 0 < m && s.base % m == 0
    ensures Pad(s, m) == Padding(s.len, m)
  {
    var q := Exact(s.base, m);
    var d: int, r: int := (0 - s.len) / m, (0 - s.len) % m;
    assert 0 - (s.base + s.len) == (d - q) * m + r;
    ModUnique(0 - (s.base + s.len), d - q, r, m);
  }

  // ---------- arbitrary runs

  // The stack and its outstanding allocations, oldest first.
  datatype Scratch = Scratch(stack: Stack, live: seq<Slot>)

  // A pop names any outstanding allocation, not necessarily the newest.
  datatype Call = PushCall(size: nat, align: nat) | PopCall(index: nat)

  // `None`: the call is not one to make, or the push would move the buffer. Cutting the stack
  // back to an allocation gives up the newer ones with it.
  function Next(s: Scratch, c: Call): Option<Scratch> {
    match c
    case PushCall(size, align) =>
      if size == 0 || align == 0 || s.stack.cap < Pushed(s.stack, size, align).len then
        None
      else
        Some(Scratch(Pushed(s.stack, size, align), s.live + [PushedSlot(s.stack, size, align)]))
    case PopCall(index) =>
      if |s.live| <= index then
        None
      else
        var (t, r) := Pop(s.stack, s.live[index]);
        Some(if r.Popped? then Scratch(t, s.live[..index]) else s)
  }

  // A layout a caller may ask for.
  predicate IsRequest(c: Call) {
    c.PushCall? ==> 0 < c.align && ValidLayout(Layout(c.size, c.align))
  }

  // Outstanding allocations lie in the initialised part, one behind the other.
  predicate Ordered(s: Scratch) {
    && s.stack.len <= s.stack.cap
    && (forall i :: 0 <= i < |s.live| ==> Within(s.stack, s.live[i]))
    && (forall i, j :: 0 <= i < j < |s.live| ==> s.live[i].ptr + s.live[i].size <= s.live[j].ptr)
  }

  // Popping an outstanding allocation succeeds, and leaves the stack where it started.
  lemma OutstandingPops(s: Scratch, index: nat)
    requires Ordered(s) && index < |s.live|
    ensures Pop(s.stack, s.live[index]) == (s.stack.(len := s.live[index].ptr - s.stack.base), Popped)
  {
    assert Within(s.stack, s.live[index]);
  }

  lemma NextKeepsOrdered(s: Scratch, c: Call)
    requires Ordered(s) && Next(s, c).Some?
    ensures Ordered(Next(s, c).value)
  {
    var t := Next(s, c).value;
    match c
    case PushCall(size, align) =>
      hide Pad;
      forall i | 0 <= i < |t.live|
        ensures Within(t.stack, t.live[i])
      {
        if i < |s.live| {
          assert Within(s.stack, s.live[i]);
        }
      }
    case PopCall(index) =>
      OutstandingPops(s, index);
      forall i | 0 <= i < index
        ensures Within(t.stack, t.live[i])
      {
        assert Within(s.stack, s.live[i]);
      }
  }

  predicate ScratchRun(ss: seq<Scratch>, cs: seq<Call>) {
    && |ss| == |cs| + 1
    && forall i :: 0 <= i < |cs| ==> Next(ss[i], cs[i]) == Some(ss[i + 1])
  }

  // Over any run that fits the capacity, whatever is popped and in whatever order, outstanding
  // allocations stay in bounds, ordered and so pairwise disjoint.
  lemma {:induction false} OutstandingStayDisjoint(ss: seq<Scratch>, cs: seq<Call>)
    requires ScratchRun(ss, cs) && ss[0].live == [] && ss[0].stack.len <= ss[0].stack.cap
    ensures forall i :: 0 <= i < |ss| ==> Ordered(ss[i])
    ensures forall i :: 0 <= i < |ss| ==> ss[i].stack.base == ss[0].stack.base && ss[i].stack.cap == ss[0].stack.cap
  {
    var n := |cs|;
    if n > 0 {
      OutstandingStayDisjoint(ss[..n], cs[..n - 1]);
      assert ss[..n][n - 1] == ss[n - 1] && Next(ss[n - 1], cs[n - 1]) == Some(ss[n]);
      NextKeepsOrdered(ss[n - 1], cs[n - 1]);
    }
  }

  // Any pops at all, of any addresses and sizes.
  function PopAll(s: Stack, slots: seq<Slot>): Stack
    decreases |slots|
  {
    if slots == [] then s else PopAll(Pop(s, slots[0]).0, slots[1..])
  }

  lemma {:induction false} PopsOnlyLower(s: Stack, slots: seq<Slot>)
    ensures var t := PopAll(s, slots); t.base == s.base && t.cap == s.cap && t.len <= s.len
    decreases |slots|
  {
    if slots != [] {
      PopsOnlyLower(Pop(s, slots[0]).0, slots[1..]);
    }
  }

  // Once an allocation is popped, it and every later one are refused, through any further pops,
  // until something is pushed again.
  lemma PoppedStaysGone(s: Scratch, index: nat, later: nat, slots: seq<Slot>)
    requires Ordered(s) && index <= later < |s.live|
    ensures var u := PopAll(Pop(s.stack, s.live[index]).0, slots);
            Pop(u, s.live[later]) == (u, DoesNotContainAllocation)
  {
    OutstandingPops(s, index);
    PopsOnlyLower(Pop(s.stack, s.live[index]).0, slots);
  }

  predicate AllWithin(s: Stack, live: seq<Slot>) {
    forall i :: 0 <= i < |live| ==> Within(s, live[i])
  }

  // At any moment of any run, a pop of any address and size, outstanding or not: an outstanding
  // allocation survives it exactly if the pop is refused or starts behind the allocation.
  lemma SurvivesPopIff(ss: seq<Scratch>, cs: seq<Call>, k: nat, a: Slot, i: nat)
    requires ScratchRun(ss, cs) && ss[0].live == [] && ss[0].stack.len <= ss[0].stack.cap
    requires k < |ss| && i < |ss[k].live| && 0 < a.size
    ensures var s, b := ss[k].stack, ss[k].live[i];
            Within(Pop(s, a).0, b) <==> !Within(s, a) || b.ptr + b.size <= a.ptr
  {
    OutstandingStayDisjoint(ss, cs);
    assert Within(ss[k].stack, ss[k].live[i]);
    PopAcceptsIff(ss[k].stack, a);
  }

  // Popping an allocation again after a push in between: it cuts off what was pushed unless it
  // is refused, and it is refused exactly if the push ended before the end of the popped one.
  lemma StalePopIff(s: Scratch, index: nat, later: nat, size: nat, align: nat)
    requires Ordered(s) && index <= later < |s.live| && 0 < size && 0 < align
    requires var t := s.stack.(len := s.live[index].ptr - s.stack.base); Pushed(t, size, align).len <= t.cap
    ensures Next(s, PopCall(index)).Some? && Next(Next(s, PopCall(index)).value, PushCall(size, align)).Some?
    ensures var u := Next(Next(s, PopCall(index)).value, PushCall(size, align)).value;
            var a, end := s.live[later], u.stack.base + u.stack.len;
            && (AllWithin(Pop(u.stack, a).0, u.live) <==> end < a.ptr + a.size)
            && (end < a.ptr + a.size ==>
                  Pop(u.stack, a) == (u.stack, if a.ptr < end then NotPoppedInReverseOrder(u.stack.len, a.ptr - u.stack.base, a.size)
                                               else DoesNotContainAllocation))
            && (a.ptr + a.size <= end ==> Pop(u.stack, a).1.Popped?)
  {
    OutstandingPops(s, index);
    var t := Next(s, PopCall(index)).value;
    var u := Next(t, PushCall(size, align)).value;
    var a := s.live[later];
    NextKeepsOrdered(s, PopCall(index));
    NextKeepsOrdered(t, PushCall(size, align));
    assert Within(s.stack, s.live[index]) && Within(s.stack, a);
    PopAcceptsIff(u.stack, a);
    assert u.live[|t.live|] == PushedSlot(t.stack, size, align);
    PushIsTight(t.stack, size, align);
    if u.stack.base + u.stack.len < a.ptr + a.size {
      assert AllWithin(u.stack, u.live);
    } else {
      assert !Within(Pop(u.stack, a).0, u.live[|t.live|]);
    }
  }

  // Both happen: behind 8 and 16 bytes, the first popped, 10 new bytes are safe from a second pop
  // of the 16, and 30 are not.
  lemma StalePopMayCut()
    ensures var s := Scratch(Stack(384, 24, 64), [Slot(384, 8), Slot(392, 16)]);
            && ScratchRun([Scratch(Stack(384, 0, 64), []), Scratch(Stack(384, 8, 64), [Slot(384, 8)]), s],
                          [PushCall(8, 1), PushCall(16, 8)])
            && Next(s, PopCall(0)) == Some(Scratch(Stack(384, 0, 64), []))
            && Next(Scratch(Stack(384, 0, 64), []), PushCall(10, 1)) == Some(Scratch(Stack(384, 10, 64), [Slot(384, 10)]))
            && Pop(Stack(384, 10, 64), Slot(392, 16)) == (Stack(384, 10, 64), NotPoppedInReverseOrder(10, 8, 16))
            && Next(Scratch(Stack(384, 0, 64), []), PushCall(30, 1)) == Some(Scratch(Stack(384, 30, 64), [Slot(384, 30)]))
            && Pop(Stack(384, 30, 64), Slot(392, 16)) == (Stack(384, 8, 64), Popped)
  {
    var s0, s1, s2 := Stack(384, 0, 64), Stack(384, 8, 64), Stack(384, 24, 64);
    assert Pad(s0, 1) == 0 && Pad(s1, 8) == 0;
    hide Pad;
    assert Pushed(s0, 8, 1) == s1 && PushedSlot(s0, 8, 1) == Slot(384, 8) && [] + [Slot(384, 8)] == [Slot(384, 8)];
    assert Pushed(s1, 16, 8) == s2 && PushedSlot(s1, 16, 8) == Slot(392, 16);
    assert [Slot(384, 8)] + [Slot(392, 16)] == [Slot(384, 8), Slot(392, 16)];
    assert [Slot(384, 8), Slot(392, 16)][..0] == [] && Pop(s2, Slot(384, 8)) == (s0, Popped);
    assert Pushed(s0, 10, 1) == Stack(384, 10, 64) && PushedSlot(s0, 10, 1) == Slot(384, 10);
    assert Pushed(s0, 30, 1) == Stack(384, 30, 64) && PushedSlot(s0, 30, 1) == Slot(384, 30);
    assert [] + [Slot(384, 10)] == [Slot(384, 10)] && [] + [Slot(384, 30)] == [Slot(384, 30)];
  }

  // That push may bring the popped allocation back to life: the same request gets the same place.
  lemma PushRevives(s: Stack, size: nat, align: nat)
    requires 0 < size && 0 < align
    ensures var a, t := PushedSlot(s, size, align), Pop(Pushed(s, size, align), PushedSlot(s, size, align)).0;
            PushedSlot(t, size, align) == a && Pop(Pushed(t, size, align), a).1.Popped?
  {
    PopLeavesPadding(s, size, align);
    PaddingIsLeast(s.base + s.len, align);
    PaddingOfMultiple(s.base + s.len + Pad(s, align), align);
  }

  // ---------- alignment

  // Where the data may be once `need` bytes are reserved: where it was if they fit, else behind
  // the header of any block that an allocator may return for the layout of the grown capacity.
  // It is nowhere if there is no such layout: then the reservation panics.
  predicate MayBeAt(p: Params, s: Stack, need: nat, base: nat)
    requires s.len <= s.cap
  {
    if s.len + need <= s.cap then
      base == s.base
    else
      var l := LayoutOf(p, RawBuffers.Reserved(s.cap, s.len, need));
      l.Some? && Offset(p) <= base && Memory.CanPlace(map[], base - Offset(p), l.value)
  }

  // Whether an allocation padded for the old address is aligned at the new one.
  predicate AlignedAt(s: Stack, align: nat, base: nat)
    requires 0 < align
  {
    (base + s.len + Pad(s, align)) % align == 0
  }

  lemma AlignedIffShifted(s: Stack, align: nat, base: nat)
    requires 0 < align
    ensures AlignedAt(s, align, base) <==> (base - s.base) % align == 0
  {
    var x := s.base + s.len + Pad(s, align);
    PaddingIsLeast(s.base + s.len, align);
    hide Pad;
    if (base - s.base) % align == 0 {
      SumOfMultiples(x, base - s.base, align);
    }
    if AlignedAt(s, align, base) {
      SumOfMultiples(base + s.len + Pad(s, align), x, align);
    }
  }

  // Wherever the data goes, the allocation is aligned as requested.
  ghost predicate SurelyAligned(p: Params, s: Stack, size: nat, align: nat)
    requires 0 < align && s.len <= s.cap
  {
    var need := Pad(s, align) + size;
    forall base: nat :: MayBeAt(p, s, need, base) ==> AlignedAt(s, align, base)
  }

  // What a caller can look up before the call: the request is for no alignment, or fits without
  // growing, or cannot be met at all, or the buffer has a block already and the request does not
  // exceed the block's alignment. The address of a buffer without a block is 1.
  predicate Guarded(p: Params, s: Stack, size: nat, align: nat)
    requires 0 < align && s.len <= s.cap
  {
    var need := Pad(s, align) + size;
    || align == 1
    || s.len + need <= s.cap
    || LayoutOf(p, RawBuffers.Reserved(s.cap, s.len, need)).None?
    || (s.base != 1 && align <= BlockAlign(p))
  }

  predicate AtBlock(p: Params, s: Stack) {
    s.base == 1 || (0 < BlockAlign(p) && s.base % BlockAlign(p) == 0)
  }

  // The guard is exact: without it, some block the allocator may return misaligns the allocation.
  lemma AlignedWhereverItGoes(p: Params, s: Stack, size: nat, align: nat)
    requires ValidParams(p) && AtBlock(p, s) && IsPow2(align) && 0 < align && s.len <= s.cap
    ensures SurelyAligned(p, s, size, align) <==> Guarded(p, s, size, align)
  {
    var need := Pad(s, align) + size;
    hide IsPow2;
    if Guarded(p, s, size, align) {
      forall base: nat | MayBeAt(p, s, need, base)
        ensures AlignedAt(s, align, base)
      {
        Reached(p, s, need, align, base);
        AlignedIffShifted(s, align, base);
      }
    } else {
      var base := Missed(p, s, need, align);
      AlignedIffShifted(s, align, base);
      assert MayBeAt(p, s, need, base);
    }
  }

  // An allocation the guard speaks for is aligned where it went.
  lemma AlignedThere(p: Params, s: Stack, size: nat, align: nat, base: nat)
    requires ValidParams(p) && AtBlock(p, s) && IsPow2(align) && 0 < align && s.len <= s.cap
    requires MayBeAt(p, s, Pad(s, align) + size, base) && Guarded(p, s, size, align)
    ensures (base + s.len + Pad(s, align)) % align == 0
  {
    hide IsPow2;
    hide Padding;
    AlignedWhereverItGoes(p, s, size, align);
    assert AlignedAt(s, align, base);
  }

  lemma BlockAlignIsPow2(p: Params)
    requires ValidParams(p)
    ensures IsPow2(BlockAlign(p)) && 8 <= BlockAlign(p) <= 0x4000_0000_0000_0000
  {
    MaxIsPow2(p.headerAlign, p.alignment);
  }

  lemma Reached(p: Params, s: Stack, need: nat, align: nat, base: nat)
    requires ValidParams(p) && AtBlock(p, s) && IsPow2(align) && 0 < align && s.len <= s.cap && MayBeAt(p, s, need, base)
    requires align == 1 || s.len + need <= s.cap || (s.base != 1 && align <= BlockAlign(p))
    ensures (base - s.base) % align == 0
  {
    hide IsPow2;
    if align == 1 {
      ModUnique(base - s.base, base - s.base, 0, 1);
    } else if s.len + need <= s.cap {
      ModUnique(0, 0, 0, align);
    } else {
      BlockAlignIsPow2(p);
      LayoutOfIs(p, RawBuffers.Reserved(s.cap, s.len, need));
      DataIsAligned(p, base - Offset(p));
      Shifted(BlockAlign(p), s.base, align, base);
    }
  }

  lemma Shifted(block: nat, from: nat, align: nat, to: nat)
    requires IsPow2(block) && 0 < block && IsPow2(align) && 0 < align <= block && from % block == 0 && to % block == 0
    ensures (to - from) % align == 0
  {
    hide IsPow2;
    Pow2Divides(align, block);
    SumOfMultiples(to, from, block);
    DividesThrough(to - from, block, align);
  }

  lemma Missed(p: Params, s: Stack, need: nat, align: nat) returns (base: nat)
    requires ValidParams(p) && AtBlock(p, s) && IsPow2(align) && 1 < align && s.len <= s.cap < s.len + need
    requires LayoutOf(p, RawBuffers.Reserved(s.cap, s.len, need)).Some?
    requires s.base == 1 || BlockAlign(p) < align
    ensures MayBeAt(p, s, need, base) && (base - s.base) % align != 0
  {
    hide IsPow2;
    BlockAlignIsPow2(p);
    OffsetIsBlockAligned(p);
    LayoutOfIs(p, RawBuffers.Reserved(s.cap, s.len, need));
    var a := MissedAddress(Offset(p), BlockAlign(p), s.base, align);
    base := a + Offset(p);
  }

  // One of the first two aligned addresses will do.
  lemma MissedAddress(offset: nat, block: nat, from: nat, align: nat) returns (a: nat)
    requires IsPow2(block) && 8 <= block && offset % block == 0 && IsPow2(align) && 1 < align
    requires from == 1 || (from % block == 0 && block < align)
    ensures (a == block || a == 2 * block) && a % block == 0 && (a + offset - from) % align != 0
  {
    EvenPow2(block);
    EvenPow2(align);
    hide IsPow2;
    MultipleMod(1, block);
    MultipleMod(2, block);
    a := block;
    if from == 1 {
      SumOfMultiples(block, offset, block);
      OddIsNoMultiple(block + offset - 1, block, align);
    } else if (block + offset - from) % align == 0 {
      a := 2 * block;
      if (2 * block + offset - from) % align == 0 {
        SumOfMultiples(2 * block + offset - from, block + offset - from, align);
        ModUnique(block, 0, block, align);
        assert false;
      }
    }
  }

  lemma EvenPow2(n: nat)
    requires IsPow2(n) && 1 < n
    ensures n % 2 == 0
  {}

  lemma OddIsNoMultiple(x: nat, block: nat, align: nat)
    requires 0 < align && align % 2 == 0 && 0 < block && block % 2 == 0 && (x + 1) % block == 0
    ensures x % align != 0
  {
    DividesThrough(x + 1, block, 2);
    if x % align == 0 {
      DividesThrough(x, align, 2);
    }
  }

  // A real failure: the first allocation of a serializer with a new scratch buffer, 8 bytes
  // aligned to 8, with the data aligned to 64. The padding is computed for address 1; the block
  // is put at 128 and the data at 384; the pointer is 391.
  lemma FirstAllocationIsMisaligned()
    ensures var p, s := Params(128, 64), Stack(1, 0, 0);
            && ValidParams(p) && Pad(s, 8) == 7
            && LayoutOf(p, RawBuffers.Reserved(0, 0, 7 + 8)) == Some(Layout(271, 128))
            && Memory.CanPlace(map[], 128, Layout(271, 128)) && MayBeAt(p, s, 7 + 8, 128 + Offset(p))
            && 128 + Offset(p) + s.len + Pad(s, 8) == 391 && 391 % 8 != 0
            && !SurelyAligned(p, s, 8, 8)
  {
    var p, s := Params(128, 64), Stack(1, 0, 0);
    assert IsPow2(16) && IsPow2(32);
    assert IsPow2(64) && IsPow2(128);
    LayoutOfIs(p, 15);
    assert RawBuffers.Reserved(0, 0, 15) == 15;
    assert !AlignedAt(s, 8, 384);
    assert MayBeAt(p, s, Pad(s, 8) + 8, 384);
  }
}
