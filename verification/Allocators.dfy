/**
 The `Allocator` trait's default `grow`, `grow_zeroed` and `shrink`, and `Global`'s own, over the
 system allocator. `Resized` is what the trait's documentation promises of all of them.
 */
module Allocators {
  import opened Words
  import opened Layouts
  import opened Memory

  // A currently allocated block that `l` fits; a zero-sized one has no memory behind it.
  predicate Fits(h: Heap, a: int, l: Layout) {
    ValidLayout(l) && (if l.size == 0 then a == DANGLING else a in h && h[a].layout == l && |h[a].bytes| == l.size)
  }

  // The heap once the block is given up.
  function Without(h: Heap, a: int, l: Layout): Heap {
    if l.size == 0 then h else h - {a}
  }

  function Bytes(h: Heap, a: int, l: Layout): seq<Byte>
    requires Fits(h, a, l)
  {
    if l.size == 0 then [] else h[a].bytes
  }

  function Min(a: nat, b: nat): nat { if a < b then a else b }

  // A block with layout `l`, or none if it is zero-sized, is all that `h'` has over `h`.
  predicate Added(h: Heap, h': Heap, a: int, l: Layout) {
    Fits(h', a, l) && if l.size == 0 then h' == h else Gained(h, h', a, l)
  }

  // On success the old block is consumed, once, and the new one starts with the old bytes that
  // fit, followed by zeros if asked for; every other block is untouched. On failure nothing is.
  predicate Resized(h: Heap, h': Heap, a: int, was: Layout, now: Layout, zeroed: bool, r: Option<int>)
    requires Fits(h, a, was)
  {
    match r
    case None => h' == h
    case Some(b) =>
      && Added(Without(h, a, was), h', b, now)
      && (var kept := Min(was.size, now.size);
          Bytes(h', b, now)[..kept] == Bytes(h, a, was)[..kept] && (zeroed ==> ZeroFrom(Bytes(h', b, now), kept)))
  }

  // ---------- `Global`

  method AllocImpl(sys: System, l: Layout, zeroed: bool) returns (r: Option<int>)
    requires WellFormed(sys.heap) && ValidLayout(l)
    modifies sys
    ensures WellFormed(sys.heap)
    ensures r.None? ==> sys.heap == old(sys.heap)
    ensures sys.refusals == old(sys.refusals) + if r.None? then 1 else 0
    ensures r.Some? ==> Added(old(sys.heap), sys.heap, r.value, l) && (zeroed ==> ZeroFrom(Bytes(sys.heap, r.value, l), 0))
  {
    if l.size == 0 {
      return Some(DANGLING);
    }
    r := sys.Alloc(l, zeroed);
  }

  method Deallocate(sys: System, a: int, l: Layout)
    requires WellFormed(sys.heap) && Fits(sys.heap, a, l)
    modifies sys`heap
    ensures WellFormed(sys.heap) && sys.heap == Without(old(sys.heap), a, l)
  {
    if l.size != 0 {
      sys.Dealloc(a, l);
    }
  }

  // `copy_nonoverlapping` of the first `n` bytes between two blocks.
  method Copy(sys: System, src: int, srcLayout: Layout, dst: int, dstLayout: Layout, n: nat)
    requires WellFormed(sys.heap) && Fits(sys.heap, src, srcLayout) && Fits(sys.heap, dst, dstLayout)
    requires n <= srcLayout.size && n <= dstLayout.size && (0 < n ==> src != dst)
    modifies sys`heap
    ensures WellFormed(sys.heap)
    ensures n == 0 ==> sys.heap == old(sys.heap)
    ensures 0 < n ==>
              && dst in old(sys.heap)
              && sys.heap == old(sys.heap)[dst := old(sys.heap)[dst].(bytes := old(sys.heap[src].bytes)[..n] + old(sys.heap[dst].bytes)[n..])]
  {
    if 0 < n {
      ghost var was := sys.heap[dst].bytes;
      var data := sys.heap[src].bytes[..n];
      sys.Write(dst, 0, data);
      assert Patched(was, 0, data) == data + was[n..];
    }
  }

  // Allocate, copy, free: what the trait does by default.
  method MoveTo(sys: System, a: int, was: Layout, now: Layout, zeroed: bool) returns (r: Option<int>)
    requires WellFormed(sys.heap) && Fits(sys.heap, a, was) && ValidLayout(now)
    modifies sys
    ensures WellFormed(sys.heap) && Resized(old(sys.heap), sys.heap, a, was, now, zeroed, r)
    ensures sys.refusals == old(sys.refusals) + if r.None? then 1 else 0
  {
    ghost var h := sys.heap;
    r := AllocImpl(sys, now, zeroed);
    if r.None? {
      return;
    }
    ghost var h1 := sys.heap;
    var n := Min(was.size, now.size);
    Copy(sys, a, was, r.value, now, n);
    ghost var h2 := sys.heap;
    Deallocate(sys, a, was);
    MovedIsResized(h, h1, h2, sys.heap, a, was, now, zeroed, r.value);
  }

  lemma MovedIsResized(h: Heap, h1: Heap, h2: Heap, h3: Heap, a: int, was: Layout, now: Layout, zeroed: bool, b: int)
    requires WellFormed(h) && Fits(h, a, was) && Added(h, h1, b, now) && (zeroed ==> ZeroFrom(Bytes(h1, b, now), 0))
    requires var n := Min(was.size, now.size);
             if n == 0 then h2 == h1
             else b in h1 && h2 == h1[b := h1[b].(bytes := h[a].bytes[..n] + h1[b].bytes[n..])]
    requires h3 == Without(h2, a, was)
    ensures Resized(h, h3, a, was, now, zeroed, Some(b))
  {
    if now.size != 0 {
      if was.size != 0 {
        assert BlockOk(h, a);
        assert a != b;
        assert h3 == (h - {a})[b := h3[b]];
      }
    } else if was.size != 0 {
      assert h3 == h - {a};
    }
  }

  method GrowImpl(sys: System, a: int, was: Layout, now: Layout, zeroed: bool) returns (r: Option<int>)
    requires WellFormed(sys.heap) && Fits(sys.heap, a, was) && ValidLayout(now) && was.size <= now.size
    modifies sys
    ensures WellFormed(sys.heap) && Resized(old(sys.heap), sys.heap, a, was, now, zeroed, r)
    ensures sys.refusals == old(sys.refusals) + if r.None? then 1 else 0
  {
    if was.size == 0 {
      r := AllocImpl(sys, now, zeroed);
    } else if was.align == now.align {
      r := sys.Realloc(a, was, now.size);
      if r.Some? && zeroed {
        ghost var moved := sys.heap;
        var zeros: seq<Byte> := seq(now.size - was.size, _ => 0);
        sys.Write(r.value, was.size, zeros);
        assert Patched(moved[r.value].bytes, was.size, zeros) == moved[r.value].bytes[..was.size] + zeros;
      }
    } else {
      r := MoveTo(sys, a, was, now, zeroed);
    }
  }

  method Shrink(sys: System, a: int, was: Layout, now: Layout) returns (r: Option<int>)
    requires WellFormed(sys.heap) && Fits(sys.heap, a, was) && ValidLayout(now) && now.size <= was.size
    modifies sys
    ensures WellFormed(sys.heap) && Resized(old(sys.heap), sys.heap, a, was, now, false, r)
    ensures sys.refusals == old(sys.refusals) + if r.None? then 1 else 0
  {
    if now.size == 0 {
      Deallocate(sys, a, was);
      r := Some(DANGLING);
    } else if was.align == now.align {
      r := sys.Realloc(a, was, now.size);
    } else {
      r := MoveTo(sys, a, was, now, false);
    }
  }

  // ---------- the trait's defaults

  method DefaultGrow(sys: System, a: int, was: Layout, now: Layout, zeroed: bool) returns (r: Option<int>)
    requires WellFormed(sys.heap) && Fits(sys.heap, a, was) && ValidLayout(now) && was.size <= now.size
    modifies sys
    ensures WellFormed(sys.heap) && Resized(old(sys.heap), sys.heap, a, was, now, zeroed, r)
    ensures sys.refusals == old(sys.refusals) + if r.None? then 1 else 0
  {
    r := MoveTo(sys, a, was, now, zeroed);
  }

  method DefaultShrink(sys: System, a: int, was: Layout, now: Layout) returns (r: Option<int>)
    requires WellFormed(sys.heap) && Fits(sys.heap, a, was) && ValidLayout(now) && now.size <= was.size
    modifies sys
    ensures WellFormed(sys.heap) && Resized(old(sys.heap), sys.heap, a, was, now, false, r)
    ensures sys.refusals == old(sys.refusals) + if r.None? then 1 else 0
  {
    r := MoveTo(sys, a, was, now, false);
  }

  // Two implementations of `Resized` cannot be told apart but by the address they chose and by
  // bytes nobody promised anything about.
  lemma ResizedAgree(h: Heap, h1: Heap, h2: Heap, a: int, was: Layout, now: Layout, zeroed: bool, b1: int, b2: int)
    requires WellFormed(h) && Fits(h, a, was)
    requires Resized(h, h1, a, was, now, zeroed, Some(b1)) && Resized(h, h2, a, was, now, zeroed, Some(b2))
    ensures Without(h1, b1, now) == Without(h2, b2, now) == Without(h, a, was)
    ensures var n := if zeroed then now.size else Min(was.size, now.size);
            Bytes(h1, b1, now)[..n] == Bytes(h2, b2, now)[..n]
    ensures |h1| == |h2|
  {
    var rest := Without(h, a, was);
    RestIsKept(rest, h1, b1, now);
    RestIsKept(rest, h2, b2, now);
    var kept := Min(was.size, now.size);
    var x, y := Bytes(h1, b1, now), Bytes(h2, b2, now);
    forall i | 0 <= i < if zeroed then now.size else kept
      ensures x[i] == y[i]
    {
      if i < kept {
        assert x[i] == x[..kept][i] && y[i] == y[..kept][i];
      }
    }
  }

  lemma RestIsKept(rest: Heap, h: Heap, b: int, now: Layout)
    requires Added(rest, h, b, now) && (forall c :: c in rest ==> 0 < |rest[c].bytes|)
    ensures Without(h, b, now) == rest && |h| == |rest| + (if now.size == 0 then 0 else 1)
  {
    if now.size != 0 {
      assert b !in rest;
      assert h.Keys == rest.Keys + {b};
    }
  }

  // The returned pointer has the alignment of the layout, except that of a zero-sized one is
  // only 1-aligned.
  lemma PointerIsAligned(h: Heap, h': Heap, a: int, l: Layout)
    requires Added(h, h', a, l)
    ensures a % l.align == 0 <==> l.size != 0 || l.align == 1
  {
    if l.size == 0 && l.align != 1 {
      assert 1 % l.align == 1;
    }
  }
}
