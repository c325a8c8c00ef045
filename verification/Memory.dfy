/** The system allocator: live blocks by address, each with the layout it was allocated with. */
module Memory {
  import opened Words
  import opened Layouts

  datatype Block = Block(layout: Layout, bytes: seq<Byte>)
  type Heap = map<int, Block>

  // The address of a zero-sized allocation.
  const DANGLING: int := 1

  // A block with layout `l` may be placed at `a`: aligned, not null, clear of every other block.
  predicate CanPlace(h: Heap, a: int, l: Layout) {
    && 0 < a && a + l.size <= WORD && 0 < l.align && a % l.align == 0
    && forall b :: b in h ==> a + l.size <= b || b + |h[b].bytes| <= a
  }

  predicate BlockOk(h: Heap, a: int)
    requires a in h
  {
    ValidLayout(h[a].layout) && |h[a].bytes| == h[a].layout.size && 0 < h[a].layout.size
    && CanPlace(h - {a}, a, h[a].layout)
  }

  predicate WellFormed(h: Heap) {
    forall a :: a in h ==> BlockOk(h, a)
  }

  lemma PlacedIsWellFormed(h: Heap, a: int, b: Block)
    requires WellFormed(h) && CanPlace(h, a, b.layout) && ValidLayout(b.layout)
    requires |b.bytes| == b.layout.size && 0 < b.layout.size
    ensures a !in h && WellFormed(h[a := b])
  {
    assert a !in h;
    var h' := h[a := b];
    assert h' - {a} == h;
    forall c | c in h
      ensures BlockOk(h', c)
    {
      assert BlockOk(h, c);
      assert h' - {c} == (h - {c})[a := b];
    }
  }

  lemma RemovedIsWellFormed(h: Heap, a: int)
    requires WellFormed(h)
    ensures WellFormed(h - {a})
  {
    forall c | c in h - {a}
      ensures BlockOk(h - {a}, c)
    {
      assert BlockOk(h, c);
      assert forall b :: b in (h - {a}) - {c} ==> b in h - {c} && (h - {c})[b] == ((h - {a}) - {c})[b];
    }
  }

  lemma RewrittenIsWellFormed(h: Heap, a: int, bytes: seq<Byte>)
    requires WellFormed(h) && a in h && |bytes| == |h[a].bytes|
    ensures WellFormed(h[a := h[a].(bytes := bytes)])
  {
    RemovedIsWellFormed(h, a);
    assert BlockOk(h, a);
    assert h[a := h[a].(bytes := bytes)] == (h - {a})[a := h[a].(bytes := bytes)];
    PlacedIsWellFormed(h - {a}, a, h[a].(bytes := bytes));
  }

  // The heap gained exactly one block, with layout `l`.
  predicate Gained(h: Heap, h': Heap, a: int, l: Layout) {
    && CanPlace(h, a, l) && a in h' && h' == h[a := h'[a]]
    && h'[a].layout == l && |h'[a].bytes| == l.size
  }

  predicate ZeroFrom(bytes: seq<Byte>, from: int) {
    forall i :: 0 <= from <= i < |bytes| ==> bytes[i] == 0
  }

  // `refusals` counts the requests for memory that were not met.
  class System {
    var heap: Heap
    var refusals: nat

    constructor ()
      ensures heap == map[] && refusals == 0
    {
      heap := map[];
      refusals := 0;
    }

    // `alloc` and `alloc_zeroed`; `None` is the null pointer.
    method Alloc(l: Layout, zeroed: bool) returns (r: Option<int>)
      requires WellFormed(heap) && ValidLayout(l) && 0 < l.size
      modifies this
      ensures WellFormed(heap)
      ensures r.None? ==> heap == old(heap)
      ensures refusals == old(refusals) + if r.None? then 1 else 0
      ensures r.Some? ==> Gained(old(heap), heap, r.value, l) && (zeroed ==> ZeroFrom(heap[r.value].bytes, 0))
    {
      var a: int := *;
      var bytes: seq<Byte> := *;
      if zeroed {
        bytes := seq(l.size, _ => 0);
      }
      if !CanPlace(heap, a, l) || |bytes| != l.size {
        refusals := refusals + 1;
        return None;
      }
      PlacedIsWellFormed(heap, a, Block(l, bytes));
      heap := heap[a := Block(l, bytes)];
      r := Some(a);
    }

    // Freeing demands a live block and the layout it was allocated with.
    method Dealloc(a: int, l: Layout)
      requires WellFormed(heap) && a in heap && heap[a].layout == l
      modifies this`heap
      ensures WellFormed(heap) && heap == old(heap) - {a}
    {
      RemovedIsWellFormed(heap, a);
      heap := heap - {a};
    }

    // On success the old block is gone and the new one starts with its bytes; on failure
    // nothing changed.
    method Realloc(a: int, l: Layout, size: nat) returns (r: Option<int>)
      requires WellFormed(heap) && a in heap && heap[a].layout == l
      requires 0 < size && ValidLayout(Layout(size, l.align))
      modifies this
      ensures WellFormed(heap)
      ensures r.None? ==> heap == old(heap)
      ensures refusals == old(refusals) + if r.None? then 1 else 0
      ensures r.Some? ==>
                && Gained(old(heap) - {a}, heap, r.value, Layout(size, l.align))
                && (var kept := if size < l.size then size else l.size;
                    kept <= |old(heap[a].bytes)| && heap[r.value].bytes[..kept] == old(heap[a].bytes)[..kept])
    {
      assert BlockOk(heap, a);
      var b: int := *;
      var tail: seq<Byte> := *;
      var kept := if size < l.size then size else l.size;
      var bytes := heap[a].bytes[..kept] + tail;
      if !CanPlace(heap - {a}, b, Layout(size, l.align)) || |bytes| != size {
        refusals := refusals + 1;
        return None;
      }
      RemovedIsWellFormed(heap, a);
      PlacedIsWellFormed(heap - {a}, b, Block(Layout(size, l.align), bytes));
      heap := (heap - {a})[b := Block(Layout(size, l.align), bytes)];
      r := Some(b);
    }

    // Stores inside one live block.
    method Write(a: int, at: nat, data: seq<Byte>)
      requires WellFormed(heap) && a in heap && at + |data| <= |heap[a].bytes|
      modifies this`heap
      ensures WellFormed(heap)
      ensures heap == old(heap)[a := old(heap)[a].(bytes := Patched(old(heap)[a].bytes, at, data))]
    {
      RewrittenIsWellFormed(heap, a, Patched(heap[a].bytes, at, data));
      heap := heap[a := heap[a].(bytes := Patched(heap[a].bytes, at, data))];
    }
  }

  function Patched(bytes: seq<Byte>, at: nat, data: seq<Byte>): (r: seq<Byte>)
    requires at + |data| <= |bytes|
    ensures |r| == |bytes|
  {
    bytes[..at] + data + bytes[at + |data|..]
  }
}
