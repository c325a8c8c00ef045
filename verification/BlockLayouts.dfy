/** The layout of a block: a two-word header, then the data at a fixed aligned offset. */
module BlockLayouts {
  import opened Words
  import opened Bits
  import opened Layouts
  import TaggedCaps

  // `headerAlign` is the cache-line alignment of the target's padded counter, `alignment` the
  // buffer's own alignment.
  datatype Params = Params(headerAlign: nat, alignment: nat)

  // The counter, padded to a whole `headerAlign`, and the capacity, padded likewise.
  function HeaderLayout(p: Params): Layout { Layout(2 * p.headerAlign, p.headerAlign) }

  // Where the header keeps the capacity; the counter is at 0.
  function CapAt(p: Params): nat { p.headerAlign }

  // The alignments the code compiles for: see `OffsetIsComputed`.
  predicate ValidParams(p: Params) {
    && IsPow2(p.headerAlign) && 8 <= p.headerAlign <= 0x1_0000
    && IsPow2(p.alignment) && p.alignment <= 0x4000_0000_0000_0000
  }

  // `BUFFER_OFFSET`
  function Offset(p: Params): nat { Max(2 * p.headerAlign, p.alignment) }

  // `MAX_CAPACITY`
  function MaxCapacity(p: Params): nat
    requires ValidParams(p)
  {
    TaggedCaps.MAX_VALUE - Offset(p) - 64
  }

  // It keeps 64 bytes back from what fits behind the offset below the tag bit.
  lemma MaxCapacityIs(p: Params, cap: nat)
    requires ValidParams(p)
    ensures cap <= MaxCapacity(p) <==> Offset(p) + cap + 64 <= ISIZE_MAX
  {}

  function BlockAlign(p: Params): nat { Max(p.headerAlign, p.alignment) }

  // `RawAlignedBuffer::layout`: see `LayoutIsExtended`.
  function LayoutOf(p: Params, cap: nat): Option<Layout> {
    FromSizeAlign(Offset(p) + cap, BlockAlign(p))
  }

  // The data starts behind the whole header, at the first multiple of the alignment.
  lemma OffsetIsAligned(p: Params)
    requires IsPow2(p.headerAlign) && IsPow2(p.alignment)
    ensures 0 < p.alignment && Offset(p) == 2 * p.headerAlign + Padding(2 * p.headerAlign, p.alignment)
    ensures Offset(p) % p.alignment == 0
  {
    var h, a := p.headerAlign, p.alignment;
    assert IsPow2(2 * h);
    if a <= 2 * h {
      Pow2Divides(a, 2 * h);
      PaddingOfMultiple(2 * h, a);
    } else {
      var header: int := 2 * h;
      ModUnique(0 - header, -1, a - header, a);
      MultipleMod(1, a);
    }
  }

  // The offset is the one the code computes with its own layout extension, and that constant and
  // the largest capacity exist, so that the code compiles, exactly for alignments up to 2^62.
  lemma OffsetIsComputed(p: Params)
    requires IsPow2(p.headerAlign) && 8 <= p.headerAlign <= 0x1_0000 && IsPow2(p.alignment) && 0 < p.alignment < WORD
    ensures var r := HelperExtend(HeaderLayout(p), Layout(0, p.alignment));
            && (ValidParams(p) <==>
                  FromSizeAlign(0, p.alignment).Some? && r.Some? && r.value.1 + 64 <= TaggedCaps.MAX_VALUE)
            && (ValidParams(p) ==> r == Some((Layout(Offset(p), BlockAlign(p)), Offset(p))))
  {
    OffsetIsAligned(p);
    hide HelperExtend;
    hide IsPow2;
    ExtendAgrees(HeaderLayout(p), Layout(0, p.alignment));
    hide Padding;
    NoPow2Above(p.alignment);
    MaxIsPow2(p.headerAlign, p.alignment);
  }

  lemma MaxIsPow2(a: nat, b: nat)
    requires IsPow2(a) && IsPow2(b)
    ensures IsPow2(Max(a, b))
  {}

  // A power of two above 2^62 and below 2^64 is 2^63.
  lemma NoPow2Above(n: nat)
    requires IsPow2(n) && n < WORD
    ensures n <= 0x4000_0000_0000_0000 || n == ISIZE_MAX + 1
  {
    var k := Log2(n);
    WordIsPow2();
    if 64 <= k {
      Pow2Monotone(64, k);
    } else if k <= 62 {
      Pow2Monotone(k, 62);
      assert Pow2(63) == 2 * Pow2(62);
    } else {
      assert k == 63;
    }
  }

  // The layout is the header's extended by the data's, as the library does it, and the data
  // offset it gives is the constant one.
  lemma LayoutIsExtended(p: Params, cap: nat)
    requires ValidParams(p)
    ensures 0 < p.alignment
    ensures StdExtend(HeaderLayout(p), Layout(cap, p.alignment))
            == if LayoutOf(p, cap).Some? then Some((LayoutOf(p, cap).value, Offset(p))) else None
  {
    OffsetIsAligned(p);
  }

  // A layout exists exactly when the block fits below the signed limit; it is then the offset
  // plus the capacity.
  lemma LayoutOfIs(p: Params, cap: nat)
    requires ValidParams(p)
    ensures LayoutOf(p, cap).Some? <==> Offset(p) + cap + (BlockAlign(p) - 1) <= ISIZE_MAX
    ensures LayoutOf(p, cap).Some? ==>
              && LayoutOf(p, cap).value == Layout(Offset(p) + cap, BlockAlign(p))
              && ValidLayout(LayoutOf(p, cap).value)
              && cap <= TaggedCaps.MAX_VALUE
  {
    MaxIsPow2(p.headerAlign, p.alignment);
  }

  // Distinct capacities have distinct layouts: a layout rebuilt from a capacity fits a block
  // exactly when the capacity is the block's.
  lemma LayoutFits(p: Params, cap: nat, other: nat)
    requires ValidParams(p) && LayoutOf(p, cap).Some? && LayoutOf(p, other).Some?
    ensures LayoutOf(p, cap) == LayoutOf(p, other) <==> cap == other
  {
    LayoutOfIs(p, cap);
    LayoutOfIs(p, other);
  }

  lemma {:induction false} Pow2Divides(a: nat, b: nat)
    requires IsPow2(a) && IsPow2(b) && a <= b
    ensures b % a == 0
  {
    var j, k := Log2(a), Log2(b);
    if k < j {
      Pow2Monotone(k + 1, j);
    }
    Pow2Monotone(j, k);
  }

  // A multiple of a multiple.
  lemma DividesThrough(x: int, m: nat, n: nat)
    requires 0 < n && 0 < m && x % m == 0 && m % n == 0
    ensures x % n == 0
  {
    var q, r := x / m, m / n;
    assert x == q * m && m == r * n;
    assert x == (q * r) * n;
    MultipleMod(q * r, n);
  }

  lemma SumOfMultiples(x: int, y: int, n: nat)
    requires 0 < n && x % n == 0 && y % n == 0
    ensures (x + y) % n == 0 && (x - y) % n == 0
  {
    var q, r := x / n, y / n;
    assert x == q * n && y == r * n;
    assert x + y == (q + r) * n && x - y == (q - r) * n;
    MultipleMod(q + r, n);
    MultipleMod(q - r, n);
  }

  lemma OffsetIsBlockAligned(p: Params)
    requires ValidParams(p)
    ensures Offset(p) % BlockAlign(p) == 0
  {
    var h, a := p.headerAlign, p.alignment;
    if a <= h {
      MultipleMod(2, h);
    } else {
      OffsetIsAligned(p);
    }
  }

  // Whatever block the allocator returns for the layout, the data pointer is aligned: to the
  // buffer's alignment, and even to the block's.
  lemma DataIsAligned(p: Params, base: nat)
    requires ValidParams(p) && base % BlockAlign(p) == 0
    ensures (base + Offset(p)) % p.alignment == 0 && (base + Offset(p)) % BlockAlign(p) == 0
  {
    hide Offset;
    OffsetIsBlockAligned(p);
    SumOfMultiples(base, Offset(p), BlockAlign(p));
    if p.alignment <= p.headerAlign {
      Pow2Divides(p.alignment, p.headerAlign);
    } else {
      Pow2Divides(p.alignment, p.alignment);
    }
    DividesThrough(base + Offset(p), BlockAlign(p), p.alignment);
  }

  lemma PaddingOfMultiple(size: nat, align: nat)
    requires 0 < align && size % align == 0
    ensures Padding(size, align) == 0
  {
    PaddingIsLeast(size, align);
  }

  // `remaining_mut` subtracts the length from `MAX_CAPACITY`. Every capacity a block can have
  // is within it exactly when the block's alignment is at least 128 bytes.
  lemma RemainingNeverUnderflows(p: Params)
    requires ValidParams(p)
    ensures (forall cap: nat :: LayoutOf(p, cap).Some? ==> cap <= MaxCapacity(p)) <==> 128 <= BlockAlign(p)
  {
    forall cap: nat | LayoutOf(p, cap).Some? && 128 <= BlockAlign(p)
      ensures cap <= MaxCapacity(p)
    {
      LayoutOfIs(p, cap);
    }
    if BlockAlign(p) < 128 {
      LayoutOfIs(p, 0);
      var largest := ISIZE_MAX - (BlockAlign(p) - 1) - Offset(p);
      LayoutOfIs(p, largest);
      if 64 < BlockAlign(p) {
        NoPow2Between(BlockAlign(p));
      }
      assert MaxCapacity(p) < largest;
    }
  }

  lemma NoPow2Between(n: nat)
    requires IsPow2(n) && n < 128
    ensures n <= 64
  {
    var k := Log2(n);
    if 7 <= k {
      Pow2Monotone(7, k);
    } else {
      Pow2Monotone(k, 6);
    }
    assert Pow2(7) == 128 && Pow2(6) == 64;
  }
}
