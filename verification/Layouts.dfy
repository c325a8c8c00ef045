/**
 Layouts of header and data: the round-up-by-mask arithmetic, and the layout a block of a given
 capacity has. Sizes and alignments are 64-bit words.
 */
module Layouts {
  import opened Words
  import opened Bits

  datatype Layout = Layout(size: nat, align: nat)

  // What `Layout::from_size_align` accepts.
  predicate ValidLayout(l: Layout) {
    IsPow2(l.align) && l.align <= ISIZE_MAX + 1 && l.size + (l.align - 1) <= ISIZE_MAX
  }

  function FromSizeAlign(size: nat, align: nat): Option<Layout> {
    if ValidLayout(Layout(size, align)) then Some(Layout(size, align)) else None
  }

  function Max(a: nat, b: nat): nat { if a < b then b else a }

  // The least padding that takes `size` to a multiple of `align`.
  function Padding(size: nat, align: nat): nat
    requires 0 < align
  {
    (0 - size) % align
  }

  lemma PaddingIsLeast(size: nat, align: nat)
    requires 0 < align
    ensures Padding(size, align) < align && (size + Padding(size, align)) % align == 0
    ensures forall end: nat {:trigger end % align} :: size <= end && end % align == 0 ==> size + Padding(size, align) <= end
  {
    var q: int := (0 - size) / align;
    assert size + Padding(size, align) == -q * align;
    MultipleMod(-q, align);
    forall end: nat {:trigger end % align} | size <= end && end % align == 0
      ensures size + Padding(size, align) <= end
    {
      if end < size + Padding(size, align) {
        ModUnique(0 - size, -(end / align), end - size, align);
      }
    }
  }

  // `LayoutHelper::padding_needed_for`: wrapping arithmetic and a mask.
  function PaddingNeededFor(size: nat, align: nat): nat
    requires 0 < align < WORD
  {
    var rounded := And(WrappingSub(WrappingAdd(size, align), 1), Not(WrappingSub(align, 1)));
    WrappingSub(rounded, size)
  }

  // The mask trick computes the least padding for every size, also when rounding up wraps.
  lemma MaskTrick(size: nat, align: nat)
    requires size < WORD && IsPow2(align) && align < WORD
    ensures PaddingNeededFor(size, align) == Padding(size, align)
  {
    hide And;
    hide Padding;
    hide Pow2;
    var k := AlignLog(align);
    var sum := WrappingSub(WrappingAdd(size, align), 1);
    WrappedSum(size, align);
    MaskHigh(sum, 64, k);
    RoundedSum(size, align, sum);
  }

  lemma AlignLog(align: nat) returns (k: nat)
    requires IsPow2(align) && align < WORD
    ensures k < 64 && Pow2(k) == align && Pow2(64) == WORD && WORD % align == 0
    ensures Not(WrappingSub(align, 1)) == WORD - align
  {
    k := Log2(align);
    WordIsPow2();
    if k >= 64 {
      Pow2Monotone(64, k);
    }
    Pow2Monotone(k, 64);
  }

  lemma WrappedSum(size: nat, align: nat)
    requires size < WORD && 0 < align < WORD
    ensures var end := size + align - 1;
            WrappingSub(WrappingAdd(size, align), 1) == if end < WORD then end else end - WORD
  {}

  lemma RoundedSum(size: nat, align: nat, sum: nat)
    requires size < WORD && 0 < align < WORD && WORD % align == 0
    requires sum == if size + align - 1 < WORD then size + align - 1 else size + align - 1 - WORD
    ensures sum % align <= sum && WrappingSub(sum - sum % align, size) == Padding(size, align)
  {
    hide WrappingSub;
    PaddingIsLeast(size, align);
    var w := 0;
    if WORD <= size + align - 1 {
      w := Exact(WORD, align);
    }
    RoundedRest(size, align, sum, w);
    DifferenceWraps(sum - (align - 1 - Padding(size, align)), size, Padding(size, align));
  }

  lemma RoundedRest(size: nat, align: nat, sum: nat, w: nat)
    requires 0 < align && sum == size + align - 1 - w * align
    ensures sum % align == align - 1 - Padding(size, align)
  {
    PaddingIsLeast(size, align);
    hide Padding;
    var q := Exact(size + Padding(size, align), align);
    Remainder(sum, q, w, align - 1 - Padding(size, align), align);
  }

  lemma DifferenceWraps(a: nat, b: nat, d: nat)
    requires d < WORD && (a - b == d || a - b == d - WORD)
    ensures WrappingSub(a, b) == d
  {}

  // A remainder survives taking away multiples.
  lemma Remainder(sum: nat, q: int, w: int, r: nat, n: nat)
    requires r < n && sum == q * n + r - w * n
    ensures sum % n == r
  {
    assert (q - w) * n == q * n - w * n;
    ModUnique(sum, q - w, r, n);
  }

  lemma Exact(a: nat, n: nat) returns (q: nat)
    requires 0 < n && a % n == 0
    ensures a == q * n
  {
    q := a / n;
  }

  // `Layout::extend`, by its documentation: `next` is placed at the least aligned offset after
  // the first layout; an error when the result has no valid layout.
  function StdExtend(first: Layout, next: Layout): Option<(Layout, nat)>
    requires 0 < next.align
  {
    var offset := first.size + Padding(first.size, next.align);
    match FromSizeAlign(offset + next.size, Max(first.align, next.align))
    case None => None
    case Some(l) => Some((l, offset))
  }

  // `LayoutHelper::extend`, which panics instead.
  function HelperExtend(first: Layout, next: Layout): Option<(Layout, nat)>
    requires 0 < next.align < WORD
  {
    var align := if first.align < next.align then next.align else first.align;
    match CheckedAdd(first.size, PaddingNeededFor(first.size, next.align))
    case None => None
    case Some(offset) =>
      match CheckedAdd(offset, next.size)
      case None => None
      case Some(size) =>
        match FromSizeAlign(size, align)
        case None => None
        case Some(l) => Some((l, offset))
  }

  // The hand-written extension panics exactly when the library's fails, and agrees otherwise.
  lemma ExtendAgrees(first: Layout, next: Layout)
    requires first.size < WORD && IsPow2(next.align) && next.align < WORD
    ensures HelperExtend(first, next) == StdExtend(first, next)
  {
    hide PaddingNeededFor;
    MaskTrick(first.size, next.align);
  }
}
