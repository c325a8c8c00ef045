/** A capacity or length and the bit that says whether a block exists, packed into one word. */
module TaggedCaps {
  import opened Words
  import opened Bits

  const TAG: nat := Not(ISIZE_MAX)
  const VALUE_MASK: nat := Not(TAG)
  const MAX_VALUE: nat := VALUE_MASK

  datatype RawCap = RawCap(word: nat) {
    function Value(): nat { And(word, VALUE_MASK) }

    predicate IsAllocated() { And(word, TAG) != 0 }

    function WithValue(value: nat): RawCap {
      RawCap(Or(And(word, TAG), And(value, VALUE_MASK)))
    }

    function WithAllocated(tag: bool): RawCap {
      RawCap(Or(And(word, VALUE_MASK), And(TAG - 1 + (if tag then 1 else 0), TAG)))
    }
  }

  predicate IsWord(c: RawCap) { c.word < WORD }

  type TaggedCap = c: RawCap | IsWord(c) witness RawCap(0)

  const ZERO: TaggedCap := RawCap(0)

  function New(value: nat, tag: bool): RawCap {
    ZERO.WithValue(value).WithAllocated(tag)
  }

  const HALF: nat := ISIZE_MAX + 1

  function High(x: nat): nat { if x < HALF then 0 else HALF }

  // The top bit and the 63 bits below it, as arithmetic.
  lemma Parts(x: nat)
    requires x < WORD
    ensures And(x, VALUE_MASK) == x % HALF && And(x, TAG) == High(x)
  {
    hide And;
    hide Pow2;
    WordIsPow2();
    MaskLow(x, 63);
    MaskHigh(x, 64, 63);
  }

  lemma Join(high: nat, low: nat)
    requires (high == 0 || high == HALF) && low < HALF
    ensures Or(high, low) == high + low && Or(low, high) == high + low
  {
    hide Or;
    hide Pow2;
    WordIsPow2();
    OrDisjoint(high, low, 63);
    OrCommutes(high, low);
  }

  lemma {:induction false} OrCommutes(x: nat, y: nat)
    ensures Or(x, y) == Or(y, x)
    decreases x + y
  {
    if x > 0 || y > 0 {
      OrCommutes(x / 2, y / 2);
    }
  }

  lemma ReadParts(c: TaggedCap)
    ensures c.Value() == c.word % HALF && (c.IsAllocated() <==> HALF <= c.word)
  {
    Parts(c.word);
  }

  lemma WithValueWord(c: TaggedCap, value: nat)
    requires value < WORD
    ensures c.WithValue(value).word == High(c.word) + value % HALF
  {
    Parts(c.word);
    Parts(value);
    Join(High(c.word), value % HALF);
  }

  lemma WithAllocatedWord(c: TaggedCap, tag: bool)
    ensures c.WithAllocated(tag).word == (if tag then HALF else 0) + c.word % HALF
  {
    var bit := TAG - 1 + (if tag then 1 else 0);
    Parts(c.word);
    Parts(bit);
    Join(High(bit), c.word % HALF);
  }

  // The two parts of a word are independent: setting one keeps the other.
  lemma PartsAreIndependent(c: TaggedCap, value: nat, tag: bool)
    requires value < WORD
    ensures IsWord(c.WithValue(value)) && IsWord(c.WithAllocated(tag))
    ensures c.WithValue(value).IsAllocated() == c.IsAllocated()
    ensures c.WithValue(value).Value() == value % HALF
    ensures c.WithAllocated(tag).IsAllocated() == tag
    ensures c.WithAllocated(tag).Value() == c.Value()
  {
    hide And;
    hide Or;
    WithValueWord(c, value);
    WithAllocatedWord(c, tag);
    ReadParts(c);
    ReadParts(c.WithValue(value));
    ReadParts(c.WithAllocated(tag));
  }

  // Packing loses nothing: it round-trips every value below the tag bit, in both directions.
  lemma PackUnpack(value: nat, tag: bool)
    requires value <= MAX_VALUE
    ensures IsWord(New(value, tag)) && New(value, tag).Value() == value && New(value, tag).IsAllocated() == tag
    ensures New(value, tag).word == (if tag then HALF else 0) + value
  {
    hide And;
    hide Or;
    WithValueWord(ZERO, value);
    WithAllocatedWord(ZERO.WithValue(value), tag);
    ReadParts(New(value, tag));
  }

  lemma UnpackPack(c: TaggedCap)
    ensures c.Value() <= MAX_VALUE && New(c.Value(), c.IsAllocated()) == c
  {
    hide And;
    hide Or;
    ReadParts(c);
    PackUnpack(c.Value(), c.IsAllocated());
  }

  // What `reset_len` and `realloc` write: the tag stays and the value is replaced.
  lemma WithValueIsNew(c: TaggedCap, value: nat)
    requires value <= MAX_VALUE
    ensures c.WithValue(value) == New(value, c.IsAllocated())
  {
    hide And;
    hide Or;
    ReadParts(c);
    WithValueWord(c, value);
    PackUnpack(value, c.IsAllocated());
  }
}
