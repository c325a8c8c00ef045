/** The bytes of a block: counter and capacity as little-endian words in the header, then the data. */
module Headers {
  import opened Words
  import opened Bits
  import opened Layouts
  import opened BlockLayouts
  import opened Memory

  function Encode(w: nat, n: nat): (s: seq<Byte>)
    ensures |s| == n
  {
    if n == 0 then [] else [(w % 256) as Byte] + Encode(w / 256, n - 1)
  }

  function Decode(s: seq<Byte>): nat {
    if s == [] then 0 else s[0] as nat + 256 * Decode(s[1..])
  }

  lemma {:induction false} DecodeEncode(w: nat, n: nat)
    requires w < Pow2(8 * n)
    ensures Decode(Encode(w, n)) == w
  {
    if n > 0 {
      var k := 8 * n;
      assert Pow2(k) == 2 * Pow2(k - 1) == 4 * Pow2(k - 2) == 8 * Pow2(k - 3) == 16 * Pow2(k - 4);
      assert Pow2(k - 4) == 2 * Pow2(k - 5) == 4 * Pow2(k - 6) == 8 * Pow2(k - 7) == 16 * Pow2(k - 8);
      DecodeEncode(w / 256, n - 1);
      assert Encode(w, n)[1..] == Encode(w / 256, n - 1);
    }
  }

  function ReadWord(s: seq<Byte>, at: nat): nat
    requires at + 8 <= |s|
  {
    Decode(s[at..at + 8])
  }

  function WordBytes(w: nat): (s: seq<Byte>)
    ensures |s| == 8
  {
    Encode(w, 8)
  }

  lemma ReadBack(s: seq<Byte>, at: nat, w: nat)
    requires at + 8 <= |s| && w < WORD
    ensures ReadWord(Patched(s, at, WordBytes(w)), at) == w
  {
    WordIsPow2();
    DecodeEncode(w, 8);
    assert Patched(s, at, WordBytes(w))[at..at + 8] == WordBytes(w);
  }

  // A store elsewhere leaves a word alone.
  lemma ReadPast(s: seq<Byte>, at: nat, data: seq<Byte>, to: nat)
    requires at + 8 <= |s| && to + |data| <= |s| && (at + 8 <= to || to + |data| <= at)
    ensures ReadWord(Patched(s, to, data), at) == ReadWord(s, at)
  {
    assert Patched(s, to, data)[at..at + 8] == s[at..at + 8];
  }

  // ---------- header and data of one block

  predicate HasHeader(p: Params, s: seq<Byte>) {
    ValidParams(p) && Offset(p) <= |s|
  }

  lemma HeaderFits(p: Params)
    requires ValidParams(p)
    ensures 8 <= CapAt(p) && CapAt(p) + 8 <= Offset(p)
  {
    OffsetIsAligned(p);
  }

  function CountOf(p: Params, s: seq<Byte>): nat
    requires HasHeader(p, s)
  {
    HeaderFits(p);
    ReadWord(s, 0)
  }

  function CapOf(p: Params, s: seq<Byte>): nat
    requires HasHeader(p, s)
  {
    HeaderFits(p);
    ReadWord(s, CapAt(p))
  }

  function DataOf(p: Params, s: seq<Byte>): seq<Byte>
    requires HasHeader(p, s)
  {
    s[Offset(p)..]
  }

  function SetCount(p: Params, s: seq<Byte>, count: nat): (r: seq<Byte>)
    requires HasHeader(p, s)
    ensures |r| == |s|
  {
    HeaderFits(p);
    Patched(s, 0, WordBytes(count))
  }

  function SetCap(p: Params, s: seq<Byte>, cap: nat): (r: seq<Byte>)
    requires HasHeader(p, s)
    ensures |r| == |s|
  {
    HeaderFits(p);
    Patched(s, CapAt(p), WordBytes(cap))
  }

  // The header words do not overlap each other or the data.
  lemma CountIsSet(p: Params, s: seq<Byte>, count: nat)
    requires HasHeader(p, s) && count < WORD
    ensures var r := SetCount(p, s, count);
            CountOf(p, r) == count && CapOf(p, r) == CapOf(p, s) && DataOf(p, r) == DataOf(p, s)
  {
    HeaderFits(p);
    ReadBack(s, 0, count);
    ReadPast(s, CapAt(p), WordBytes(count), 0);
  }

  lemma CapIsSet(p: Params, s: seq<Byte>, cap: nat)
    requires HasHeader(p, s) && cap < WORD
    ensures var r := SetCap(p, s, cap);
            CapOf(p, r) == cap && CountOf(p, r) == CountOf(p, s) && DataOf(p, r) == DataOf(p, s)
  {
    HeaderFits(p);
    ReadBack(s, CapAt(p), cap);
    ReadPast(s, 0, WordBytes(cap), CapAt(p));
  }

  // A store into the data leaves the header alone.
  lemma HeaderStays(p: Params, s: seq<Byte>, at: nat, data: seq<Byte>)
    requires HasHeader(p, s) && Offset(p) <= at && at + |data| <= |s|
    ensures var r := Patched(s, at, data); CountOf(p, r) == CountOf(p, s) && CapOf(p, r) == CapOf(p, s)
  {
    HeaderFits(p);
    ReadPast(s, 0, data, at);
    ReadPast(s, CapAt(p), data, at);
  }

  lemma DataIsSet(p: Params, s: seq<Byte>, at: nat, data: seq<Byte>)
    requires HasHeader(p, s) && at + |data| <= |DataOf(p, s)|
    ensures var r := Patched(s, Offset(p) + at, data);
            CountOf(p, r) == CountOf(p, s) && CapOf(p, r) == CapOf(p, s) && DataOf(p, r) == Patched(DataOf(p, s), at, data)
  {
    HeaderStays(p, s, Offset(p) + at, data);
    hide CountOf;
    hide CapOf;
    PatchBehind(s, Offset(p), at, data);
  }

  lemma PatchBehind(s: seq<Byte>, from: nat, at: nat, data: seq<Byte>)
    requires from + at + |data| <= |s|
    ensures Patched(s, from + at, data)[from..] == Patched(s[from..], at, data)
  {}

  // Copying a prefix that covers the header copies the header and the start of the data.
  lemma HeaderIsCopied(p: Params, s: seq<Byte>, r: seq<Byte>, n: nat)
    requires HasHeader(p, s) && Offset(p) <= n <= |s| && n <= |r| && s[..n] == r[..n]
    ensures CountOf(p, r) == CountOf(p, s) && CapOf(p, r) == CapOf(p, s)
  {
    hide ReadWord;
    HeaderFits(p);
    SameWord(s, r, n, 0);
    SameWord(s, r, n, CapAt(p));
  }

  lemma SameWord(s: seq<Byte>, r: seq<Byte>, n: nat, at: nat)
    requires at + 8 <= n <= |s| && n <= |r| && s[..n] == r[..n]
    ensures ReadWord(s, at) == ReadWord(r, at)
  {
    SameSlice(s, r, n, at, at + 8);
  }

  lemma PrefixIsKept(p: Params, s: seq<Byte>, r: seq<Byte>, n: nat)
    requires HasHeader(p, s) && Offset(p) <= n <= |s| && n <= |r| && s[..n] == r[..n]
    ensures CountOf(p, r) == CountOf(p, s) && CapOf(p, r) == CapOf(p, s)
    ensures DataOf(p, r)[..n - Offset(p)] == DataOf(p, s)[..n - Offset(p)]
  {
    HeaderIsCopied(p, s, r, n);
    hide CountOf;
    hide CapOf;
    SameSlice(s, r, n, Offset(p), n);
    assert DataOf(p, s)[..n - Offset(p)] == s[Offset(p)..n];
    assert DataOf(p, r)[..n - Offset(p)] == r[Offset(p)..n];
  }

  lemma SameSlice(s: seq<Byte>, r: seq<Byte>, n: nat, lo: nat, hi: nat)
    requires lo <= hi <= n <= |s| && n <= |r| && s[..n] == r[..n]
    ensures s[lo..hi] == r[lo..hi]
  {
    assert s[lo..hi] == s[..n][lo..hi];
    assert r[lo..hi] == r[..n][lo..hi];
  }

  // A block as this crate allocates it: its layout is the one its recorded capacity calls for.
  predicate GoodBlock(p: Params, b: Block) {
    && HasHeader(p, b.bytes) && |b.bytes| == b.layout.size
    && LayoutOf(p, CapOf(p, b.bytes)) == Some(b.layout)
  }

  lemma DataIsCapacity(p: Params, b: Block)
    requires GoodBlock(p, b)
    ensures |DataOf(p, b.bytes)| == CapOf(p, b.bytes)
  {
    LayoutOfIs(p, CapOf(p, b.bytes));
  }
}
