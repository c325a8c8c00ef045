/** Bitwise operators on words, and what masks made of a power of two do. */
module Bits {
  import opened Words

  function Pow2(k: nat): (p: nat)
    ensures 0 < p
  {
    if k == 0 then 1 else 2 * Pow2(k - 1)
  }

  function And(x: nat, y: nat): nat
    decreases x
  {
    if x == 0 then 0 else (if x % 2 == 1 && y % 2 == 1 then 1 else 0) + 2 * And(x / 2, y / 2)
  }

  function Or(x: nat, y: nat): nat
    decreases x + y
  {
    if x == 0 && y == 0 then 0 else (if x % 2 + y % 2 == 0 then 0 else 1) + 2 * Or(x / 2, y / 2)
  }

  function Xor(x: nat, y: nat): nat
    decreases x + y
  {
    if x == 0 && y == 0 then 0 else (if x % 2 == y % 2 then 0 else 1) + 2 * Xor(x / 2, y / 2)
  }

  // The complement of a word.
  function Not(x: nat): nat
    requires x < WORD
  {
    USIZE_MAX - x
  }

  predicate IsPow2(n: nat) {
    n == 1 || (0 < n && n % 2 == 0 && IsPow2(n / 2))
  }

  function Log2(n: nat): (k: nat)
    requires IsPow2(n)
    ensures Pow2(k) == n
  {
    if n == 1 then 0 else 1 + Log2(n / 2)
  }

  lemma {:induction false} Pow2Monotone(j: nat, k: nat)
    requires j <= k
    ensures Pow2(j) <= Pow2(k) && Pow2(k) % Pow2(j) == 0
  {
    if j == k {
    } else {
      Pow2Monotone(j, k - 1);
      var q := Pow2(k - 1) / Pow2(j);
      MultipleMod(2 * q, Pow2(j));
      assert Pow2(k) == 2 * q * Pow2(j);
    }
  }

  lemma WordIsPow2()
    ensures Pow2(64) == WORD && Pow2(63) == ISIZE_MAX + 1
  {
    assert Pow2(8) == 256;
    Pow2Sum(8, 8);
    assert Pow2(16) == 0x1_0000;
    Pow2Sum(16, 16);
    assert Pow2(32) == 0x1_0000_0000;
    Pow2Sum(32, 32);
    assert Pow2(64) == 2 * Pow2(63);
  }

  lemma {:induction false} Pow2Sum(j: nat, k: nat)
    ensures Pow2(j + k) == Pow2(j) * Pow2(k)
  {
    if j > 0 {
      Pow2Sum(j - 1, k);
    }
  }

  lemma MultipleMod(q: int, n: nat)
    requires 0 < n
    ensures (q * n) % n == 0
  {
    ModUnique(q * n, q, 0, n);
  }

  // Division with remainder is unique.
  lemma ModUnique(a: int, q: int, r: int, n: nat)
    requires 0 <= r < n && a == q * n + r
    ensures a / n == q && a % n == r
  {
    var q', r' := a / n, a % n;
    assert a == q' * n + r';
    SameQuotient(q, r, q', r', n);
  }

  lemma AddWraps(a: nat, b: nat)
    requires a < WORD && b < WORD
    ensures WrappingAdd(a, b) == if a + b < WORD then a + b else a + b - WORD
  {
    ModUnique(a + b, if a + b < WORD then 0 else 1, if a + b < WORD then a + b else a + b - WORD, WORD);
  }

  lemma SubWraps(a: nat, b: nat)
    requires a < WORD && b < WORD
    ensures WrappingSub(a, b) == a - b + (if b <= a then 0 else WORD)
  {
    ModUnique(a - b, if b <= a then 0 else -1, a - b + (if b <= a then 0 else WORD), WORD);
  }

  lemma SameQuotient(q: int, r: int, q': int, r': int, n: nat)
    requires 0 <= r < n && 0 <= r' < n && q * n + r == q' * n + r'
    ensures q == q' && r == r'
  {
    var d := q - q';
    assert d * n == r' - r;
    assert d >= 1 ==> d * n >= n;
    assert d <= -1 ==> d * n <= -1 * n;
  }

  // Splitting a number into its low bit and the rest commutes with reducing modulo 2^k.
  lemma ModHalves(x: nat, k: nat)
    requires 0 < k
    ensures x % Pow2(k) == x % 2 + 2 * ((x / 2) % Pow2(k - 1))
  {
    var m := Pow2(k - 1);
    var q := (x / 2) / m;
    ModUnique(x, q, x % 2 + 2 * ((x / 2) % m), 2 * m);
  }

  // The low `k` bits, bit by bit.
  function Low(x: nat, k: nat): nat
  {
    if k == 0 then 0 else x % 2 + 2 * Low(x / 2, k - 1)
  }

  lemma {:induction false} LowIsMod(x: nat, k: nat)
    ensures Low(x, k) == x % Pow2(k)
  {
    if k == 0 {
      ModUnique(x, x, 0, 1);
    } else {
      LowIsMod(x / 2, k - 1);
      ModHalves(x, k);
    }
  }

  lemma {:induction false} Pow2Grows(j: nat, k: nat)
    requires j <= k
    ensures Pow2(j) <= Pow2(k)
  {
    if j < k {
      Pow2Grows(j, k - 1);
    }
  }

  // The mask with the low `k` of `w` bits clear clears them.
  lemma {:induction false} MaskClears(x: nat, w: nat, k: nat)
    requires k <= w && x < Pow2(w)
    ensures Pow2(k) <= Pow2(w) && And(x, Pow2(w) - Pow2(k)) == x - Low(x, k)
  {
    hide And;
    hide Low;
    Pow2Grows(k, w);
    if k == 0 {
      LowOfNone(x);
      MaskHighOdd(x, w);
    } else {
      var half := Pow2(w - 1) - Pow2(k - 1);
      MaskClears(x / 2, w - 1, k - 1);
      MaskClearsBit(x, half, k);
      assert Pow2(w) - Pow2(k) == 2 * half;
    }
  }

  lemma MaskClearsBit(x: nat, half: nat, k: nat)
    requires 0 < k && And(x / 2, half) == x / 2 - Low(x / 2, k - 1)
    ensures And(x, 2 * half) == x - Low(x, k)
  {
    AndTwice(x, half);
    hide And;
  }

  lemma LowOfNone(x: nat)
    ensures Low(x, 0) == 0
  {}

  lemma AndTwice(x: nat, half: nat)
    ensures And(x, 2 * half) == 2 * And(x / 2, half)
  {
    assert (2 * half) / 2 == half;
  }

  // So it rounds down to a multiple of 2^k.
  lemma MaskHigh(x: nat, w: nat, k: nat)
    requires k <= w && x < Pow2(w)
    ensures Pow2(k) <= Pow2(w) && And(x, Pow2(w) - Pow2(k)) == x - x % Pow2(k)
  {
    hide And;
    hide Pow2;
    hide Low;
    MaskClears(x, w, k);
    LowIsMod(x, k);
  }

  lemma {:induction false} MaskHighOdd(x: nat, w: nat)
    requires x < Pow2(w)
    ensures And(x, Pow2(w) - 1) == x
  {
    if x > 0 {
      assert (Pow2(w) - 1) / 2 == Pow2(w - 1) - 1;
      MaskHighOdd(x / 2, w - 1);
    }
  }

  lemma AndOdd(x: nat, y: nat)
    requires 0 < x && y % 2 == 1
    ensures And(x, y) == x % 2 + 2 * And(x / 2, y / 2)
  {}

  lemma OnesHalves(k: nat)
    requires 0 < k
    ensures (Pow2(k) - 1) / 2 == Pow2(k - 1) - 1 && (Pow2(k) - 1) % 2 == 1
  {}

  // The mask of the low `k` bits reduces modulo 2^k.
  lemma MaskLow(x: nat, k: nat)
    ensures And(x, Pow2(k) - 1) == x % Pow2(k)
  {
    hide And;
    hide Pow2;
    hide Low;
    MaskKeeps(x, k);
    LowIsMod(x, k);
  }

  lemma {:induction false} MaskKeeps(x: nat, k: nat)
    ensures And(x, Pow2(k) - 1) == Low(x, k)
  {
    if k == 0 {
      AndZero(x);
    } else {
      OnesHalves(k);
      MaskKeeps(x / 2, k - 1);
      if x > 0 {
        AndOdd(x, Pow2(k) - 1);
      }
    }
  }

  lemma {:induction false} AndZero(x: nat)
    ensures And(x, 0) == 0
  {
    if x > 0 {
      AndZero(x / 2);
    }
  }

  // Bits that do not overlap add up.
  lemma {:induction false} OrDisjoint(x: nat, y: nat, k: nat)
    requires x % Pow2(k) == 0 && y < Pow2(k)
    ensures Or(x, y) == x + y
  {
    if k == 0 {
      OrZero(x);
    } else if x > 0 || y > 0 {
      ModHalves(x, k);
      OrDisjoint(x / 2, y / 2, k - 1);
    }
  }

  lemma {:induction false} OrZero(x: nat)
    ensures Or(x, 0) == x
  {
    if x > 0 {
      OrZero(x / 2);
    }
  }

  // Exclusive or with all ones is the complement.
  lemma {:induction false} XorOnes(x: nat, w: nat)
    requires x < Pow2(w)
    ensures Xor(x, Pow2(w) - 1) == Pow2(w) - 1 - x
  {
    if w > 0 {
      XorOnes(x / 2, w - 1);
      OnesHalves(w);
      XorOdd(x, Pow2(w) - 1);
    }
  }

  lemma XorOdd(x: nat, y: nat)
    requires y % 2 == 1
    ensures Xor(x, y) == 1 - x % 2 + 2 * Xor(x / 2, y / 2)
  {}

  lemma XorMax(x: nat)
    requires x < WORD
    ensures Xor(x, USIZE_MAX) == USIZE_MAX - x
  {
    WordIsPow2();
    XorOnes(x, 64);
  }
}
