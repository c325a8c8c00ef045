/** 64-bit machine words as natural numbers below 2^64, and the operators the code uses on them. */
module Words {
  const WORD: nat := 0x1_0000_0000_0000_0000
  const USIZE_MAX: nat := 0xFFFF_FFFF_FFFF_FFFF
  const ISIZE_MAX: nat := 0x7FFF_FFFF_FFFF_FFFF

  // The soft limit on references, above which a clone aborts the process.
  const MAX_REFCOUNT: nat := ISIZE_MAX

  newtype Byte = x: int | 0 <= x < 256

  datatype Option<+T> = None | Some(value: T)

  function WrappingAdd(a: nat, b: nat): nat { (a + b) % WORD }

  // `%` is Euclidean, so the result is the wrapped difference.
  function WrappingSub(a: nat, b: nat): nat { (a - b) % WORD }

  function CheckedAdd(a: nat, b: nat): Option<nat> {
    if a + b < WORD then Some(a + b) else None
  }

  // A member of a nonempty set, for proofs by induction on sets.
  lemma Pick<T>(s: set<T>) returns (x: T)
    requires s != {}
    ensures x in s
  {
    x :| x in s;
  }
}
