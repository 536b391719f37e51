/** Machine words, the smaller of two numbers, and the optional value. */
module Words {

  const WORD32: nat := 0x1_0000_0000
  const WORD64: nat := 0x1_0000_0000_0000_0000

  type Word32 = n: nat | n < WORD32
  type Word64 = n: nat | n < WORD64

  /** Unsigned 64-bit wrap-around. */
  function Wrap(n: nat): Word64 {
    n % WORD64
  }

  lemma {:induction false} WrapPlus(n: nat, v: nat)
    ensures Wrap(Wrap(n) + v) == Wrap(n + v)
  {
  }

  function Min(a: nat, b: nat): nat {
    if a < b then a else b
  }

  datatype Option<+T> = None | Some(value: T)
}
