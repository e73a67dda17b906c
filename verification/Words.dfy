/** Unsigned words as numbers, with the bitwise operations of C++ on them. */
module Words {
  const BITS := 64

  function Pow2(n: nat): (p: nat)
    ensures p >= 1
  {
    if n == 0 then 1 else 2 * Pow2(n - 1)
  }

  predicate IsWord(w: nat) {
    w < Pow2(BITS)
  }

  /** Bit `k`, counted from the least significant one: `(w >> k) & 1`. */
  predicate Bit(w: nat, k: nat) {
    if k == 0 then w % 2 == 1 else Bit(w / 2, k - 1)
  }

  function Or(x: nat, y: nat): nat {
    if x == 0 && y == 0 then 0 else 2 * Or(x / 2, y / 2) + (if x % 2 == 1 || y % 2 == 1 then 1 else 0)
  }

  function And(x: nat, y: nat): nat {
    if x == 0 || y == 0 then 0 else 2 * And(x / 2, y / 2) + (if x % 2 == 1 && y % 2 == 1 then 1 else 0)
  }

  function Not(w: nat): nat
    requires IsWord(w)
  {
    Pow2(BITS) - 1 - w
  }

  function CountTrailingZeros(w: nat): nat
    requires w != 0
    decreases w
  {
    if w % 2 == 1 then 0 else 1 + CountTrailingZeros(w / 2)
  }

  lemma {:induction false} BitOfZero(k: nat)
    ensures !Bit(0, k)
  {
    if k > 0 {
      BitOfZero(k - 1);
    }
  }

  lemma {:induction false} BitOfOr(x: nat, y: nat, k: nat)
    ensures Bit(Or(x, y), k) <==> Bit(x, k) || Bit(y, k)
    decreases k
  {
    if x == 0 && y == 0 {
      BitOfZero(k);
    } else if k > 0 {
      BitOfOr(x / 2, y / 2, k - 1);
    }
  }

  lemma {:induction false} BitOfAnd(x: nat, y: nat, k: nat)
    ensures Bit(And(x, y), k) <==> Bit(x, k) && Bit(y, k)
    decreases k
  {
    if x == 0 || y == 0 {
      BitOfZero(k);
    } else if k > 0 {
      BitOfAnd(x / 2, y / 2, k - 1);
    }
  }

  lemma {:induction false} BitOfPow2(m: nat, k: nat)
    ensures Bit(Pow2(m), k) <==> k == m
    decreases k
  {
    if k > 0 {
      if m == 0 {
        BitOfZero(k - 1);
      } else {
        BitOfPow2(m - 1, k - 1);
      }
    }
  }

  /** The complement within `m` bits. */
  lemma {:induction false} BitOfComplement(w: nat, m: nat, k: nat)
    requires w < Pow2(m)
    ensures Bit(Pow2(m) - 1 - w, k) <==> k < m && !Bit(w, k)
    decreases m
  {
    if m == 0 {
      BitOfZero(k);
    } else if k > 0 {
      assert (Pow2(m) - 1 - w) / 2 == Pow2(m - 1) - 1 - w / 2;
      BitOfComplement(w / 2, m - 1, k - 1);
    }
  }

  /** The low `m` bits: `(1 << m) - 1`. */
  lemma BitOfMask(m: nat, k: nat)
    ensures Bit(Pow2(m) - 1, k) <==> k < m
  {
    BitOfZero(k);
    BitOfComplement(0, m, k);
  }

  lemma {:induction false} OrIsBounded(x: nat, y: nat, m: nat)
    requires x < Pow2(m) && y < Pow2(m)
    ensures Or(x, y) < Pow2(m)
    decreases m
  {
    if m > 0 {
      OrIsBounded(x / 2, y / 2, m - 1);
    }
  }

  lemma {:induction false} AndIsBounded(x: nat, y: nat)
    ensures And(x, y) <= x
    decreases x
  {
    if x != 0 && y != 0 {
      AndIsBounded(x / 2, y / 2);
    }
  }

  lemma {:induction false} Pow2Grows(m: nat, n: nat)
    requires m < n
    ensures Pow2(m) < Pow2(n)
    decreases n
  {
    if m < n - 1 {
      Pow2Grows(m, n - 1);
    }
  }

  /** No bit is set at or above the bound. */
  lemma {:induction false} BitIsBounded(w: nat, m: nat, k: nat)
    requires w < Pow2(m) && m <= k
    ensures !Bit(w, k)
    decreases m
  {
    if m == 0 {
      BitOfZero(k);
    } else {
      BitIsBounded(w / 2, m - 1, k - 1);
    }
  }

  /** The number of trailing zeros is the position of the least set bit. */
  lemma {:induction false} TrailingZeros(w: nat)
    requires w != 0
    ensures Bit(w, CountTrailingZeros(w))
    ensures forall k: nat :: k < CountTrailingZeros(w) ==> !Bit(w, k)
    decreases w
  {
    if w % 2 == 0 {
      TrailingZeros(w / 2);
      forall k: nat | k < CountTrailingZeros(w)
        ensures !Bit(w, k)
      {
        assert k > 0 ==> !Bit(w / 2, k - 1);
      }
    }
  }

  lemma TrailingZerosInWord(w: nat)
    requires w != 0 && IsWord(w)
    ensures CountTrailingZeros(w) < BITS
  {
    TrailingZeros(w);
    if CountTrailingZeros(w) >= BITS {
      BitIsBounded(w, BITS, CountTrailingZeros(w));
    }
  }
}
