/**
  Shifting, masking and or-ing of unsigned numbers, bit by bit. Each operation is given by recursion over
  the bits and characterised by which bits of the result are set; numbers with the same bits are equal.
  This is what the bit fields of messages, the tags of timeouts and `pow2gt` rest on.
  */
module Bits {

  function Pow2(k: nat): (p: nat)
    ensures p > 0
  {
    if k == 0 then 1 else 2 * Pow2(k - 1)
  }

  /** `n >> k`. */
  function Shr(n: nat, k: nat): nat {
    if k == 0 then n else Shr(n / 2, k - 1)
  }

  /** `n << k`, with no bits lost. */
  function Shl(n: nat, k: nat): nat {
    if k == 0 then n else 2 * Shl(n, k - 1)
  }

  /** `n & (2^k - 1)`. */
  function Low(n: nat, k: nat): nat {
    if k == 0 then 0 else n % 2 + 2 * Low(n / 2, k - 1)
  }

  /** `a | b`. */
  function Or(a: nat, b: nat): (c: nat)
    ensures c == 0 <==> a == 0 && b == 0
  {
    if a == 0 && b == 0 then 0 else (if a % 2 == 1 || b % 2 == 1 then 1 else 0) + 2 * Or(a / 2, b / 2)
  }

  /** Is bit `k` set, counting from the least significant one? */
  predicate Bit(n: nat, k: nat) {
    if k == 0 then n % 2 == 1 else Bit(n / 2, k - 1)
  }

  lemma {:induction false} BitOfZero(k: nat)
    ensures !Bit(0, k)
  {
    if k > 0 {
      BitOfZero(k - 1);
    }
  }

  lemma {:induction false} BitOfShr(n: nat, s: nat, k: nat)
    ensures Bit(Shr(n, s), k) == Bit(n, s + k)
  {
    if s > 0 {
      BitOfShr(n / 2, s - 1, k);
    }
  }

  lemma {:induction false} BitOfShl(n: nat, s: nat, k: nat)
    ensures Bit(Shl(n, s), k) == (k >= s && Bit(n, k - s))
  {
    if s > 0 && k > 0 {
      BitOfShl(n, s - 1, k - 1);
    }
  }

  lemma {:induction false} BitOfLow(n: nat, s: nat, k: nat)
    ensures Bit(Low(n, s), k) == (k < s && Bit(n, k))
  {
    if s == 0 {
      BitOfZero(k);
    } else if k > 0 {
      BitOfLow(n / 2, s - 1, k - 1);
    }
  }

  lemma {:induction false} BitOfOr(a: nat, b: nat, k: nat)
    ensures Bit(Or(a, b), k) == (Bit(a, k) || Bit(b, k))
  {
    if a == 0 && b == 0 {
      BitOfZero(k);
    } else if k > 0 {
      BitOfOr(a / 2, b / 2, k - 1);
    }
  }

  lemma {:induction false} LowFits(n: nat, k: nat)
    ensures Low(n, k) < Pow2(k)
  {
    if k > 0 {
      LowFits(n / 2, k - 1);
    }
  }

  lemma {:induction false} ShlFits(n: nat, s: nat, k: nat)
    requires n < Pow2(k)
    ensures Shl(n, s) < Pow2(k + s)
  {
    if s > 0 {
      ShlFits(n, s - 1, k);
    }
  }

  lemma {:induction false} OrFits(a: nat, b: nat, k: nat)
    requires a < Pow2(k) && b < Pow2(k)
    ensures Or(a, b) < Pow2(k)
  {
    if k > 0 && !(a == 0 && b == 0) {
      OrFits(a / 2, b / 2, k - 1);
    }
  }

  /** The bits of a number that fits lie below its width. */
  lemma {:induction false} NoBitsAbove(n: nat, w: nat, k: nat)
    requires n < Pow2(w) && w <= k
    ensures !Bit(n, k)
  {
    if w == 0 {
      BitOfZero(k);
    } else {
      NoBitsAbove(n / 2, w - 1, k - 1);
    }
  }

  /** Numbers with the same bits are the same. */
  lemma {:induction false} SameBits(a: nat, b: nat)
    requires forall k: nat :: Bit(a, k) == Bit(b, k)
    ensures a == b
    decreases a + b
  {
    if a + b > 0 {
      forall k: nat ensures Bit(a / 2, k) == Bit(b / 2, k) {
        assert Bit(a, k + 1) == Bit(b, k + 1);
      }
      assert Bit(a, 0) == Bit(b, 0);
      SameBits(a / 2, b / 2);
    }
  }

  /** The shifts and the mask are the divisions, products and remainders they are used for. */
  lemma {:induction false} AsArithmetic(n: nat, k: nat)
    ensures Shl(n, k) == n * Pow2(k)
    ensures n == Shr(n, k) * Pow2(k) + Low(n, k)
  {
    if k > 0 {
      var p, q, l := Pow2(k - 1), Shr(n / 2, k - 1), Low(n / 2, k - 1);
      AsArithmetic(n, k - 1);
      AsArithmetic(n / 2, k - 1);
      Doubled(n, p);
      Doubled(q, p);
    }
  }

  lemma Doubled(n: nat, p: nat)
    ensures 2 * (n * p) == n * (2 * p)
  {
  }
}
