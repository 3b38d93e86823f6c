/** Unsigned words as natural numbers: single bits, and what setting and clearing one does to the others. */
module Bits {
  function Pow2(n: nat): (r: nat)
    ensures r > 0
  {
    if n == 0 then 1 else 2 * Pow2(n - 1)
  }

  /** `(m & (1 << i)) != 0`. */
  predicate Bit(m: nat, i: nat) {
    if i == 0 then m % 2 == 1 else Bit(m / 2, i - 1)
  }

  /** `m | (1 << i)`. */
  function Set(m: nat, i: nat): nat {
    if i == 0 then m / 2 * 2 + 1 else Set(m / 2, i - 1) * 2 + m % 2
  }

  /** `m & ~(1 << i)`. */
  function Clear(m: nat, i: nat): nat {
    if i == 0 then m / 2 * 2 else Clear(m / 2, i - 1) * 2 + m % 2
  }

  /** `(1 << n) - 1`. */
  function Ones(n: nat): nat {
    Pow2(n) - 1
  }

  lemma {:induction false} BitSet(m: nat, i: nat, j: nat)
    ensures Bit(Set(m, i), j) <==> j == i || Bit(m, j)
    decreases i
  {
    var s := Set(m, i);
    if i == 0 {
      assert s / 2 == m / 2 && s % 2 == 1;
    } else {
      assert s / 2 == Set(m / 2, i - 1) && s % 2 == m % 2;
      if j > 0 {
        BitSet(m / 2, i - 1, j - 1);
      }
    }
  }

  lemma {:induction false} BitClear(m: nat, i: nat, j: nat)
    ensures Bit(Clear(m, i), j) <==> j != i && Bit(m, j)
    decreases i
  {
    var s := Clear(m, i);
    if i == 0 {
      assert s / 2 == m / 2 && s % 2 == 0;
    } else {
      assert s / 2 == Clear(m / 2, i - 1) && s % 2 == m % 2;
      if j > 0 {
        BitClear(m / 2, i - 1, j - 1);
      }
    }
  }

  lemma {:induction false} BitOnes(n: nat, j: nat)
    ensures Bit(Ones(n), j) <==> j < n
    decreases n
  {
    if n == 0 {
      BitZero(j);
    } else {
      assert Ones(n) == 2 * Ones(n - 1) + 1;
      assert Ones(n) / 2 == Ones(n - 1);
      if j > 0 {
        BitOnes(n - 1, j - 1);
      }
    }
  }

  lemma {:induction false} BitZero(j: nat)
    ensures !Bit(0, j)
    decreases j
  {
    if j > 0 {
      BitZero(j - 1);
    }
  }

  /** A number whose bits all lie below `n` is below `2^n`. */
  lemma {:induction false} BitsBound(m: nat, n: nat)
    requires forall i: nat :: Bit(m, i) ==> i < n
    ensures m < Pow2(n)
    decreases m
  {
    if m > 0 {
      forall i: nat | Bit(m / 2, i) ensures i < n - 1 {
        assert Bit(m, i + 1);
      }
      if n == 0 {
        NonZeroHasBit(m);
      } else {
        BitsBound(m / 2, n - 1);
      }
    }
  }

  lemma {:induction false} NonZeroHasBit(m: nat)
    requires m > 0
    ensures exists i: nat :: Bit(m, i)
    decreases m
  {
    if m % 2 == 1 {
      assert Bit(m, 0);
    } else {
      NonZeroHasBit(m / 2);
      var i: nat :| Bit(m / 2, i);
      assert Bit(m, i + 1);
    }
  }

  lemma {:induction false} HighBitsClear(m: nat, n: nat, j: nat)
    requires m < Pow2(n) && n <= j
    ensures !Bit(m, j)
    decreases j
  {
    if n == 0 {
      BitZero(j);
    } else {
      HighBitsClear(m / 2, n - 1, j - 1);
    }
  }

  lemma {:induction false} Pow2Grows(a: nat, b: nat)
    requires a <= b
    ensures Pow2(a) <= Pow2(b)
    decreases b
  {
    if a < b {
      Pow2Grows(a, b - 1);
    }
  }
}
