/** Machine words as natural numbers, the operations on them, and what each does bit by bit. */
module Bits {

  const W64 := 0x1_0000_0000_0000_0000

  function Pow2(n: nat): (p: nat)
    ensures p > 0
  {
    if n == 0 then 1 else 2 * Pow2(n - 1)
  }

  predicate Bit(w: nat, i: nat)
    decreases i
  {
    if i == 0 then w % 2 == 1 else Bit(w / 2, i - 1)
  }

  function And(a: nat, b: nat): nat
    decreases a
  {
    if a == 0 then 0 else (a % 2) * (b % 2) + 2 * And(a / 2, b / 2)
  }

  function Or(a: nat, b: nat): nat
    decreases a
  {
    if a == 0 then b else (if a % 2 == 1 || b % 2 == 1 then 1 else 0) + 2 * Or(a / 2, b / 2)
  }

  /** Complement in `n` bits. */
  function Not(w: nat, n: nat): nat
    decreases n
  {
    if n == 0 then 0 else (1 - w % 2) + 2 * Not(w / 2, n - 1)
  }

  /** Truncation to the low `n` bits. */
  function Low(w: nat, n: nat): nat
    decreases n
  {
    if n == 0 then 0 else w % 2 + 2 * Low(w / 2, n - 1)
  }

  function Shr(w: nat, n: nat): nat
    decreases n
  {
    if n == 0 then w else Shr(w / 2, n - 1)
  }

  /** Shift left, dropping what leaves the 64-bit word. */
  function Shl(w: nat, n: nat): nat
    decreases n
  {
    if n == 0 then w else Shl(Low(2 * w, 64), n - 1)
  }

  function CountOnes(w: nat): nat {
    if w == 0 then 0 else w % 2 + CountOnes(w / 2)
  }

  function TrailingZeros(w: nat): nat
    requires w > 0
  {
    if w % 2 == 1 then 0 else 1 + TrailingZeros(w / 2)
  }

  /** Position of the highest one: 63 minus the leading zeros of a 64-bit word. */
  function HighBit(w: nat): nat
    requires w > 0
  {
    if w == 1 then 0 else 1 + HighBit(w / 2)
  }

  /** The low `n` bits in reverse order. */
  function ReverseBits(w: nat, n: nat): (r: nat)
    decreases n
  {
    if n == 0 then 0 else (if w % 2 == 1 then Pow2(n - 1) else 0) + ReverseBits(w / 2, n - 1)
  }

  // ----- bit by bit

  lemma {:induction false} BitZero(i: nat)
    ensures !Bit(0, i)
  {
    if i > 0 {
      BitZero(i - 1);
    }
  }

  lemma {:induction false} BitHigh(w: nat, n: nat, i: nat)
    requires w < Pow2(n) && n <= i
    ensures !Bit(w, i)
    decreases n
  {
    if n == 0 {
      BitZero(i);
    } else {
      BitHigh(w / 2, n - 1, i - 1);
    }
  }

  lemma {:induction false} BitAnd(a: nat, b: nat, i: nat)
    ensures Bit(And(a, b), i) <==> Bit(a, i) && Bit(b, i)
    decreases i
  {
    if a == 0 {
      BitZero(i);
    } else if i > 0 {
      assert And(a, b) / 2 == And(a / 2, b / 2);
      BitAnd(a / 2, b / 2, i - 1);
    }
  }

  lemma {:induction false} BitOr(a: nat, b: nat, i: nat)
    ensures Bit(Or(a, b), i) <==> Bit(a, i) || Bit(b, i)
    decreases i
  {
    if a == 0 {
      BitZero(i);
    } else if i > 0 {
      assert Or(a, b) / 2 == Or(a / 2, b / 2);
      BitOr(a / 2, b / 2, i - 1);
    }
  }

  lemma {:induction false} BitNot(w: nat, n: nat, i: nat)
    ensures Bit(Not(w, n), i) <==> i < n && !Bit(w, i)
    decreases n
  {
    if n == 0 {
      BitZero(i);
    } else if i > 0 {
      assert Not(w, n) / 2 == Not(w / 2, n - 1);
      BitNot(w / 2, n - 1, i - 1);
    }
  }

  lemma {:induction false} BitShr(w: nat, n: nat, i: nat)
    ensures Bit(Shr(w, n), i) <==> Bit(w, i + n)
    decreases n
  {
    if n > 0 {
      BitShr(w / 2, n - 1, i);
    }
  }

  lemma {:induction false} BitLow(w: nat, n: nat, i: nat)
    ensures Bit(Low(w, n), i) <==> i < n && Bit(w, i)
    decreases n
  {
    if n == 0 {
      BitZero(i);
    } else if i > 0 {
      assert Low(w, n) / 2 == Low(w / 2, n - 1);
      BitLow(w / 2, n - 1, i - 1);
    }
  }

  lemma {:induction false} LowBound(w: nat, n: nat)
    ensures Low(w, n) < Pow2(n)
    decreases n
  {
    if n > 0 {
      LowBound(w / 2, n - 1);
    }
  }

  lemma Pow64()
    ensures Pow2(64) == W64
  {
    assert Pow2(8) == 0x100;
    assert Pow2(16) == 0x1_0000;
    assert Pow2(24) == 0x100_0000;
    assert Pow2(32) == 0x1_0000_0000;
    assert Pow2(40) == 0x100_0000_0000;
    assert Pow2(48) == 0x1_0000_0000_0000;
    assert Pow2(56) == 0x100_0000_0000_0000;
  }

  lemma {:induction false} BitShl(w: nat, n: nat, i: nat)
    requires i < 64
    ensures Bit(Shl(w, n), i) <==> i >= n && Bit(w, i - n)
    decreases n
  {
    hide Low;
    if n > 0 {
      BitShl(Low(2 * w, 64), n - 1, i);
      if i >= n - 1 {
        BitLow(2 * w, 64, i - (n - 1));
      }
    }
  }

  lemma {:induction false} ShlBound(w: nat, n: nat)
    requires w < W64
    ensures Shl(w, n) < W64
    decreases n
  {
    hide Low, Pow2;
    if n > 0 {
      LowBound(2 * w, 64);
      Pow64();
      ShlBound(Low(2 * w, 64), n - 1);
    }
  }

  lemma {:induction false} BitMask(n: nat, i: nat)
    ensures Bit(Pow2(n) - 1, i) <==> i < n
    decreases n
  {
    if n == 0 {
      BitZero(i);
    } else if i > 0 {
      assert (Pow2(n) - 1) / 2 == Pow2(n - 1) - 1;
      BitMask(n - 1, i - 1);
    }
  }

  lemma {:induction false} BitReverse(w: nat, n: nat, i: nat)
    requires i < n
    ensures Bit(ReverseBits(w, n), i) <==> Bit(w, n - 1 - i)
    decreases n
  {
    var rest := ReverseBits(w / 2, n - 1);
    ReverseBound(w / 2, n - 1);
    BitsOfSum(rest, n - 1, i);
    if i == n - 1 {
      BitHigh(rest, n - 1, n - 1);
    } else {
      BitReverse(w / 2, n - 1, i);
    }
  }

  lemma {:induction false} ReverseBound(w: nat, n: nat)
    ensures ReverseBits(w, n) < Pow2(n)
    decreases n
  {
    if n > 0 {
      ReverseBound(w / 2, n - 1);
    }
  }

  /** Adding a power of two above a number sets exactly that bit. */
  lemma {:induction false} BitsOfSum(r: nat, n: nat, i: nat)
    requires r < Pow2(n)
    ensures Bit(Pow2(n) + r, i) <==> i == n || Bit(r, i)
    decreases n
  {
    if n > 0 {
      assert (Pow2(n) + r) / 2 == Pow2(n - 1) + r / 2;
      if i > 0 {
        BitsOfSum(r / 2, n - 1, i - 1);
      }
    } else if i > 0 {
      BitZero(i - 1);
    }
  }

  /** Words with the same bits are equal. */
  lemma {:induction false} SameBits(a: nat, b: nat, n: nat)
    requires a < Pow2(n) && b < Pow2(n)
    requires forall i :: 0 <= i < n ==> (Bit(a, i) <==> Bit(b, i))
    ensures a == b
    decreases n
  {
    if n > 0 {
      assert Bit(a, 0) <==> Bit(b, 0);
      forall i | 0 <= i < n - 1
        ensures Bit(a / 2, i) <==> Bit(b / 2, i)
      {
        assert Bit(a, i + 1) <==> Bit(b, i + 1);
      }
      SameBits(a / 2, b / 2, n - 1);
    }
  }

  lemma {:induction false} SomeBit(w: nat)
    requires w > 0
    ensures Bit(w, TrailingZeros(w)) && forall i :: 0 <= i < TrailingZeros(w) ==> !Bit(w, i)
  {
    if w % 2 == 0 {
      SomeBit(w / 2);
      forall i | 0 <= i < TrailingZeros(w)
        ensures !Bit(w, i)
      {
        if i > 0 {
          assert !Bit(w / 2, i - 1);
        }
      }
    }
  }

  lemma {:induction false} TopmostBit(w: nat)
    requires w > 0
    ensures Bit(w, HighBit(w)) && w < Pow2(HighBit(w) + 1)
  {
    if w > 1 {
      TopmostBit(w / 2);
    }
  }

  lemma {:induction false} HighBitBound(w: nat, n: nat)
    requires 0 < w < Pow2(n)
    ensures HighBit(w) < n && TrailingZeros(w) < n
    decreases n
  {
    if n == 0 {
      assert false;
    } else if w > 1 {
      HighBitBound(w / 2, n - 1);
    }
  }

  lemma {:induction false} OrBound(a: nat, b: nat, n: nat)
    requires a < Pow2(n) && b < Pow2(n)
    ensures Or(a, b) < Pow2(n)
    decreases n
  {
    if n > 0 && a > 0 {
      OrBound(a / 2, b / 2, n - 1);
    }
  }

  lemma {:induction false} AndBound(a: nat, b: nat)
    ensures And(a, b) <= a
    decreases a
  {
    if a > 0 {
      AndBound(a / 2, b / 2);
      assert (a % 2) * (b % 2) <= a % 2 by {
        assert b % 2 == 0 || b % 2 == 1;
      }
    }
  }

  lemma {:induction false} NotBound(w: nat, n: nat)
    ensures Not(w, n) < Pow2(n)
    decreases n
  {
    if n > 0 {
      NotBound(w / 2, n - 1);
    }
  }

  lemma {:induction false} ShrBound(w: nat, n: nat)
    ensures Shr(w, n) <= w
    decreases n
  {
    if n > 0 {
      ShrBound(w / 2, n - 1);
    }
  }

  /** The one-bit mask. */
  lemma BitOne(b: nat, i: nat)
    requires b < 64
    ensures Shl(1, b) < W64 && (Bit(Shl(1, b), i) <==> i == b)
  {
    ShlBound(1, b);
    if i < 64 {
      BitShl(1, b, i);
      if i > b {
        BitHigh(1, 1, i - b);
      }
    } else {
      Pow64();
      BitHigh(Shl(1, b), 64, i);
    }
  }

  /** Masking with one bit tests that bit. */
  lemma MaskTests(w: nat, b: nat)
    requires b < 64
    ensures And(w, Shl(1, b)) == 0 <==> !Bit(w, b)
  {
    var v := And(w, Shl(1, b));
    BitAnd(w, Shl(1, b), b);
    BitOne(b, b);
    if v == 0 {
      BitZero(b);
    } else {
      var t := TrailingZeros(v);
      SomeBit(v);
      BitAnd(w, Shl(1, b), t);
      BitOne(b, t);
    }
  }

  /** A one shifted within the word is a power of two. */
  lemma {:induction false} ShlIsPow(b: nat)
    requires b < 64
    ensures Shl(1, b) == Pow2(b)
  {
    Pow64();
    PowBound(b, 64);
    forall i | 0 <= i < 64
      ensures Bit(Shl(1, b), i) <==> Bit(Pow2(b), i)
    {
      BitOne(b, i);
      BitsOfSum(0, b, i);
      BitZero(i);
    }
    ShlBound(1, b);
    SameBits(Shl(1, b), Pow2(b), 64);
  }

  lemma {:induction false} PowBound(a: nat, n: nat)
    requires a < n
    ensures Pow2(a) < Pow2(n)
    decreases n
  {
    if a < n - 1 {
      PowBound(a, n - 1);
    }
  }

  /** The mask of the low `b` bits, as the code builds it. */
  lemma BitLowMask(b: nat, i: nat)
    requires b < 64
    ensures Shl(1, b) > 0 && (Bit(Shl(1, b) - 1, i) <==> i < b)
  {
    ShlIsPow(b);
    BitMask(b, i);
  }

  /** The low `b` bits are zero. */
  predicate LowClear(w: nat, b: nat) {
    forall i :: 0 <= i < b ==> !Bit(w, i)
  }

  /** Masking with the low `b` bits tests them all. */
  lemma LowMaskTests(w: nat, b: nat)
    requires b < 64
    ensures Shl(1, b) > 0 && (And(w, Shl(1, b) - 1) == 0 <==> LowClear(w, b))
  {
    hide Shl, And, Bit;
    BitLowMask(b, 0);
    var m := Shl(1, b) - 1;
    var v := And(w, m);
    forall i: nat
      ensures Bit(v, i) <==> Bit(w, i) && i < b
    {
      BitAnd(w, m, i);
      BitLowMask(b, i);
    }
    if v == 0 {
      forall i: nat { BitZero(i); }
    } else {
      SomeBit(v);
      assert Bit(w, TrailingZeros(v));
    }
  }
}
