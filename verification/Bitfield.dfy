/**
  The word-packed bitfield. Bit `i` lives in word `i / 64` at position `i % 64`; on the wire it is
  bit `7 - i % 8` of byte `i / 8`.
*/
module Bitfield {
  import opened Common
  import opened Bits

  type Words = seq<nat>

  predicate At(words: Words, i: nat) {
    i / 64 < |words| && Bit(words[i / 64], i % 64)
  }

  /** Number of ones at positions in [lo, hi). */
  function Ones(words: Words, lo: nat, hi: nat): (n: nat)
    decreases hi
  {
    if hi <= lo then 0 else Ones(words, lo, hi - 1) + if At(words, hi - 1) then 1 else 0
  }

  ghost predicate IsWords(words: Words) {
    forall k :: 0 <= k < |words| ==> words[k] < W64
  }

  /** The right number of words, and no bit past the length. */
  ghost predicate Canonical(words: Words, len: nat) {
    |words| == (len + 63) / 64 && IsWords(words) && forall i: nat :: i >= len ==> !At(words, i)
  }

  ghost function Members(words: Words, len: nat): set<nat> {
    set i | 0 <= i < len && At(words, i)
  }

  ghost function Segment(s: set<nat>, from: nat, to: nat): set<nat> {
    set i | i in s && from <= i < to
  }

  // ----- counting

  lemma {:induction false} OnesIsCardinality(words: Words, n: nat)
    ensures Ones(words, 0, n) == |Members(words, n)|
  {
    if n == 0 {
      assert Members(words, 0) == {};
    } else {
      OnesIsCardinality(words, n - 1);
      if At(words, n - 1) {
        assert Members(words, n) == Members(words, n - 1) + {n - 1};
      } else {
        assert Members(words, n) == Members(words, n - 1);
      }
    }
  }

  lemma {:induction false} OnesSplit(words: Words, lo: nat, mid: nat, hi: nat)
    requires lo <= mid <= hi
    ensures Ones(words, lo, hi) == Ones(words, lo, mid) + Ones(words, mid, hi)
    decreases hi
  {
    if mid < hi {
      OnesSplit(words, lo, mid, hi - 1);
    }
  }

  lemma {:induction false} OnesSame(words: Words, words': Words, lo: nat, hi: nat)
    requires forall i :: lo <= i < hi ==> (At(words, i) <==> At(words', i))
    ensures Ones(words, lo, hi) == Ones(words', lo, hi)
    decreases hi
  {
    if lo < hi {
      OnesSame(words, words', lo, hi - 1);
    }
  }

  /** Setting one clear bit adds one. */
  lemma OnesFlip(words: Words, words': Words, n: nat, b: nat)
    requires b < n && !At(words, b) && At(words', b)
    requires forall i: nat :: i != b ==> (At(words, i) <==> At(words', i))
    ensures Ones(words', 0, n) == Ones(words, 0, n) + 1
  {
    OnesSplit(words, 0, b, n);
    OnesSplit(words', 0, b, n);
    OnesSplit(words, b, b + 1, n);
    OnesSplit(words', b, b + 1, n);
    OnesSame(words, words', 0, b);
    OnesSame(words, words', b + 1, n);
    assert Ones(words, b, b) == 0 && Ones(words', b, b) == 0;
  }

  /** Within one word: the ones of `w` below `n`. */
  function WordOnes(w: nat, n: nat): nat {
    if n == 0 then 0 else WordOnes(w, n - 1) + if Bit(w, n - 1) then 1 else 0
  }

  lemma {:induction false} WordOnesHalf(w: nat, n: nat)
    requires n > 0
    ensures WordOnes(w, n) == w % 2 + WordOnes(w / 2, n - 1)
  {
    if n > 1 {
      WordOnesHalf(w, n - 1);
    }
  }

  lemma {:induction false} CountIsWordOnes(w: nat, n: nat)
    requires w < Pow2(n)
    ensures CountOnes(w) == WordOnes(w, n)
    decreases n
  {
    if n == 0 {
    } else {
      WordOnesHalf(w, n);
      CountIsWordOnes(w / 2, n - 1);
      if w == 0 {
        assert CountOnes(w / 2) == 0;
      }
    }
  }

  lemma {:induction false} WordOnesAre(words: Words, k: nat, n: nat)
    requires k < |words| && n <= 64
    ensures WordOnes(words[k], n) == Ones(words, 64 * k, 64 * k + n)
    decreases n
  {
    if n > 0 {
      WordOnesAre(words, k, n - 1);
      assert (64 * k + n - 1) / 64 == k && (64 * k + n - 1) % 64 == n - 1;
    }
  }

  /** The population count of a masked word counts the ones under the mask. */
  lemma {:induction false} MaskedOnes(w: nat, v: nat, words: Words, k: nat, a: nat, b: nat, n: nat)
    requires k < |words| && w == words[k] && a <= b <= 64 && n <= 64
    requires forall i :: 0 <= i < 64 ==> (Bit(v, i) <==> Bit(w, i) && a <= i < b)
    ensures WordOnes(v, n) == Ones(words, 64 * k + a, 64 * k + Min(n, b))
    decreases n
  {
    if n > 0 {
      MaskedOnes(w, v, words, k, a, b, n - 1);
      assert Bit(v, n - 1) <==> Bit(w, n - 1) && a <= n - 1 < b;
      assert (64 * k + n - 1) / 64 == k && (64 * k + n - 1) % 64 == n - 1;
    }
  }

  // ----- one word

  lemma SetOne(words: Words, b: nat)
    requires b / 64 < |words| && IsWords(words)
    ensures var words' := words[b / 64 := Or(words[b / 64], Shl(1, b % 64))];
      IsWords(words') && forall i: nat :: At(words', i) <==> i == b || At(words, i)
  {
    hide Bit, And, Or, Not, Shl, Shr, Pow2, TrailingZeros, HighBit;
    var k := b / 64;
    var words' := words[k := Or(words[k], Shl(1, b % 64))];
    BitOne(b % 64, 0);
    Pow64();
    OrBound(words[k], Shl(1, b % 64), 64);
    forall i: nat
      ensures At(words', i) <==> i == b || At(words, i)
    {
      BitOr(words[k], Shl(1, b % 64), i % 64);
      BitOne(b % 64, i % 64);
    }
  }

  lemma ClearOne(words: Words, b: nat)
    requires b / 64 < |words| && IsWords(words)
    ensures var words' := words[b / 64 := And(words[b / 64], Not(Shl(1, b % 64), 64))];
      IsWords(words') && forall i: nat :: At(words', i) <==> i != b && At(words, i)
  {
    hide Bit, And, Or, Not, Shl, Shr, Pow2, TrailingZeros, HighBit;
    var k := b / 64;
    var m := Not(Shl(1, b % 64), 64);
    var words' := words[k := And(words[k], m)];
    AndBound(words[k], m);
    forall i: nat
      ensures At(words', i) <==> i != b && At(words, i)
    {
      BitAnd(words[k], m, i % 64);
      BitNot(Shl(1, b % 64), 64, i % 64);
      BitOne(b % 64, i % 64);
    }
  }

  /** Masking the last word cuts the field at its length. */
  lemma CutAt(words: Words, len: nat)
    requires |words| == (len + 63) / 64 && IsWords(words) && len % 64 != 0
    ensures Shl(1, len % 64) > 0
    ensures var last := |words| - 1;
      var words' := words[last := And(words[last], Shl(1, len % 64) - 1)];
      Canonical(words', len) && forall i :: 0 <= i < len ==> (At(words', i) <==> At(words, i))
  {
    hide Bit, And, Or, Not, Shl, Shr, Pow2, TrailingZeros, HighBit;
    var last := |words| - 1;
    BitLowMask(len % 64, 0);
    var m := Shl(1, len % 64) - 1;
    var words' := words[last := And(words[last], m)];
    AndBound(words[last], m);
    forall i: nat
      ensures At(words', i) <==> i < len && At(words, i)
    {
      if i / 64 == last {
        BitAnd(words[last], m, i % 64);
        BitLowMask(len % 64, i % 64);
      }
    }
  }

  // ----- counting words

  function TotalOnes(words: Words): nat {
    if words == [] then 0 else TotalOnes(words[..|words| - 1]) + CountOnes(words[|words| - 1])
  }

  lemma {:induction false} TotalIsOnes(words: Words)
    requires IsWords(words)
    ensures TotalOnes(words) == Ones(words, 0, 64 * |words|)
    decreases |words|
  {
    if words != [] {
      var front, k := words[..|words| - 1], |words| - 1;
      TotalIsOnes(front);
      OnesSame(front, words, 0, 64 * k);
      Pow64();
      CountIsWordOnes(words[k], 64);
      WordOnesAre(words, k, 64);
      OnesSplit(words, 0, 64 * k, 64 * k + 64);
    }
  }

  lemma {:induction false} NoOnes(words: Words, lo: nat, hi: nat)
    requires forall i :: lo <= i < hi ==> !At(words, i)
    ensures Ones(words, lo, hi) == 0
    decreases hi
  {
    if lo < hi {
      NoOnes(words, lo, hi - 1);
    }
  }

  lemma {:induction false} AllOnes(words: Words, lo: nat, hi: nat)
    requires lo <= hi && forall i :: lo <= i < hi ==> At(words, i)
    ensures Ones(words, lo, hi) == hi - lo
    decreases hi
  {
    if lo < hi {
      AllOnes(words, lo, hi - 1);
    }
  }

  lemma CanonicalTotal(words: Words, len: nat)
    requires Canonical(words, len)
    ensures TotalOnes(words) == Ones(words, 0, len)
  {
    TotalIsOnes(words);
    OnesSplit(words, 0, len, 64 * |words|);
    NoOnes(words, len, 64 * |words|);
  }

  // ----- scanning one word

  /** A word that is zero from bit `b` on. */
  lemma ScanUp(words: Words, from: nat)
    requires from / 64 < |words| && IsWords(words)
    ensures var v := Shr(words[from / 64], from % 64);
      && (v == 0 ==> forall i :: from <= i < 64 * (from / 64) + 64 ==> !At(words, i))
      && (v != 0 ==> var t := from + TrailingZeros(v);
            t < 64 * (from / 64) + 64 && At(words, t) && forall i :: from <= i < t ==> !At(words, i))
  {
    hide Bit, And, Or, Not, Shl, Shr, Pow2, TrailingZeros, HighBit;
    var k, b := from / 64, from % 64;
    var v := Shr(words[k], b);
    forall i: nat
      ensures Bit(v, i) <==> Bit(words[k], i + b)
    {
      BitShr(words[k], b, i);
    }
    if v == 0 {
      forall i | from <= i < 64 * k + 64
        ensures !At(words, i)
      {
        BitZero(i - from);
        assert i / 64 == k && i % 64 == (i - from) + b;
      }
    } else {
      SomeBit(v);
      var t := TrailingZeros(v);
      Pow64();
      if t + b >= 64 {
        BitHigh(words[k], 64, t + b);
        assert false;
      }
      forall i | from <= i <= from + t
        ensures At(words, i) <==> i == from + t
      {
        assert Bit(v, i - from) <==> Bit(words[k], i - from + b);
        assert i / 64 == k && i % 64 == (i - from) + b;
      }
    }
  }

  /** The clear bits of a word from bit `b` on. */
  lemma ScanClear(words: Words, from: nat)
    requires from / 64 < |words| && IsWords(words)
    ensures Shl(1, from % 64) > 0
    ensures var inv := And(Not(words[from / 64], 64), Not(Shl(1, from % 64) - 1, 64));
      var base := 64 * (from / 64);
      && (inv == 0 ==> forall i :: from <= i < base + 64 ==> At(words, i))
      && (inv != 0 ==> var t := base + TrailingZeros(inv);
            from <= t < base + 64 && !At(words, t) && forall i :: from <= i < t ==> At(words, i))
  {
    hide Bit, And, Or, Not, Shl, Shr, Pow2, TrailingZeros, HighBit;
    var k, b := from / 64, from % 64;
    BitLowMask(b, 0);
    var high := Not(Shl(1, b) - 1, 64);
    var inv := And(Not(words[k], 64), high);
    forall i: nat
      ensures Bit(inv, i) <==> b <= i < 64 && !Bit(words[k], i)
    {
      BitAnd(Not(words[k], 64), high, i);
      BitNot(words[k], 64, i);
      BitNot(Shl(1, b) - 1, 64, i);
      BitLowMask(b, i);
    }
    if inv == 0 {
      forall i | from <= i < 64 * k + 64
        ensures At(words, i)
      {
        BitZero(i % 64);
        assert i / 64 == k;
      }
    } else {
      SomeBit(inv);
      var t := TrailingZeros(inv);
      forall i | from <= i <= 64 * k + t
        ensures At(words, i) <==> i != 64 * k + t
      {
        assert i / 64 == k && i % 64 == i - 64 * k;
      }
    }
  }

  lemma ScanDown(words: Words, k: nat)
    requires k < |words| && IsWords(words) && words[k] > 0
    ensures HighBit(words[k]) < 64 && At(words, 64 * k + HighBit(words[k]))
    ensures forall i :: 64 * k + HighBit(words[k]) < i < 64 * k + 64 ==> !At(words, i)
  {
    hide Bit, And, Or, Not, Shl, Shr, Pow2, TrailingZeros, HighBit;
    var h := HighBit(words[k]);
    TopmostBit(words[k]);
    Pow64();
    HighBitBound(words[k], 64);
    assert (64 * k + h) / 64 == k && (64 * k + h) % 64 == h;
    forall i | 64 * k + h < i < 64 * k + 64
      ensures !At(words, i)
    {
      BitHigh(words[k], h + 1, i % 64);
    }
  }

  lemma ZeroWord(words: Words, k: nat)
    requires k < |words| && words[k] == 0
    ensures forall i :: 64 * k <= i < 64 * k + 64 ==> !At(words, i)
  {
    forall i | 64 * k <= i < 64 * k + 64
      ensures !At(words, i)
    {
      BitZero(i % 64);
    }
  }

  // ----- the wire form

  predicate WireBit(bytes: Bytes, i: nat) {
    i / 8 < |bytes| && Bit(bytes[i / 8], 7 - i % 8)
  }

  /** The bytes carry exactly these bits, with zero padding after the length. */
  ghost predicate Carries(bytes: Bytes, words: Words, len: nat) {
    |bytes| == (len + 7) / 8 && forall i: nat :: WireBit(bytes, i) <==> At(words, i)
  }

  /** A message that fits the length: the right size and zero padding. */
  ghost predicate Acceptable(bytes: Bytes, len: nat) {
    |bytes| == (len + 7) / 8 && forall i: nat :: i >= len ==> !WireBit(bytes, i)
  }

  /** The network byte number `i`, as cut from its word. */
  function NetByte(words: Words, i: nat): nat
    requires 8 * i / 64 < |words|
  {
    ReverseBits(Low(Shr(words[8 * i / 64], 8 * i % 64), 8), 8)
  }

  lemma NetByteBits(words: Words, i: nat, j: nat)
    requires 8 * i / 64 < |words| && j < 8
    ensures NetByte(words, i) < 256
    ensures Bit(NetByte(words, i), 7 - j) <==> At(words, 8 * i + j)
  {
    var k, s := 8 * i / 64, 8 * i % 64;
    var byte := Low(Shr(words[k], s), 8);
    assert Pow2(8) == 256;
    hide Bit, Shr, Low, ReverseBits, Pow2;
    ReverseBound(byte, 8);
    BitReverse(byte, 8, 7 - j);
    BitLow(Shr(words[k], s), 8, j);
    BitShr(words[k], s, j);
    ByteInWord(i, 8 * i + j);
  }

  lemma NetByteIs(words: Words, i: nat)
    requires 8 * i / 64 < |words|
    ensures NetByte(words, i) < 256
    ensures forall x: nat :: x / 8 == i ==> (Bit(NetByte(words, i), 7 - x % 8) <==> At(words, x))
  {
    hide Bit, NetByte, At;
    NetByteBits(words, i, 0);
    forall x: nat | x / 8 == i
      ensures Bit(NetByte(words, i), 7 - x % 8) <==> At(words, x)
    {
      NetByteBits(words, i, x % 8);
    }
  }

  /** The bytes written so far carry the bits they cover. */
  ghost predicate Matches(out: Bytes, words: Words) {
    forall x: nat :: x < 8 * |out| ==> (WireBit(out, x) <==> At(words, x))
  }

  lemma WireSnoc(out: Bytes, b: byte, words: Words)
    requires Matches(out, words)
    requires forall x: nat :: x / 8 == |out| ==> (Bit(b, 7 - x % 8) <==> At(words, x))
    ensures Matches(out + [b], words)
  {
    hide Bit, At;
    forall x: nat | x < 8 * |out| + 8
      ensures WireBit(out + [b], x) <==> At(words, x)
    {
      if x < 8 * |out| {
        assert WireBit(out + [b], x) <==> WireBit(out, x);
      }
    }
  }

  lemma NothingMatches(words: Words)
    ensures Matches([], words)
  {
  }

  lemma AppendNetByte(out: Bytes, words: Words)
    requires Matches(out, words) && 8 * |out| / 64 < |words|
    ensures NetByte(words, |out|) < 256 && Matches(out + [NetByte(words, |out|)], words)
  {
    NetByteIs(words, |out|);
    WireSnoc(out, NetByte(words, |out|), words);
  }

  lemma AllMatched(out: Bytes, words: Words, len: nat)
    requires Matches(out, words) && |out| == (len + 7) / 8 && Canonical(words, len)
    ensures Carries(out, words, len)
  {
    hide Bit, At;
  }

  /** Where the bits of network byte `i` sit in its word. */
  lemma ByteInWord(i: nat, x: nat)
    ensures var s := 8 * i % 64;
      && s <= 56 && 8 * i == 64 * (8 * i / 64) + s
      && (x / 8 == i ==> x / 64 == 8 * i / 64)
      && (x / 64 == 8 * i / 64 ==> (x / 8 == i <==> s <= x % 64 < s + 8))
      && (x / 8 == i ==> x % 8 == x % 64 - s)
  {
  }

  /** One bit of a word that a reversed network byte was or-ed into, s bits up. */
  lemma LoadedBit(word: nat, byte: nat, s: nat, j: nat)
    requires j < 64
    ensures Bit(Or(word, Shl(ReverseBits(byte, 8), s)), j) <==> Bit(word, j) || (s <= j < s + 8 && Bit(byte, 7 - (j - s)))
  {
    hide Bit, Shl, Or, ReverseBits, Pow2;
    var rb := ReverseBits(byte, 8);
    ReverseBound(byte, 8);
    BitOr(word, Shl(rb, s), j);
    BitShl(rb, s, j);
    if j >= s + 8 {
      BitHigh(rb, 8, j - s);
    } else if j >= s {
      BitReverse(byte, 8, j - s);
    }
  }

  lemma ReversedIsByte(byte: nat)
    ensures ReverseBits(byte, 8) < 256
  {
    ReverseBound(byte, 8);
    assert Pow2(8) == 256;
  }

  lemma LoadedBound(word: nat, byte: nat, s: nat)
    requires word < W64
    ensures Or(word, Shl(ReverseBits(byte, 8), s)) < W64
  {
    hide Shl, Or, ReverseBits, Pow2;
    ReversedIsByte(byte);
    ShlBound(ReverseBits(byte, 8), s);
    Pow64();
    OrBound(word, Shl(ReverseBits(byte, 8), s), 64);
  }

  /** Or-ing a reversed network byte into its word. */
  lemma LoadByte(words: Words, i: nat, byte: nat)
    requires 8 * i / 64 < |words| && IsWords(words) && byte < 256
    ensures var k := 8 * i / 64;
      var words' := words[k := Or(words[k], Shl(ReverseBits(byte, 8), 8 * i % 64))];
      IsWords(words') && forall x: nat :: At(words', x) <==> At(words, x) || (x / 8 == i && Bit(byte, 7 - x % 8))
  {
    hide Bit, Shl, Or, ReverseBits;
    var k, s := 8 * i / 64, 8 * i % 64;
    LoadedBound(words[k], byte, s);
    var words' := words[k := Or(words[k], Shl(ReverseBits(byte, 8), s))];
    forall x: nat
      ensures At(words', x) <==> At(words, x) || (x / 8 == i && Bit(byte, 7 - x % 8))
    {
      ByteInWord(i, x);
      if x / 64 == k {
        LoadedBit(words[k], byte, s, x % 64);
      }
    }
  }

  /** The first i network bytes are loaded, and nothing else. */
  ghost predicate Loaded(words: Words, bytes: Bytes, i: nat) {
    IsWords(words) && forall x: nat :: At(words, x) <==> x < 8 * i && WireBit(bytes, x)
  }

  lemma ByteHasWord(i: nat, len: nat)
    requires i < (len + 7) / 8
    ensures 8 * i / 64 < (len + 63) / 64 && 8 * i % 64 <= 56
  {
  }

  lemma NothingLoaded(words: Words, bytes: Bytes, len: nat)
    requires forall k :: 0 <= k < |words| ==> words[k] == 0
    ensures Loaded(words, bytes, 0)
  {
    hide At, WireBit;
    BlankWords(words, len);
  }

  lemma LoadNext(words: Words, bytes: Bytes, i: nat)
    requires i < |bytes| && 8 * i / 64 < |words| && Loaded(words, bytes, i)
    ensures var k := 8 * i / 64;
      Loaded(words[k := Or(words[k], Shl(ReverseBits(bytes[i], 8), 8 * i % 64))], bytes, i + 1)
  {
    hide Bit, Or, Shl, ReverseBits, At;
    LoadByte(words, i, bytes[i]);
  }

  /** Loading all bytes and cutting the last word gives the field the message carries. */
  lemma LoadedIsCarried(words: Words, words': Words, bytes: Bytes, len: nat)
    requires Acceptable(bytes, len) && Loaded(words, bytes, |bytes|)
    requires forall i: nat :: i < len ==> (At(words', i) <==> At(words, i))
    requires Canonical(words', len)
    ensures Carries(bytes, words', len)
  {
    hide Bit, At;
    forall i: nat ensures WireBit(bytes, i) <==> At(words', i) {
      assert i < len ==> i < 8 * |bytes|;
    }
  }

  lemma LoadedIsWords(words: Words, bytes: Bytes)
    requires Loaded(words, bytes, |bytes|)
    ensures IsWords(words)
  {
  }

  lemma LoadedIsCanonical(words: Words, bytes: Bytes, len: nat)
    requires Acceptable(bytes, len) && Loaded(words, bytes, |bytes|) && |words| == (len + 63) / 64
    ensures Canonical(words, len)
  {
    hide WireBit, At;
  }

  /** The padding test of the last byte looks at exactly the positions past the length. */
  lemma PaddingTest(bytes: Bytes, len: nat)
    requires |bytes| == (len + 7) / 8 && len % 8 != 0
    ensures Shl(1, 8 - len % 8) > 0
    ensures And(bytes[|bytes| - 1], Shl(1, 8 - len % 8) - 1) == 0 <==> Acceptable(bytes, len)
  {
    hide Bit, And, Shl, Acceptable, LowClear;
    LowMaskTests(bytes[|bytes| - 1], 8 - len % 8);
    PaddingBits(bytes, len);
  }

  lemma NoPadding(bytes: Bytes, len: nat)
    requires |bytes| == (len + 7) / 8 && len % 8 == 0
    ensures Acceptable(bytes, len)
  {
    hide Bit;
  }

  lemma PaddingBits(bytes: Bytes, len: nat)
    requires |bytes| == (len + 7) / 8 && len % 8 != 0
    ensures LowClear(bytes[|bytes| - 1], 8 - len % 8) <==> Acceptable(bytes, len)
  {
    hide Bit;
    var pad, last := 8 - len % 8, bytes[|bytes| - 1];
    if Acceptable(bytes, len) {
      forall i | 0 <= i < pad
        ensures !Bit(last, i)
      {
        var x := 8 * (|bytes| - 1) + 7 - i;
        assert x / 8 == |bytes| - 1 && x % 8 == 7 - i && x >= len;
        assert !WireBit(bytes, x);
      }
    } else {
      var x: nat :| x >= len && WireBit(bytes, x);
      assert x / 8 == |bytes| - 1 && 7 - x % 8 < pad;
      assert Bit(last, 7 - x % 8);
    }
  }

  /** A message and a field determine each other. */
  lemma WireIsBijective(b1: Bytes, b2: Bytes, w1: Words, w2: Words, len: nat)
    requires Carries(b1, w1, len) && Carries(b2, w2, len) && Canonical(w1, len) && Canonical(w2, len)
    ensures b1 == b2 <==> w1 == w2
  {
    if w1 == w2 {
      forall k | 0 <= k < |b1|
        ensures b1[k] == b2[k]
      {
        SameByte(b1, b2, k);
      }
    }
    if b1 == b2 {
      forall k | 0 <= k < |w1|
        ensures w1[k] == w2[k]
      {
        SameWord(w1, w2, k);
      }
    }
  }

  lemma SameByte(b1: Bytes, b2: Bytes, k: nat)
    requires k < |b1| == |b2| && forall i: nat :: WireBit(b1, i) <==> WireBit(b2, i)
    ensures b1[k] == b2[k]
  {
    assert Pow2(8) == 256;
    hide Bit, Pow2;
    forall j | 0 <= j < 8
      ensures Bit(b1[k], j) <==> Bit(b2[k], j)
    {
      var i := 8 * k + 7 - j;
      assert i / 8 == k && i % 8 == 7 - j;
      assert WireBit(b1, i) <==> WireBit(b2, i);
    }
    SameBits(b1[k], b2[k], 8);
  }

  lemma SameWord(w1: Words, w2: Words, k: nat)
    requires k < |w1| == |w2| && IsWords(w1) && IsWords(w2) && forall i: nat :: At(w1, i) <==> At(w2, i)
    ensures w1[k] == w2[k]
  {
    hide Bit, Pow2;
    Pow64();
    forall j | 0 <= j < 64
      ensures Bit(w1[k], j) <==> Bit(w2[k], j)
    {
      var i := 64 * k + j;
      assert i / 64 == k && i % 64 == j;
      assert At(w1, i) <==> At(w2, i);
    }
    SameBits(w1[k], w2[k], 64);
  }

  // ----- the object

  class Bitfield {
    var words: Words
    var len: nat
    var count: nat

    ghost predicate Valid()
      reads this
    {
      Canonical(words, len) && count == Ones(words, 0, len)
    }

    ghost function Contents(): set<nat>
      reads this
    {
      Members(words, len)
    }

    constructor (len: nat)
      ensures Valid() && this.len == len && Contents() == {}
    {
      words := seq((len + 63) / 64, _ => 0);
      this.len := len;
      count := 0;
      new;
      BlankWords(words, len);
    }

    method Get(i: nat) returns (b: bool)
      requires Valid()
      ensures b <==> i in Contents()
    {
      if i >= len {
        return false;
      }
      MaskTests(words[i / 64], i % 64);
      b := And(words[i / 64], Shl(1, i % 64)) != 0;
    }

    method Set(i: nat)
      requires Valid()
      modifies this`words, this`count
      ensures Valid() && Contents() == old(Contents()) + if i < len then {i} else {}
    {
      hide Bit, And, Or, Shl, Ones;
      if i >= len {
        return;
      }
      var k, mask := i / 64, Shl(1, i % 64);
      MaskTests(words[k], i % 64);
      if And(words[k], mask) == 0 {
        SetOne(words, i);
        words := words[k := Or(words[k], mask)];
        OnesFlip(old(words), words, len, i);
        count := count + 1;
      }
    }

    method Clear(i: nat)
      requires Valid()
      modifies this`words, this`count
      ensures Valid() && Contents() == old(Contents()) - {i}
    {
      hide Bit, And, Not, Shl, Ones;
      if i >= len {
        return;
      }
      var k, mask := i / 64, Shl(1, i % 64);
      MaskTests(words[k], i % 64);
      if And(words[k], mask) != 0 {
        ClearOne(words, i);
        words := words[k := And(words[k], Not(mask, 64))];
        OnesFlip(words, old(words), len, i);
        count := count - 1;
      }
    }

    method SetAll()
      requires Valid()
      modifies this`words, this`count
      ensures Valid() && forall i :: i in Contents() <==> 0 <= i < len
    {
      hide Bit, And, Shl, Ones;
      words := seq(|words|, _ => W64 - 1);
      FullWords(words);
      if len % 64 != 0 {
        CutAt(words, len);
        var last := |words| - 1;
        words := words[last := And(words[last], Shl(1, len % 64) - 1)];
      }
      count := len;
      AllOnes(words, 0, len);
    }

    method ClearAll()
      requires Valid()
      modifies this`words, this`count
      ensures Valid() && Contents() == {}
    {
      words := seq(|words|, _ => 0);
      count := 0;
      BlankWords(words, len);
    }

    method LastSet() returns (r: Option<nat>)
      requires Valid()
      ensures r.None? ==> Contents() == {}
      ensures r.Some? ==> r.value in Contents() && forall i :: i in Contents() ==> i <= r.value
    {
      hide Bit, HighBit;
      var k := |words|;
      while k > 0
        invariant 0 <= k <= |words|
        invariant forall i: nat :: i >= 64 * k ==> !At(words, i)
      {
        k := k - 1;
        if words[k] != 0 {
          ScanDown(words, k);
          assert forall i: nat :: i > 64 * k + HighBit(words[k]) ==> !At(words, i);
          return Some(64 * k + HighBit(words[k]));
        }
        ZeroWord(words, k);
      }
      return None;
    }

    method NextSetFrom(from: nat) returns (r: Option<nat>)
      requires Valid()
      ensures r.None? ==> forall i :: i in Contents() ==> i < from
      ensures r.Some? ==> r.value in Contents() && from <= r.value && forall i :: i in Contents() && from <= i ==> r.value <= i
    {
      hide Bit, Shr, TrailingZeros;
      if from >= len {
        return None;
      }
      var k := from / 64;
      ScanUp(words, from);
      var v := Shr(words[k], from % 64);
      if v != 0 {
        return Some(from + TrailingZeros(v));
      }
      k := k + 1;
      while k < |words|
        invariant from / 64 < k <= |words|
        invariant forall i :: from <= i < 64 * k ==> !At(words, i)
      {
        ScanUp(words, 64 * k);
        ShrNone(words[k]);
        if words[k] != 0 {
          return Some(64 * k + TrailingZeros(words[k]));
        }
        k := k + 1;
      }
      return None;
    }

    method NextClearFrom(from: nat) returns (r: Option<nat>)
      requires Valid()
      ensures r.None? ==> forall i :: from <= i < len ==> i in Contents()
      ensures r.Some? ==> from <= r.value < len && r.value !in Contents() && forall i :: from <= i < r.value ==> i in Contents()
    {
      hide Bit, And, Not, Shl, TrailingZeros, At;
      if from >= len {
        return None;
      }
      var k := from / 64;
      ScanClear(words, from);
      var inv := And(Not(words[k], 64), Not(Shl(1, from % 64) - 1, 64));
      if inv != 0 {
        var i := 64 * k + TrailingZeros(inv);
        return if i < len then Some(i) else None;
      }
      k := k + 1;
      while k < |words|
        invariant from / 64 < k <= |words|
        invariant forall i :: from <= i < 64 * k ==> At(words, i)
      {
        var inv := Not(words[k], 64);
        ScanClear(words, 64 * k);
        AndAll(words[k]);
        if inv != 0 {
          var i := 64 * k + TrailingZeros(inv);
          return if i < len then Some(i) else None;
        }
        k := k + 1;
      }
      return None;
    }

    /** Number of ones in a range, by masked population counts. */
    method CountRange(from: nat, to: nat) returns (n: nat)
      requires Valid()
      ensures n == |Segment(Contents(), from, to)|
    {
      n := 0;
      if from >= to || from >= len {
        assert Segment(Contents(), from, to) == {};
        return;
      }
      n := CountWithin(from, Min(to, len));
      RangeCardinality(words, len, from, Min(to, len));
      assert Segment(Contents(), from, to) == Segment(Contents(), from, Min(to, len));
    }

    method CountWithin(from: nat, to: nat) returns (n: nat)
      requires Valid() && from < to <= len
      ensures n == Ones(words, from, to)
    {
      hide Bit, And, Shl, Not, CountOnes, Ones, At;
      var w0, w1 := from / 64, (to - 1) / 64;
      if w0 == w1 {
        var bits := to - from;
        var base := if bits == 64 then W64 - 1 else Shl(1, bits) - 1;
        InnerMask(words, w0, from, to);
        return CountOnes(And(words[w0], Shl(base, from % 64)));
      }
      BitLowMask(from % 64, 0);
      n := CountOnes(And(words[w0], Not(Shl(1, from % 64) - 1, 64)));
      FirstMask(words, from);
      var k := w0 + 1;
      while k < w1
        invariant w0 < k <= w1
        invariant n == Ones(words, from, 64 * k)
      {
        WholeWord(words, k);
        OnesSplit(words, from, 64 * k, 64 * k + 64);
        n := n + CountOnes(words[k]);
        k := k + 1;
      }
      var lastBits := (to - 1) % 64 + 1;
      var mask := if lastBits == 64 then W64 - 1 else Shl(1, lastBits) - 1;
      LastMask(words, w1, lastBits);
      OnesSplit(words, from, 64 * w1, to);
      n := n + CountOnes(And(words[w1], mask));
    }

    /** The field in network order, most significant bit first. */
    method ToBytes() returns (out: Bytes)
      requires Valid()
      ensures Carries(out, words, len)
    {
      hide Bit, Shr, Low, ReverseBits, WireBit, At, Matches, Carries, Ones;
      var n := (len + 7) / 8;
      out := [];
      NothingMatches(words);
      var i := 0;
      while i < n
        invariant 0 <= i <= n && |out| == i
        invariant Matches(out, words)
      {
        ByteHasWord(i, len);
        var k, s := 8 * i / 64, 8 * i % 64;
        var byte := Low(Shr(words[k], s), 8);
        if s > 56 && k + 1 < |words| {
          assert false;
        }
        AppendNetByte(out, words);
        out := out + [ReverseBits(byte, 8)];
        i := i + 1;
      }
      AllMatched(out, words, len);
    }

    /** Loads network bytes; a wrong size or a set padding bit is refused and changes nothing. */
    method FromBytes(bytes: Bytes, count: nat) returns (ok: bool)
      modifies this
      ensures ok <==> Acceptable(bytes, count)
      ensures ok ==> Valid() && len == count && Carries(bytes, words, len)
      ensures !ok ==> words == old(words) && len == old(len) && this.count == old(this.count)
    {
      hide Bit, And, Shl, Ones, WireBit, Loaded, Canonical, Carries, At;
      if |bytes| != (count + 7) / 8 {
        return false;
      }
      if count % 8 != 0 {
        var pad := 8 - count % 8;
        PaddingTest(bytes, count);
        if And(bytes[|bytes| - 1], Shl(1, pad) - 1) != 0 {
          return false;
        }
      }
      if count % 8 == 0 {
        NoPadding(bytes, count);
      }
      hide Acceptable;
      len := count;
      LoadWords(bytes);
      ghost var loaded := words;
      LoadedIsCanonical(words, bytes, count);
      if count % 64 != 0 {
        assert IsWords(words) by { LoadedIsWords(words, bytes); }
        CutAt(words, count);
        var last := |words| - 1;
        words := words[last := And(words[last], Shl(1, count % 64) - 1)];
      }
      LoadedIsCarried(loaded, words, bytes, count);
      Recount();
      return true;
    }

    method LoadWords(bytes: Bytes)
      requires |bytes| == (len + 7) / 8
      modifies this`words
      ensures |words| == (len + 63) / 64 && Loaded(words, bytes, |bytes|)
    {
      hide Bit, Or, Shl, ReverseBits, Loaded;
      words := seq((len + 63) / 64, _ => 0);
      NothingLoaded(words, bytes, len);
      var i := 0;
      while i < |bytes|
        invariant 0 <= i <= |bytes| && |words| == (len + 63) / 64
        invariant Loaded(words, bytes, i)
      {
        var k, s := 8 * i / 64, 8 * i % 64;
        var rb := ReverseBits(bytes[i], 8);
        ByteHasWord(i, len);
        LoadNext(words, bytes, i);
        words := words[k := Or(words[k], Shl(rb, s))];
        if s > 56 && k + 1 < |words| {
          assert false;
        }
        i := i + 1;
      }
    }

    method Recount()
      requires Canonical(words, len)
      modifies this`count
      ensures Valid()
    {
      hide CountOnes, At;
      CanonicalTotal(words, len);
      count := 0;
      for k := 0 to |words|
        invariant count == TotalOnes(words[..k])
      {
        assert words[..k + 1][..k] == words[..k];
        count := count + CountOnes(words[k]);
      }
      assert words[..|words|] == words;
    }

    method OrInto(other: Bitfield)
      requires Valid() && other.Valid() && other != this && other.len == len
      modifies this`words, this`count
      ensures Valid() && Contents() == old(Contents()) + other.Contents()
    {
      hide Bit, Or, Ones;
      ghost var before := words;
      for k := 0 to |words|
        invariant |words| == |before| && IsWords(words)
        invariant forall i: nat :: At(words, i) <==> At(before, i) || (i < 64 * k && At(other.words, i))
      {
        OrWord(words, other.words, k);
        words := words[k := Or(words[k], other.words[k])];
      }
      Recount();
    }

    method AndNot(other: Bitfield)
      requires Valid() && other.Valid() && other != this && other.len == len
      modifies this`words, this`count
      ensures Valid() && Contents() == old(Contents()) - other.Contents()
    {
      hide Bit, And, Not, Ones;
      ghost var before := words;
      for k := 0 to |words|
        invariant |words| == |before| && IsWords(words)
        invariant forall i: nat :: At(words, i) <==> At(before, i) && !(i < 64 * k && At(other.words, i))
      {
        AndNotWord(words, other.words, k);
        words := words[k := And(words[k], Not(other.words[k], 64))];
      }
      Recount();
    }
  }

  /** The maintained count is the size of the set. */
  lemma CountIsSize(f: Bitfield)
    requires f.Valid()
    ensures f.count == |f.Contents()|
  {
    OnesIsCardinality(f.words, f.len);
  }

  /** Sending a field and loading it again restores it. */
  method Reload(f: Bitfield)
    requires f.Valid()
    modifies f
    ensures f.Valid() && f.words == old(f.words) && f.len == old(f.len) && f.count == old(f.count)
  {
    hide Canonical, Carries, Ones;
    ghost var words := f.words;
    var bytes := f.ToBytes();
    CarriedIsAcceptable(bytes, words, f.len);
    var _ := f.FromBytes(bytes, f.len);
    WireIsBijective(bytes, bytes, words, f.words, f.len);
  }

  /** Loading an acceptable message and sending the field again repeats the message. */
  method Echo(f: Bitfield, bytes: Bytes, count: nat) returns (out: Option<Bytes>)
    modifies f
    ensures out == if Acceptable(bytes, count) then Some(bytes) else None
  {
    hide Canonical, Carries, Ones, Acceptable;
    var ok := f.FromBytes(bytes, count);
    if !ok {
      return None;
    }
    var again := f.ToBytes();
    WireIsBijective(again, bytes, f.words, f.words, f.len);
    out := Some(again);
  }

  lemma CarriedIsAcceptable(bytes: Bytes, words: Words, len: nat)
    requires Carries(bytes, words, len) && Canonical(words, len)
    ensures Acceptable(bytes, len)
  {
    hide At, WireBit;
  }

  // ----- what the methods rest on

  lemma BlankWords(words: Words, len: nat)
    requires forall k :: 0 <= k < |words| ==> words[k] == 0
    ensures IsWords(words) && (forall i: nat :: !At(words, i)) && Ones(words, 0, len) == 0
  {
    forall i: nat
      ensures !At(words, i)
    {
      BitZero(i % 64);
    }
    NoOnes(words, 0, len);
  }

  lemma FullWords(words: Words)
    requires forall k :: 0 <= k < |words| ==> words[k] == W64 - 1
    ensures IsWords(words) && forall i: nat :: At(words, i) <==> i < 64 * |words|
  {
    hide Bit;
    forall i: nat
      ensures At(words, i) <==> i < 64 * |words|
    {
      AllBits(i % 64);
    }
  }

  lemma AllBits(i: nat)
    requires i < 64
    ensures Bit(W64 - 1, i)
  {
    hide Bit, Pow2;
    Pow64();
    BitMask(64, i);
  }

  lemma ShrNone(w: nat)
    ensures Shr(w, 0) == w
  {
  }

  lemma ShlNone()
    ensures Shl(1, 0) == 1
  {
  }

  lemma AndAll(w: nat)
    ensures And(Not(w, 64), Not(Shl(1, 0) - 1, 64)) == Not(w, 64)
  {
    hide And, Not, Bit, Pow2, Shl;
    ShlNone();
    var a, b := And(Not(w, 64), Not(0, 64)), Not(w, 64);
    NotBound(w, 64);
    AndBound(Not(w, 64), Not(0, 64));
    forall i | 0 <= i < 64
      ensures Bit(a, i) <==> Bit(b, i)
    {
      BitAnd(Not(w, 64), Not(0, 64), i);
      BitNot(0, 64, i);
      BitZero(i);
    }
    SameBits(a, b, 64);
  }

  lemma OrWord(words: Words, other: Words, k: nat)
    requires k < |words| == |other| && IsWords(words) && IsWords(other)
    ensures var words' := words[k := Or(words[k], other[k])];
      IsWords(words') && forall i: nat :: At(words', i) <==> At(words, i) || (i / 64 == k && At(other, i))
  {
    hide Bit, Or, Pow2;
    Pow64();
    OrBound(words[k], other[k], 64);
    forall j: nat { BitOr(words[k], other[k], j); }
  }

  lemma AndNotWord(words: Words, other: Words, k: nat)
    requires k < |words| == |other| && IsWords(words) && IsWords(other)
    ensures var words' := words[k := And(words[k], Not(other[k], 64))];
      IsWords(words') && forall i: nat :: At(words', i) <==> At(words, i) && !(i / 64 == k && At(other, i))
  {
    hide Bit, And, Not;
    AndBound(words[k], Not(other[k], 64));
    forall j: nat { BitAnd(words[k], Not(other[k], 64), j); }
    forall j: nat { BitNot(other[k], 64, j); }
  }

  lemma {:induction false} RangeCardinality(words: Words, len: nat, lo: nat, hi: nat)
    requires lo <= hi <= len
    ensures Ones(words, lo, hi) == |Segment(Members(words, len), lo, hi)|
    decreases hi
  {
    hide At;
    var all := Segment(Members(words, len), lo, hi);
    if lo == hi {
      assert all == {};
    } else {
      RangeCardinality(words, len, lo, hi - 1);
      var fewer := Segment(Members(words, len), lo, hi - 1);
      if At(words, hi - 1) {
        assert all == fewer + {hi - 1};
      } else {
        assert all == fewer;
      }
    }
  }

  lemma WholeWord(words: Words, k: nat)
    requires k < |words| && IsWords(words)
    ensures CountOnes(words[k]) == Ones(words, 64 * k, 64 * k + 64)
  {
    hide Bit, Pow2, CountOnes;
    Pow64();
    CountIsWordOnes(words[k], 64);
    WordOnesAre(words, k, 64);
  }

  lemma MaskedCount(words: Words, k: nat, v: nat, a: nat, b: nat)
    requires k < |words| && IsWords(words) && a <= b <= 64 && v < W64
    requires forall i :: 0 <= i < 64 ==> (Bit(v, i) <==> Bit(words[k], i) && a <= i < b)
    ensures CountOnes(v) == Ones(words, 64 * k + a, 64 * k + b)
  {
    hide Bit, Pow2, CountOnes;
    Pow64();
    CountIsWordOnes(v, 64);
    MaskedOnes(words[k], v, words, k, a, b, 64);
  }

  lemma FirstMask(words: Words, from: nat)
    requires from / 64 < |words| && IsWords(words) && Shl(1, from % 64) > 0
    ensures CountOnes(And(words[from / 64], Not(Shl(1, from % 64) - 1, 64))) == Ones(words, from, 64 * (from / 64) + 64)
  {
    hide Bit, And, Not, Shl, CountOnes;
    var k, b := from / 64, from % 64;
    var m := Not(Shl(1, b) - 1, 64);
    AndBound(words[k], m);
    forall i | 0 <= i < 64
      ensures Bit(And(words[k], m), i) <==> Bit(words[k], i) && b <= i < 64
    {
      BitAnd(words[k], m, i);
      BitNot(Shl(1, b) - 1, 64, i);
      BitLowMask(b, i);
    }
    MaskedCount(words, k, And(words[k], m), b, 64);
  }

  lemma LowMask(b: nat, i: nat)
    requires 0 < b <= 64 && i < 64
    ensures b < 64 ==> Shl(1, b) > 0
    ensures var mask := if b == 64 then W64 - 1 else Shl(1, b) - 1;
      Bit(mask, i) <==> i < b
  {
    hide Bit, Shl;
    if b == 64 {
      AllBits(i);
    } else {
      BitLowMask(b, i);
    }
  }

  lemma LastMask(words: Words, k: nat, b: nat)
    requires k < |words| && IsWords(words) && 0 < b <= 64
    ensures b < 64 ==> Shl(1, b) > 0
    ensures var mask := if b == 64 then W64 - 1 else Shl(1, b) - 1;
      CountOnes(And(words[k], mask)) == Ones(words, 64 * k, 64 * k + b)
  {
    hide Bit, And, Shl, CountOnes;
    LowMask(b, 0);
    var mask := if b == 64 then W64 - 1 else Shl(1, b) - 1;
    AndBound(words[k], mask);
    forall i | 0 <= i < 64
      ensures Bit(And(words[k], mask), i) <==> Bit(words[k], i) && 0 <= i < b
    {
      BitAnd(words[k], mask, i);
      LowMask(b, i);
    }
    MaskedCount(words, k, And(words[k], mask), 0, b);
  }

  lemma InnerMask(words: Words, k: nat, from: nat, to: nat)
    requires k < |words| && IsWords(words) && 64 * k <= from < to <= 64 * k + 64
    ensures to - from < 64 ==> Shl(1, to - from) > 0
    ensures var base := if to - from == 64 then W64 - 1 else Shl(1, to - from) - 1;
      CountOnes(And(words[k], Shl(base, from % 64))) == Ones(words, from, to)
  {
    hide Bit, And, Shl, CountOnes, Ones, At;
    var bits, a := to - from, from % 64;
    assert 64 * k + a == from;
    LowMask(bits, 0);
    var base := if bits == 64 then W64 - 1 else Shl(1, bits) - 1;
    var v := And(words[k], Shl(base, a));
    AndBound(words[k], Shl(base, a));
    forall i | 0 <= i < 64
      ensures Bit(v, i) <==> Bit(words[k], i) && a <= i < a + bits
    {
      BitAnd(words[k], Shl(base, a), i);
      BitShl(base, a, i);
      if i >= a {
        LowMask(bits, i - a);
      }
    }
    MaskedCount(words, k, v, a, a + bits);
  }
}
