/**
 * 160-bit node ids of the DHT (`src/dht.rs`): XOR distance as a number, common
 * prefixes bit by bit, and the bucket an id belongs to.
 */
module NodeIds {
  import opened Common

  const FOUR: seq<bv8> := [0, 0, 0, 0]
  const ZERO: Id := FOUR + FOUR + FOUR + FOUR + FOUR

  type Id = s: seq<bv8> | |s| == 20 witness FOUR + FOUR + FOUR + FOUR + FOUR

  // ---------------------------------------------------------------------
  // Distance
  // ---------------------------------------------------------------------

  function XorByte(a: bv8, b: bv8): bv8 {
    a ^ b
  }

  /** A byte as the number it stands for. */
  function Num(x: bv8): (n: nat)
    ensures n < 256
  {
    x as nat
  }

  function Xor(a: seq<bv8>, b: seq<bv8>): (d: seq<bv8>)
    requires |a| == |b|
    ensures |d| == |a|
    ensures forall i :: 0 <= i < |a| ==> d[i] == XorByte(a[i], b[i])
  {
    if a == [] then [] else [XorByte(a[0], b[0])] + Xor(a[1..], b[1..])
  }

  method Distance(a: Id, b: Id) returns (d: Id)
    ensures d == Xor(a, b)
  {
    d := ZERO;
    for i := 0 to 20
      invariant forall j :: 0 <= j < i ==> d[j] == XorByte(a[j], b[j])
    {
      d := d[i := XorByte(a[i], b[i])];
    }
    assert d == Xor(a, b);
  }

  /** Arrays of bytes compare from the left. */
  predicate Before(x: seq<bv8>, y: seq<bv8>)
    requires |x| == |y|
  {
    x != [] && (Num(x[0]) < Num(y[0]) || (x[0] == y[0] && Before(x[1..], y[1..])))
  }

  function Power(n: nat): (r: nat)
    ensures r > 0
  {
    if n == 0 then 1 else 256 * Power(n - 1)
  }

  /** A string of bytes as the number it spells, most significant byte first. */
  function Value(x: seq<bv8>): (r: nat)
    ensures r < Power(|x|)
  {
    if x == [] then 0
    else
      Digit(x[0], Value(x[1..]), Power(|x| - 1));
      Num(x[0]) * Power(|x| - 1) + Value(x[1..])
  }

  lemma Digit(d: bv8, low: nat, p: nat)
    requires low < p
    ensures Num(d) * p + low < 256 * p
  {
    assert Num(d) * p <= 255 * p;
  }

  /** The leading digit decides, and the rest where it does not. */
  lemma DigitOrder(d: nat, e: nat, low: nat, low': nat, p: nat)
    requires low < p && low' < p
    ensures d * p + low < e * p + low' <==> d < e || (d == e && low < low')
    ensures d * p + low == e * p + low' <==> d == e && low == low'
  {
    if d < e {
      assert (d + 1) * p <= e * p;
    } else if e < d {
      assert (e + 1) * p <= d * p;
    }
  }

  lemma NumIsInjective(x: bv8, y: bv8)
    requires Num(x) == Num(y)
    ensures x == y
  {
  }

  /** One byte in front of two strings whose order and values agree. */
  lemma LexStep(x: seq<bv8>, y: seq<bv8>)
    requires |x| == |y| > 0
    requires Before(x[1..], y[1..]) <==> Value(x[1..]) < Value(y[1..])
    requires x[1..] == y[1..] <==> Value(x[1..]) == Value(y[1..])
    ensures Before(x, y) <==> Value(x) < Value(y)
    ensures x[0] == y[0] && x[1..] == y[1..] <==> Value(x) == Value(y)
  {
    hide Power, Num;
    DigitOrder(Num(x[0]), Num(y[0]), Value(x[1..]), Value(y[1..]), Power(|x| - 1));
    if Num(x[0]) == Num(y[0]) {
      NumIsInjective(x[0], y[0]);
    }
  }

  /** Comparing from the left is comparing the numbers. */
  lemma {:induction false} LexIsNumeric(x: seq<bv8>, y: seq<bv8>)
    requires |x| == |y|
    ensures Before(x, y) <==> Value(x) < Value(y)
    ensures x == y <==> Value(x) == Value(y)
  {
    if x != [] {
      hide Value, Before;
      LexIsNumeric(x[1..], y[1..]);
      LexStep(x, y);
      assert x == [x[0]] + x[1..] && y == [y[0]] + y[1..];
    }
  }

  /** The XOR metric. */
  function Dist(a: Id, t: Id): nat {
    Value(Xor(a, t))
  }

  lemma XorCancels(a: bv8, b: bv8, t: bv8)
    requires XorByte(a, t) == XorByte(b, t)
    ensures a == b
  {
  }

  /** No two ids are equally far from a target. */
  lemma DistIsInjective(a: Id, b: Id, t: Id)
    requires Dist(a, t) == Dist(b, t)
    ensures a == b
  {
    hide Value, Before, Xor, XorByte, Num;
    LexIsNumeric(Xor(a, t), Xor(b, t));
    assert Dist(a, t) == Value(Xor(a, t)) && Dist(b, t) == Value(Xor(b, t));
    forall i | 0 <= i < 20 ensures a[i] == b[i] {
      assert Xor(a, t)[i] == Xor(b, t)[i];
      XorCancels(a[i], b[i], t[i]);
    }
  }

  // ---------------------------------------------------------------------
  // Prefixes
  // ---------------------------------------------------------------------

  function Mask(k: nat): bv8 {
    match k
    case 0 => 0x80
    case 1 => 0x40
    case 2 => 0x20
    case 3 => 0x10
    case 4 => 0x08
    case 5 => 0x04
    case 6 => 0x02
    case _ => 0x01
  }

  predicate ByteBit(x: bv8, k: nat) {
    x & Mask(k) != 0
  }

  /** Bit j of an id, counted from the most significant one. */
  predicate Bit(a: Id, j: nat)
    requires j < 160
  {
    ByteBit(a[j / 8], j % 8)
  }

  predicate AgreeBelow(a: Id, b: Id, p: nat)
    requires p <= 160
  {
    forall j: nat :: j < p ==> Bit(a, j) == Bit(b, j)
  }

  /** The number of leading bits two ids share. */
  function CommonPrefix(a: Id, b: Id): (p: nat)
    ensures p <= 160 && AgreeBelow(a, b, p)
    ensures p < 160 ==> Bit(a, p) != Bit(b, p)
  {
    PrefixFrom(a, b, 0)
  }

  function PrefixFrom(a: Id, b: Id, j: nat): (p: nat)
    requires j <= 160 && AgreeBelow(a, b, j)
    ensures j <= p <= 160 && AgreeBelow(a, b, p)
    ensures p < 160 ==> Bit(a, p) != Bit(b, p)
    decreases 160 - j
  {
    if j == 160 || Bit(a, j) != Bit(b, j) then j else PrefixFrom(a, b, j + 1)
  }

  lemma PrefixIs(a: Id, b: Id, p: nat)
    requires p < 160 && AgreeBelow(a, b, p) && Bit(a, p) != Bit(b, p)
    ensures CommonPrefix(a, b) == p
  {
  }

  function LeadingZeros(x: bv8): (n: nat)
    ensures n <= 8 && (n == 8 <==> x == 0)
  {
    if x >= 0x80 then 0
    else if x >= 0x40 then 1
    else if x >= 0x20 then 2
    else if x >= 0x10 then 3
    else if x >= 0x08 then 4
    else if x >= 0x04 then 5
    else if x >= 0x02 then 6
    else if x >= 0x01 then 7
    else 8
  }

  /** Two bytes agree in the bits their difference does not reach, and differ in the next one. */
  lemma FirstBit(x: bv8, y: bv8, k: nat)
    requires x != y
    ensures k < LeadingZeros(XorByte(x, y)) ==> ByteBit(x, k) == ByteBit(y, k)
    ensures k == LeadingZeros(XorByte(x, y)) ==> ByteBit(x, k) != ByteBit(y, k)
    ensures LeadingZeros(XorByte(x, y)) <= 7
  {
    XorNotZero(x, y);
    var z := XorByte(x, y);
    ZerosOfByte(z, k);
    MaskOfXor(x, y, k);
    hide LeadingZeros;
  }

  /** The leading zeros of a byte, told by its bits. */
  lemma ZerosOfByte(z: bv8, k: nat)
    requires z != 0
    ensures LeadingZeros(z) <= 7
    ensures k < LeadingZeros(z) ==> !ByteBit(z, k)
    ensures k == LeadingZeros(z) ==> ByteBit(z, k)
  {
  }

  lemma MaskOfXor(x: bv8, y: bv8, k: nat)
    ensures ByteBit(XorByte(x, y), k) <==> ByteBit(x, k) != ByteBit(y, k)
  {
    var m := Mask(k);
    assert m == 0x80 || m == 0x40 || m == 0x20 || m == 0x10 || m == 0x08 || m == 0x04 || m == 0x02 || m == 0x01;
    hide Mask;
    MaskIsOneBit(x, m);
    MaskIsOneBit(y, m);
    assert (x ^ y) & m == (x & m) ^ (y & m);
  }

  lemma MaskIsOneBit(x: bv8, m: bv8)
    requires m == 0x80 || m == 0x40 || m == 0x20 || m == 0x10 || m == 0x08 || m == 0x04 || m == 0x02 || m == 0x01
    ensures x & m == 0 || x & m == m
  {
  }

  lemma XorSame(x: bv8)
    ensures LeadingZeros(XorByte(x, x)) == 8
  {
  }

  lemma XorNotZero(x: bv8, y: bv8)
    requires x != y
    ensures XorByte(x, y) != 0
  {
  }

  /** The first byte in which two ids differ tells their common prefix. */
  lemma PrefixInByte(a: Id, b: Id, i: nat)
    requires i < 20 && a[..i] == b[..i] && a[i] != b[i]
    ensures CommonPrefix(a, b) == 8 * i + LeadingZeros(XorByte(a[i], b[i]))
    ensures LeadingZeros(XorByte(a[i], b[i])) <= 7
  {
    hide ByteBit, LeadingZeros, CommonPrefix, XorByte;
    var z := LeadingZeros(XorByte(a[i], b[i]));
    FirstBit(a[i], b[i], z);
    forall j: nat | j < 8 * i + z ensures Bit(a, j) == Bit(b, j) {
      if j < 8 * i {
        assert a[j / 8] == a[..i][j / 8] == b[..i][j / 8] == b[j / 8];
      } else {
        assert j / 8 == i;
        FirstBit(a[i], b[i], j % 8);
      }
    }
    assert (8 * i + z) / 8 == i && (8 * i + z) % 8 == z;
    PrefixIs(a, b, 8 * i + z);
  }

  /** Some byte is the first in which two different ids differ. */
  function FirstDiff(a: Id, b: Id, from: nat): (i: nat)
    requires a != b && from < 20 && a[..from] == b[..from]
    ensures from <= i < 20 && a[..i] == b[..i] && a[i] != b[i]
    decreases 20 - from
  {
    assert a[..20] == a && b[..20] == b;
    if a[from] != b[from] then from
    else
      assert a[..from + 1] == a[..from] + [a[from]] && b[..from + 1] == b[..from] + [b[from]];
      FirstDiff(a, b, from + 1)
  }

  lemma EqualIffWholePrefix(a: Id, b: Id)
    ensures a == b <==> CommonPrefix(a, b) == 160
  {
    if a != b {
      PrefixInByte(a, b, FirstDiff(a, b, 0));
    }
  }

  // ---------------------------------------------------------------------
  // Buckets
  // ---------------------------------------------------------------------

  /** The position with the order inside each byte turned round. */
  function Mirror(j: nat): (r: nat)
    ensures r / 8 == j / 8 && r % 8 == 7 - j % 8
    ensures j < 160 ==> r < 160
  {
    8 * (j / 8) + (7 - j % 8)
  }

  lemma MirrorIsInjective(p: nat, q: nat)
    ensures Mirror(p) == Mirror(q) <==> p == q
    ensures Mirror(p) != p
  {
  }

  function BucketIndex(own: Id, id: Id): (r: nat)
    ensures r < 160
  {
    EqualIffWholePrefix(own, id);
    if id == own then 159 else Mirror(CommonPrefix(own, id))
  }

  /** The loop over the bytes finds the mirrored prefix length. */
  method FindBucket(own: Id, id: Id) returns (r: nat)
    ensures r == BucketIndex(own, id)
  {
    hide CommonPrefix, LeadingZeros, ByteBit, AgreeBelow;
    for i := 0 to 20
      invariant own[..i] == id[..i]
    {
      var diff := XorByte(own[i], id[i]);
      if diff != 0 {
        PrefixInByte(own, id, i);
        return i * 8 + (7 - LeadingZeros(diff));
      }
      XorCancels(own[i], id[i], id[i]);
    }
    assert own == own[..20] && id == id[..20];
    r := 159;
  }

  /**
   * Two ids share a bucket exactly when they share equally long prefixes with
   * ours, although the bucket's number is never that length.
   */
  lemma BucketIsPrefixClass(own: Id, a: Id, b: Id)
    requires a != own && b != own
    ensures BucketIndex(own, a) == BucketIndex(own, b) <==> CommonPrefix(own, a) == CommonPrefix(own, b)
    ensures BucketIndex(own, a) != CommonPrefix(own, a)
  {
    MirrorIsInjective(CommonPrefix(own, a), CommonPrefix(own, b));
    hide Mirror, CommonPrefix, AgreeBelow;
  }

  lemma ByteOrder(x: bv8, y: bv8)
    requires LeadingZeros(x) > LeadingZeros(y)
    ensures Num(x) < Num(y)
  {
  }

  lemma {:induction false} BeforeAt(x: seq<bv8>, y: seq<bv8>, i: nat)
    requires |x| == |y| && i < |x| && x[..i] == y[..i] && Num(x[i]) < Num(y[i])
    ensures Before(x, y)
  {
    if i > 0 {
      assert x[0] == x[..i][0] == y[..i][0] == y[0];
      assert x[1..][..i - 1] == x[..i][1..] && y[1..][..i - 1] == y[..i][1..];
      BeforeAt(x[1..], y[1..], i - 1);
    }
  }

  /** Sharing a longer prefix with the target is being nearer to it. */
  lemma LongerPrefixIsNearer(a: Id, b: Id, t: Id)
    requires CommonPrefix(a, t) > CommonPrefix(b, t)
    ensures Dist(a, t) < Dist(b, t)
  {
    hide CommonPrefix, LeadingZeros, Value, Before, Xor, XorByte, Num, ByteBit, AgreeBelow;
    EqualIffWholePrefix(b, t);
    var i := FirstDiff(b, t, 0);
    PrefixInByte(b, t, i);
    var x, y := Xor(a, t), Xor(b, t);
    BytesAgree(a, t, i);
    assert forall j :: 0 <= j < i ==> b[..i][j] == t[..i][j];
    assert x[..i] == y[..i];
    if a[i] == t[i] {
      XorSame(a[i]);
    } else {
      PrefixInByte(a, t, i);
    }
    ByteOrder(x[i], y[i]);
    BeforeAt(x, y, i);
    LexIsNumeric(x, y);
  }

  /** Ids that agree in 8 i bits agree in i bytes. */
  lemma BytesAgree(a: Id, t: Id, i: nat)
    requires i < 20 && CommonPrefix(a, t) >= 8 * i
    ensures a[..i] == t[..i]
    ensures forall j :: 0 <= j < i ==> a[j] == t[j]
  {
    hide CommonPrefix, LeadingZeros, ByteBit, AgreeBelow;
    if a != t {
      var f := FirstDiff(a, t, 0);
      PrefixInByte(a, t, f);
      assert f >= i;
      assert forall j :: 0 <= j < i ==> a[..f][j] == t[..f][j];
    }
  }
}
