/** Base58 with the Bitcoin alphabet: repeated long division one way, multiply-and-add the other. */
module Base58 {
  import opened Common

  const ALPHABET: string := "123456789" + "ABCDEFGH" + "JKLMN" + "PQRSTUVWXYZ" + "abcdefghijk" + "mnopqrstuvwxyz"

  type Digits = seq<nat>

  predicate Below(ds: Digits, b: nat) {
    forall i :: 0 <= i < |ds| ==> ds[i] < b
  }

  // ----- positional notation, most significant digit first

  function ToNat(b: nat, ds: Digits): nat {
    if ds == [] then 0 else ToNat(b, ds[..|ds| - 1]) * b + ds[|ds| - 1]
  }

  predicate Base(b: nat) {
    b >= 2
  }

  lemma DivShrinks(b: nat, n: nat)
    requires Base(b) && n > 0
    ensures 0 <= n / b < n && 0 <= n % b < b && (n / b) * b + n % b == n
  {
    var q := n / b;
    assert q * b + n % b == n;
    assert q > 0 ==> q * b >= q * 2;
  }

  function FromNat(b: nat, n: nat): (ds: Digits)
    requires Base(b)
    ensures Below(ds, b) && (ds == [] <==> n == 0) && (ds != [] ==> ds[0] != 0)
  {
    if n == 0 then []
    else
      DivShrinks(b, n);
      FromNat(b, n / b) + [n % b]
  }

  lemma ToNatSnoc(b: nat, ds: Digits, d: nat)
    ensures ToNat(b, ds + [d]) == ToNat(b, ds) * b + d
  {
    assert (ds + [d])[..|ds|] == ds;
  }

  lemma DivModBack(b: nat, x: nat, d: nat)
    requires Base(b) && d < b
    ensures (x * b + d) / b == x && (x * b + d) % b == d
  {
    var n := x * b + d;
    var q := n / b;
    assert q * b + n % b == n && n % b < b;
    assert q > x ==> q * b >= (x + 1) * b;
    assert q < x ==> (q + 1) * b <= x * b;
  }

  lemma {:induction false} NatReadsBack(b: nat, n: nat)
    requires Base(b)
    ensures ToNat(b, FromNat(b, n)) == n
  {
    if n > 0 {
      DivShrinks(b, n);
      NatReadsBack(b, n / b);
      ToNatSnoc(b, FromNat(b, n / b), n % b);
    }
  }

  lemma {:induction false} Positive(b: nat, ds: Digits)
    requires Base(b) && ds != [] && ds[0] != 0
    ensures ToNat(b, ds) > 0
    decreases |ds|
  {
    if |ds| > 1 {
      Positive(b, ds[..|ds| - 1]);
    }
  }

  /** Without leading zeros there is one way to write a number. */
  lemma {:induction false} DigitsReadBack(b: nat, ds: Digits)
    requires Base(b) && Below(ds, b) && (ds != [] ==> ds[0] != 0)
    ensures FromNat(b, ToNat(b, ds)) == ds
    decreases |ds|
  {
    if ds != [] {
      var front, last := ds[..|ds| - 1], ds[|ds| - 1];
      Positive(b, ds);
      DigitsReadBack(b, front);
      DivModBack(b, ToNat(b, front), last);
    }
  }

  // ----- leading zeros

  function Zeros(n: nat): (z: Digits)
    ensures |z| == n && forall i :: 0 <= i < n ==> z[i] == 0
  {
    seq(n, _ => 0)
  }

  function LeadZeros(ds: Digits): (n: nat)
    ensures n <= |ds| && (n < |ds| ==> ds[n] != 0) && forall i :: 0 <= i < n ==> ds[i] == 0
  {
    if ds == [] || ds[0] != 0 then 0 else 1 + LeadZeros(ds[1..])
  }

  lemma {:induction false} ZerosAddNothing(b: nat, n: nat, ds: Digits)
    ensures ToNat(b, Zeros(n) + ds) == ToNat(b, ds)
    decreases n + |ds|
  {
    if ds != [] {
      assert (Zeros(n) + ds)[..n + |ds| - 1] == Zeros(n) + ds[..|ds| - 1];
      ZerosAddNothing(b, n, ds[..|ds| - 1]);
    } else if n > 0 {
      assert (Zeros(n) + ds)[..n - 1] == Zeros(n - 1) + [];
      ZerosAddNothing(b, n - 1, []);
    }
  }

  lemma SplitZeros(ds: Digits)
    ensures ds == Zeros(LeadZeros(ds)) + ds[LeadZeros(ds)..]
  {
  }

  lemma LeadZerosOf(n: nat, ds: Digits)
    requires ds == [] || ds[0] != 0
    ensures LeadZeros(Zeros(n) + ds) == n
  {
    var all := Zeros(n) + ds;
    var k := LeadZeros(all);
    assert forall i :: 0 <= i < n ==> all[i] == 0;
    assert n < |all| ==> all[n] == ds[0];
  }

  /** Rewrites a digit string in another base, keeping the leading zeros one for one. */
  function Rebase(b: nat, b': nat, ds: Digits): (r: Digits)
    requires Base(b')
    ensures Below(r, b')
  {
    Zeros(LeadZeros(ds)) + FromNat(b', ToNat(b, ds))
  }

  /** Rebasing there and back is the identity, leading zeros included. */
  lemma RebaseTwice(b: nat, b': nat, ds: Digits)
    requires Base(b) && Base(b') && Below(ds, b)
    ensures Rebase(b', b, Rebase(b, b', ds)) == ds
  {
    var n := LeadZeros(ds);
    var body := ds[n..];
    SplitZeros(ds);
    ZerosAddNothing(b, n, body);
    var digits := FromNat(b', ToNat(b, ds));
    LeadZerosOf(n, digits);
    ZerosAddNothing(b', n, digits);
    NatReadsBack(b', ToNat(b, ds));
    DigitsReadBack(b, body);
  }

  // ----- the alphabet

  function Symbol(d: nat): (c: char)
    requires d < 58
  {
    if d < 9 then '1' + d as char
    else if d < 17 then 'A' + (d - 9) as char
    else if d < 22 then 'J' + (d - 17) as char
    else if d < 33 then 'P' + (d - 22) as char
    else if d < 44 then 'a' + (d - 33) as char
    else 'm' + (d - 44) as char
  }

  lemma AlphabetIs()
    ensures |ALPHABET| == 58 && forall i :: 0 <= i < 58 ==> ALPHABET[i] == Symbol(i)
  {
  }

  /** First position of a character in a text at or after `from`. */
  function PositionFrom(text: string, c: char, from: nat): (p: Option<nat>)
    requires from <= |text|
    ensures p.Some? ==> from <= p.value < |text| && text[p.value] == c
    ensures p.None? ==> c !in text[from..]
    decreases |text| - from
  {
    if from == |text| then None else if text[from] == c then Some(from) else PositionFrom(text, c, from + 1)
  }

  function DigitOf(c: char): (p: Option<nat>)
    ensures p.Some? ==> p.value < 58 && |ALPHABET| == 58 && ALPHABET[p.value] == c
    ensures p.None? ==> c !in ALPHABET
  {
    AlphabetIs();
    PositionFrom(ALPHABET, c, 0)
  }

  lemma DigitOfSymbol(d: nat)
    requires d < 58
    ensures |ALPHABET| == 58 && DigitOf(ALPHABET[d]) == Some(d)
  {
    AlphabetIs();
    hide ALPHABET, Symbol, PositionFrom;
    var p := DigitOf(ALPHABET[d]);
    assert ALPHABET[d] in ALPHABET;
    assert Symbol(p.value) == Symbol(d);
    SymbolIsInjective(p.value, d);
  }

  lemma SymbolIsInjective(d: nat, e: nat)
    requires d < 58 && e < 58 && Symbol(d) == Symbol(e)
    ensures d == e
  {
  }

  lemma FirstSymbol()
    ensures |ALPHABET| == 58 && ALPHABET[0] == '1'
    ensures forall c :: DigitOf(c) == Some(0) <==> c == '1'
  {
    AlphabetIs();
    DigitOfSymbol(0);
  }

  lemma DigitOfMeans(c: char)
    ensures DigitOf(c).Some? <==> c in ALPHABET
  {
  }

  function Text(ds: Digits): (s: string)
    requires Below(ds, 58)
    ensures |s| == |ds| && |ALPHABET| == 58 && forall i :: 0 <= i < |ds| ==> s[i] == ALPHABET[ds[i]]
  {
    AlphabetIs();
    seq(|ds|, i requires 0 <= i < |ds| => ALPHABET[ds[i]])
  }

  predicate Valid(s: string) {
    forall i :: 0 <= i < |s| ==> s[i] in ALPHABET
  }

  function Values(s: string): (ds: Digits)
    requires Valid(s)
    ensures |ds| == |s| && Below(ds, 58) && forall i :: 0 <= i < |s| ==> DigitOf(s[i]) == Some(ds[i])
  {
    assert forall i :: 0 <= i < |s| ==> DigitOf(s[i]).Some?;
    seq(|s|, i requires 0 <= i < |s| => DigitOf(s[i]).value)
  }

  lemma ValuesOfText(ds: Digits)
    requires Below(ds, 58)
    ensures Valid(Text(ds)) && Values(Text(ds)) == ds
  {
    forall i | 0 <= i < |ds|
      ensures Text(ds)[i] in ALPHABET && DigitOf(Text(ds)[i]) == Some(ds[i])
    {
      DigitOfSymbol(ds[i]);
    }
  }

  lemma TextOfValues(s: string)
    requires Valid(s)
    ensures Text(Values(s)) == s
  {
  }

  // ----- what the codec computes

  function Encoded(data: Bytes): string {
    Text(Rebase(256, 58, data))
  }

  function Decoded(s: string): Option<Bytes> {
    if Valid(s) then Some(Rebase(58, 256, Values(s))) else None
  }

  /** Every byte string survives, including leading zero bytes. */
  lemma DecodeUndoesEncode(data: Bytes)
    ensures Decoded(Encoded(data)) == Some(data)
  {
    ValuesOfText(Rebase(256, 58, data));
    RebaseTwice(256, 58, data);
  }

  /** Every string over the alphabet survives, and only those decode. */
  lemma EncodeUndoesDecode(s: string)
    ensures Decoded(s).Some? <==> Valid(s)
    ensures Valid(s) ==> Encoded(Decoded(s).value) == s
  {
    if Valid(s) {
      RebaseTwice(58, 256, Values(s));
      TextOfValues(s);
    }
  }

  // ----- what the text means

  function Power(b: nat, n: nat): nat {
    if n == 0 then 1 else b * Power(b, n - 1)
  }

  /** The sum of the digits, each weighed by its place, the first one most. */
  function Weighed(b: nat, ds: Digits): nat {
    if ds == [] then 0 else ds[0] * Power(b, |ds| - 1) + Weighed(b, ds[1..])
  }

  lemma {:induction false} WeighedSnoc(b: nat, ds: Digits, d: nat)
    ensures Weighed(b, ds + [d]) == Weighed(b, ds) * b + d
    decreases |ds|
  {
    if ds == [] {
      assert [d][1..] == [];
    } else {
      assert (ds + [d])[1..] == ds[1..] + [d];
      WeighedSnoc(b, ds[1..], d);
      Distribute(b, ds[0], Power(b, |ds| - 1), Weighed(b, ds[1..]));
    }
  }

  lemma Distribute(b: nat, x: nat, p: nat, w: nat)
    ensures x * (b * p) + w * b == (x * p + w) * b
  {
  }

  lemma {:induction false} ToNatIsWeighed(b: nat, ds: Digits)
    ensures ToNat(b, ds) == Weighed(b, ds)
    decreases |ds|
  {
    if ds != [] {
      var front := ds[..|ds| - 1];
      ToNatIsWeighed(b, front);
      assert front + [ds[|ds| - 1]] == ds;
      WeighedSnoc(b, front, ds[|ds| - 1]);
    }
  }

  /** The text is the same big-endian number in base 58, behind as many ones as there are leading zero bytes. */
  lemma EncodedMeans(data: Bytes)
    ensures var s := Encoded(data);
      && Valid(s) && Weighed(58, Values(s)) == Weighed(256, data)
      && LeadZeros(data) <= |s|
      && (forall i :: 0 <= i < LeadZeros(data) ==> s[i] == '1')
      && (LeadZeros(data) < |s| ==> s[LeadZeros(data)] != '1')
  {
    var n := LeadZeros(data);
    var digits := FromNat(58, ToNat(256, data));
    ValuesOfText(Rebase(256, 58, data));
    ZerosAddNothing(58, n, digits);
    NatReadsBack(58, ToNat(256, data));
    ToNatIsWeighed(58, Values(Encoded(data)));
    ToNatIsWeighed(256, data);
    FirstSymbol();
    hide ALPHABET, DigitOf, FromNat, Weighed, ToNat;
    var s := Encoded(data);
    if n < |s| {
      assert Values(s)[n] == digits[0];
    }
  }

  lemma FromNatStep(n: nat, q: nat, r: nat)
    requires n > 0 && n == 58 * q + r && r < 58
    ensures FromNat(58, n) == FromNat(58, q) + [r]
  {
    DivModBack(58, q, r);
  }

  lemma HelloDigits()
    ensures FromNat(58, 448378203247) == [11, 45, 7, 37, 28, 32, 39]
  {
    hide FromNat;
    FromNatStep(448378203247, 7730658676, 39);
    FromNatStep(7730658676, 133287218, 32);
    FromNatStep(133287218, 2298055, 28);
    FromNatStep(2298055, 39621, 37);
    FromNatStep(39621, 683, 7);
    FromNatStep(683, 11, 45);
    FromNatStep(11, 0, 11);
  }

  lemma HelloValue()
    ensures ToNat(256, [104, 101, 108, 108, 111]) == 448378203247
  {
    ToNatSnoc(256, [], 104);
    hide ToNat;
    ToNatSnoc(256, [104], 101);
    ToNatSnoc(256, [104, 101], 108);
    ToNatSnoc(256, [104, 101, 108], 108);
    ToNatSnoc(256, [104, 101, 108, 108], 111);
    assert [] + [104] == [104];
    assert [104] + [101] == [104, 101];
    assert [104, 101] + [108] == [104, 101, 108];
    assert [104, 101, 108] + [108] == [104, 101, 108, 108];
    assert [104, 101, 108, 108] + [111] == [104, 101, 108, 108, 111];
  }

  lemma HelloSpelt(ds: Digits)
    requires ds == [11, 45, 7, 37, 28, 32, 39]
    ensures Below(ds, 58) && Text(ds) == "Cn8eVZg"
  {
    AlphabetIs();
    hide ALPHABET;
    var s := Text(ds);
    assert |s| == 7 && s[0] == 'C' && s[1] == 'n' && s[2] == '8' && s[3] == 'e' && s[4] == 'V' && s[5] == 'Z' && s[6] == 'g';
  }

  /** The source's known vector. */
  lemma HelloVector()
    ensures Encoded([104, 101, 108, 108, 111]) == "Cn8eVZg"
  {
    hide ToNat, FromNat, ALPHABET, Text;
    HelloValue();
    HelloDigits();
    var ds := Rebase(256, 58, [104, 101, 108, 108, 111]);
    assert Zeros(0) == [];
    HelloSpelt(ds);
  }

  // ----- encoding by long division

  function Rev(s: Digits): (r: Digits)
    ensures |r| == |s| && forall i :: 0 <= i < |s| ==> r[i] == s[|s| - 1 - i]
  {
    if s == [] then [] else Rev(s[1..]) + [s[0]]
  }

  /** Divides a base-256 number by 58 in place. */
  method DivideBy58(num: Digits) returns (quotient: Digits, rem: nat)
    requires Below(num, 256)
    ensures |quotient| == |num| && Below(quotient, 256) && rem < 58
    ensures ToNat(256, num) == ToNat(256, quotient) * 58 + rem
  {
    quotient, rem := num, 0;
    for i := 0 to |num|
      invariant |quotient| == |num| && Below(quotient, 256) && rem < 58 && quotient[i..] == num[i..]
      invariant ToNat(256, num[..i]) == ToNat(256, quotient[..i]) * 58 + rem
    {
      var cur := rem * 256 + quotient[i];
      assert num[..i + 1] == num[..i] + [num[i]];
      ToNatSnoc(256, num[..i], num[i]);
      ghost var before := quotient[..i];
      quotient := quotient[i := cur / 58];
      rem := cur % 58;
      assert quotient[..i + 1] == before + [cur / 58];
      ToNatSnoc(256, before, cur / 58);
    }
    assert num[..|num|] == num && quotient[..|num|] == quotient;
  }

  lemma LastDigit(q: nat, rem: nat)
    requires rem < 58 && q * 58 + rem > 0
    ensures FromNat(58, q * 58 + rem) == FromNat(58, q) + [rem]
  {
  }

  lemma DivisionStep(num: Digits, quotient: Digits, rem: nat)
    requires num != [] && num[0] != 0 && rem < 58
    requires ToNat(256, num) == ToNat(256, quotient) * 58 + rem
    ensures var next := ToNat(256, quotient[LeadZeros(quotient)..]);
      FromNat(58, ToNat(256, num)) == FromNat(58, next) + [rem] && next < ToNat(256, num)
  {
    hide ToNat, FromNat;
    Positive(256, num);
    LastDigit(ToNat(256, quotient), rem);
    SplitZeros(quotient);
    ZerosAddNothing(256, LeadZeros(quotient), quotient[LeadZeros(quotient)..]);
  }

  lemma RevSnoc(ds: Digits, d: nat)
    ensures Rev(ds + [d]) == [d] + Rev(ds)
  {
  }

  method Encode(data: Bytes) returns (s: string)
    ensures s == Encoded(data)
  {
    hide ToNat, FromNat, Rev;
    var zeros := LeadZeros(data);
    SplitZeros(data);
    ZerosAddNothing(256, zeros, data[zeros..]);
    var digits := Base58Digits(data[zeros..]);
    s := Spell(zeros, digits);
  }

  /** The base-58 digits of a number, least significant first, by repeated division. */
  method Base58Digits(operand: Digits) returns (digits: Digits)
    requires Below(operand, 256) && (operand != [] ==> operand[0] != 0)
    ensures Below(digits, 58) && Rev(digits) == FromNat(58, ToNat(256, operand))
  {
    var num := operand;
    digits := [];
    assert ToNat(256, []) == 0 && FromNat(58, 0) == [] && Rev([]) == [];
    hide ToNat, FromNat, Rev, LeadZeros;
    while num != []
      invariant Below(num, 256) && (num != [] ==> num[0] != 0) && Below(digits, 58)
      invariant FromNat(58, ToNat(256, operand)) == FromNat(58, ToNat(256, num)) + Rev(digits)
      decreases ToNat(256, num)
    {
      var quotient, rem := DivideBy58(num);
      var first := LeadZeros(quotient);
      DivisionStep(num, quotient, rem);
      RevSnoc(digits, rem);
      digits := digits + [rem];
      num := quotient[first..];
    }
  }

  /** Writes the leading ones, then the digits in reverse. */
  method Spell(zeros: nat, digits: Digits) returns (s: string)
    requires Below(digits, 58)
    ensures s == Text(Zeros(zeros) + Rev(digits))
  {
    hide ALPHABET;
    FirstSymbol();
    s := seq(zeros, _ => '1');
    var i := |digits|;
    while i > 0
      invariant 0 <= i <= |digits| && |s| == zeros + |digits| - i
      invariant forall j :: 0 <= j < zeros ==> s[j] == '1'
      invariant forall j :: zeros <= j < |s| ==> s[j] == ALPHABET[Rev(digits)[j - zeros]]
    {
      i := i - 1;
      s := s + [ALPHABET[digits[i]]];
    }
    assert s == Text(Zeros(zeros) + Rev(digits));
  }

  // ----- decoding by multiply-and-add, least significant byte first

  function FromLittle(num: Digits): nat {
    if num == [] then 0 else num[0] + 256 * FromLittle(num[1..])
  }

  function CarryDigits(carry: nat): (ds: Digits)
    ensures Below(ds, 256) && FromLittle(ds) == carry && (ds != [] ==> ds[|ds| - 1] != 0) && (ds == [] <==> carry == 0)
  {
    if carry == 0 then [] else [carry % 256] + CarryDigits(carry / 256)
  }

  function MulAdd(num: Digits, carry: nat): Digits {
    if num == [] then CarryDigits(carry)
    else
      var cur := num[0] * 58 + carry;
      [cur % 256] + MulAdd(num[1..], cur / 256)
  }

  lemma {:induction false} MulAddIs(num: Digits, carry: nat)
    ensures FromLittle(MulAdd(num, carry)) == FromLittle(num) * 58 + carry && Below(MulAdd(num, carry), 256)
    decreases |num|
  {
    if num != [] {
      MulAddIs(num[1..], (num[0] * 58 + carry) / 256);
    }
  }

  lemma {:induction false} MulAddTop(num: Digits, carry: nat)
    requires num != [] && (num[|num| - 1] != 0 || (|num| == 1 && carry != 0))
    ensures var r := MulAdd(num, carry); r != [] && r[|r| - 1] != 0
    decreases |num|
  {
    hide CarryDigits;
    var cur := num[0] * 58 + carry;
    if |num| > 1 {
      MulAddTop(num[1..], cur / 256);
    } else {
      assert num[1..] == [];
      assert MulAdd(num, carry) == [cur % 256] + CarryDigits(cur / 256);
    }
  }

  lemma {:induction false} LittleIsReversed(num: Digits)
    ensures ToNat(256, Rev(num)) == FromLittle(num)
    decreases |num|
  {
    if num != [] {
      LittleIsReversed(num[1..]);
      ToNatSnoc(256, Rev(num[1..]), num[0]);
    }
  }

  /** num := num * 58 + value, limb by limb. */
  method MultiplyAdd(num: Digits, value: nat) returns (r: Digits)
    ensures r == MulAdd(num, value)
  {
    hide CarryDigits;
    r := num;
    var carry := value;
    for i := 0 to |num|
      invariant |r| == |num| && r[i..] == num[i..]
      invariant r[..i] + MulAdd(num[i..], carry) == MulAdd(num, value)
    {
      assert r[i] == r[i..][0] == num[i..][0] == num[i];
      var cur := r[i] * 58 + carry;
      assert num[i..][1..] == num[i + 1..];
      ghost var done := r[..i];
      assert MulAdd(num[i..], carry) == [cur % 256] + MulAdd(num[i + 1..], cur / 256);
      r := r[i := cur % 256];
      carry := cur / 256;
      assert r[..i + 1] == done + [cur % 256];
    }
    assert num[|num|..] == [] && r[..|num|] == r;
    r := PushCarry(r, carry);
  }

  method PushCarry(num: Digits, value: nat) returns (r: Digits)
    ensures r == num + CarryDigits(value)
  {
    r := num;
    var carry := value;
    while carry > 0
      invariant r + CarryDigits(carry) == num + CarryDigits(value)
      decreases carry
    {
      r := r + [carry % 256];
      carry := carry / 256;
    }
  }

  method Decode(s: string) returns (r: Option<Bytes>)
    ensures r == Decoded(s)
  {
    hide ALPHABET, DigitOf, FromLittle, ToNat, FromNat, Rev;
    var zeros := 0;
    while zeros < |s| && s[zeros] == '1'
      invariant zeros <= |s| && forall i :: 0 <= i < zeros ==> s[i] == '1'
    {
      zeros := zeros + 1;
    }
    if zeros == |s| {
      AllOnes(s);
      return Some(Zeros(zeros));
    }
    var body, num := FoldBody(s, zeros);
    if num.None? {
      return None;
    }
    BodyDecodes(s, zeros, body, num.value);
    r := Some(Zeros(zeros) + Rev(num.value));
  }

  /** Folds the digits after the leading ones into a number; None at a character outside the alphabet. */
  method FoldBody(s: string, zeros: nat) returns (ghost body: Digits, num: Option<Digits>)
    requires zeros < |s| && s[zeros] != '1'
    ensures num.None? ==> !Valid(s)
    ensures num.Some? ==>
      && |body| == |s| - zeros && (forall j :: zeros <= j < |s| ==> DigitOf(s[j]) == Some(body[j - zeros]))
      && Below(num.value, 256) && num.value != [] && num.value[|num.value| - 1] != 0
      && FromLittle(num.value) == ToNat(58, body)
  {
    var limbs: Digits := [0];
    body := [];
    assert Folded(s, zeros, zeros, body, limbs);
    hide ALPHABET, DigitOf, FromLittle, ToNat, MulAdd, Folded;
    for i := zeros to |s|
      invariant Folded(s, zeros, i, body, limbs)
    {
      var d := DigitOf(s[i]);
      if d.None? {
        DigitOfMeans(s[i]);
        return body, None;
      }
      FoldOne(s, zeros, i, body, limbs, d.value);
      limbs := MultiplyAdd(limbs, d.value);
      body := body + [d.value];
    }
    FoldedAll(s, zeros, body, limbs);
    num := Some(limbs);
  }

  /** The digits up to i are read into `body`, and `limbs` is their number. */
  ghost predicate Folded(s: string, zeros: nat, i: nat, body: Digits, limbs: Digits) {
    && zeros <= i <= |s| && |body| == i - zeros
    && (forall j :: zeros <= j < i ==> DigitOf(s[j]) == Some(body[j - zeros]))
    && Below(limbs, 256) && limbs != [] && FromLittle(limbs) == ToNat(58, body)
    && (if i == zeros then limbs == [0] else limbs[|limbs| - 1] != 0)
  }

  lemma FoldOne(s: string, zeros: nat, i: nat, body: Digits, limbs: Digits, d: nat)
    requires Folded(s, zeros, i, body, limbs) && i < |s| && s[zeros] != '1' && DigitOf(s[i]) == Some(d)
    ensures Folded(s, zeros, i + 1, body + [d], MulAdd(limbs, d))
  {
    hide ALPHABET, DigitOf, FromLittle, ToNat, MulAdd;
    FirstSymbol();
    FoldStep(limbs, body, d);
  }

  lemma FoldedAll(s: string, zeros: nat, body: Digits, limbs: Digits)
    requires Folded(s, zeros, |s|, body, limbs) && zeros < |s|
    ensures |body| == |s| - zeros && (forall j :: zeros <= j < |s| ==> DigitOf(s[j]) == Some(body[j - zeros]))
    ensures Below(limbs, 256) && limbs != [] && limbs[|limbs| - 1] != 0
    ensures FromLittle(limbs) == ToNat(58, body)
  {
  }

  lemma FoldStep(limbs: Digits, body: Digits, d: nat)
    requires Below(limbs, 256) && FromLittle(limbs) == ToNat(58, body)
    requires limbs != [] && (limbs[|limbs| - 1] != 0 || (|limbs| == 1 && d != 0))
    ensures var r := MulAdd(limbs, d);
      Below(r, 256) && FromLittle(r) == ToNat(58, body + [d]) && r != [] && r[|r| - 1] != 0
  {
    MulAddIs(limbs, d);
    MulAddTop(limbs, d);
    ToNatSnoc(58, body, d);
  }

  lemma AllOnes(s: string)
    requires forall i :: 0 <= i < |s| ==> s[i] == '1'
    ensures Decoded(s) == Some(Zeros(|s|))
  {
    hide ALPHABET, DigitOf;
    FirstSymbol();
    forall c { DigitOfMeans(c); }
    assert Values(s) == Zeros(|s|) + [];
    ZerosAddNothing(58, |s|, []);
    LeadZerosOf(|s|, []);
    assert Zeros(|s|) + [] == Zeros(|s|);
  }

  lemma BodyDecodes(s: string, zeros: nat, body: Digits, num: Digits)
    requires zeros < |s| && |body| == |s| - zeros
    requires forall i :: 0 <= i < zeros ==> s[i] == '1'
    requires s[zeros] != '1'
    requires forall j :: zeros <= j < |s| ==> DigitOf(s[j]) == Some(body[j - zeros])
    requires Below(num, 256) && num != [] && num[|num| - 1] != 0 && FromLittle(num) == ToNat(58, body)
    ensures Decoded(s) == Some(Zeros(zeros) + Rev(num))
  {
    hide ALPHABET, DigitOf, FromLittle, ToNat, FromNat;
    FirstSymbol();
    forall c { DigitOfMeans(c); }
    assert Values(s) == Zeros(zeros) + body;
    assert body[0] != 0;
    LeadZerosOf(zeros, body);
    ZerosAddNothing(58, zeros, body);
    LittleIsReversed(num);
    DigitsReadBack(256, Rev(num));
  }
}
