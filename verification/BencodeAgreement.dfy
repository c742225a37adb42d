/**
  Parser and walker accept different inputs. Of what the parser accepts, the walker accepts exactly
  the inputs without a plus sign in front of an integer and without an over-long dictionary.
*/
module BencodeAgreement {
  import opened Common
  import opened Bencode
  import opened BencodeRoundTrip

  /** No integer of the accepted value starts with a plus sign, and no dictionary prints too many entries. */
  predicate Plain(input: Bytes, pos: nat, depth: nat)
    requires pos <= |input| && ParseValue(input, pos, depth).Ok?
    decreases |input| - pos, 0
  {
    var c := input[pos];
    if c == C_I then pos + 1 < |input| && input[pos + 1] != PLUS
    else if c == C_L then PlainItems(input, pos + 1, depth, [])
    else if c == C_D then
      PlainEntries(input, pos + 1, depth, []) && Printed(input, pos + 1, depth, []) <= MAX_ITEMS
    else true
  }

  predicate PlainItems(input: Bytes, pos: nat, depth: nat, acc: seq<BVal>)
    requires pos <= |input| && ParseItems(input, pos, depth, acc).Ok?
    decreases |input| - pos, 1
  {
    input[pos] == C_E ||
    (var v := ParseValue(input, pos, depth + 1);
     Plain(input, pos, depth + 1) && PlainItems(input, v.pos, depth, acc + [v.value]))
  }

  predicate PlainEntries(input: Bytes, pos: nat, depth: nat, acc: seq<Entry>)
    requires pos <= |input| && ParseEntries(input, pos, depth, acc).Ok?
    decreases |input| - pos, 1
  {
    input[pos] == C_E ||
    (var k := ParseStr(input, pos);
     var v := ParseValue(input, k.pos, depth + 1);
     Plain(input, k.pos, depth + 1) && PlainEntries(input, v.pos, depth, Put(acc, Entry(k.value, v.value))))
  }

  /** The entries a dictionary prints, repeated keys counted each time. */
  function Printed(input: Bytes, pos: nat, depth: nat, acc: seq<Entry>): nat
    requires pos <= |input| && ParseEntries(input, pos, depth, acc).Ok?
    decreases |input| - pos, 1
  {
    if input[pos] == C_E then 0
    else
      var k := ParseStr(input, pos);
      var v := ParseValue(input, k.pos, depth + 1);
      1 + Printed(input, v.pos, depth, Put(acc, Entry(k.value, v.value)))
  }

  // ----- integers

  lemma {:induction false} IntEndStands(input: Bytes, start: nat, pos: nat)
    requires start <= pos <= |input| && IntEnd(input, start, pos).Ok?
    ensures input[IntEnd(input, start, pos).pos] == C_E
    decreases |input| - pos
  {
    if input[pos] != C_E {
      IntEndStands(input, start, pos + 1);
    }
  }

  /** The shape of what the integer parser accepts. */
  lemma ParsedIntShape(s: Bytes)
    requires ParseBencodedInt(s).Some?
    ensures s != [] && IsDigit(s[|s| - 1])
    ensures s[0] != PLUS ==> forall j :: 0 <= j < |s| ==> IsDigit(s[j]) || s[j] == MINUS
  {
    var signed := s[0] == MINUS || s[0] == PLUS;
    var digits := if signed then s[1..] else s;
    assert digits != [] && AllDigits(digits);
    assert s[|s| - 1] == digits[|digits| - 1];
    assert signed ==> forall j :: 1 <= j < |s| ==> s[j] == digits[j - 1];
    hide Fold;
  }

  /** An integer the parser accepts is accepted by the walker exactly when it does not start with a plus sign. */
  lemma IntAccepted(input: Bytes, pos: nat)
    requires pos < |input| && ParseInt(input, pos).Ok?
    ensures pos + 1 < |input|
    ensures SkipInt(input, pos + 1, false).Ok? <==> input[pos + 1] != PLUS
  {
    var end := IntEnd(input, pos + 1, pos + 1).pos;
    IntEndStands(input, pos + 1, pos + 1);
    var text := input[pos + 1..end];
    assert ParseBencodedInt(text).Some?;
    ParsedIntShape(text);
    assert text[0] == input[pos + 1];
    assert input[pos + 1..end + 1] == text + [C_E];
    hide ParseBencodedInt, IntEnd;
    if input[pos + 1] != PLUS {
      SkipIntFinds(input, pos + 1, text, false);
    }
  }

  // ----- values

  lemma StrAccepted(input: Bytes, pos: nat)
    requires pos <= |input| && ParseStr(input, pos).Ok?
    ensures SkipStr(input, pos) == Ok((), ParseStr(input, pos).pos)
    ensures pos < |input| && IsDigit(input[pos])
  {
  }

  /** What the parser accepts, the walker accepts exactly when it is plain, and then they stop together. */
  lemma {:induction false} WalkerAccepts(input: Bytes, pos: nat, depth: nat)
    requires pos <= |input| && ParseValue(input, pos, depth).Ok?
    ensures SkipValue(input, pos, depth).Ok? <==> Plain(input, pos, depth)
    ensures SkipValue(input, pos, depth).Ok? ==> SkipValue(input, pos, depth).pos == ParseValue(input, pos, depth).pos
    decreases |input| - pos, 0
  {
    var c := input[pos];
    if c == C_I {
      IntAccepted(input, pos);
    } else if c == C_L {
      ItemsAccepted(input, pos + 1, depth, []);
    } else if c == C_D {
      EntriesAccepted(input, pos + 1, depth, [], 0);
    } else {
      StrAccepted(input, pos);
    }
    if SkipValue(input, pos, depth).Ok? {
      WalkerAgrees(input, pos, depth);
    }
  }

  lemma {:induction false} ItemsAccepted(input: Bytes, pos: nat, depth: nat, acc: seq<BVal>)
    requires pos <= |input| && ParseItems(input, pos, depth, acc).Ok?
    ensures SkipItems(input, pos, depth).Ok? <==> PlainItems(input, pos, depth, acc)
    decreases |input| - pos, 1
  {
    hide ParseValue, SkipValue, Plain;
    if input[pos] != C_E {
      var v := ParseValue(input, pos, depth + 1);
      WalkerAccepts(input, pos, depth + 1);
      ItemsAccepted(input, v.pos, depth, acc + [v.value]);
    }
  }

  lemma {:induction false} EntriesAccepted(input: Bytes, pos: nat, depth: nat, acc: seq<Entry>, items: nat)
    requires pos <= |input| && ParseEntries(input, pos, depth, acc).Ok? && items <= MAX_ITEMS
    ensures SkipEntries(input, pos, depth, items).Ok?
      <==> PlainEntries(input, pos, depth, acc) && items + Printed(input, pos, depth, acc) <= MAX_ITEMS
    decreases |input| - pos, 1
  {
    hide Put, ParseValue, SkipValue, Plain, ParseStr, SkipStr;
    if input[pos] != C_E {
      var k := ParseStr(input, pos);
      StrAccepted(input, pos);
      var v := ParseValue(input, k.pos, depth + 1);
      WalkerAccepts(input, k.pos, depth + 1);
      if items < MAX_ITEMS {
        EntriesAccepted(input, v.pos, depth, Put(acc, Entry(k.value, v.value)), items + 1);
      }
    }
  }

  // ----- inputs that only one of them accepts

  const PLUS_FIVE: Bytes := [105, 43, 53, 101]
  const ONE_MINUS_TWO: Bytes := [105, 49, 45, 50, 101]

  /** `i+5e` is accepted by the parser only. */
  lemma ParserOnly()
    ensures ParseValue(PLUS_FIVE, 0, 0) == Ok(Int(5), 4) && SkipValue(PLUS_FIVE, 0, 0).Fail?
  {
    var s := PLUS_FIVE;
    assert IntEnd(s, 1, 3) == Ok((), 3);
    assert IntEnd(s, 1, 2) == Ok((), 3);
    assert IntEnd(s, 1, 1) == Ok((), 3);
    assert s[1..3] == [43, 53] && [43, 53][1..] == [53];
    assert Fold(0, [53]) == Fold(5, []);
  }

  /** `i1-2e` is accepted by the walker only. */
  lemma WalkerOnly()
    ensures SkipValue(ONE_MINUS_TWO, 0, 0) == Ok((), 5) && ParseValue(ONE_MINUS_TWO, 0, 0).Fail?
  {
    var s := ONE_MINUS_TWO;
    assert SkipInt(s, 4, true) == Ok((), 5);
    assert SkipInt(s, 3, true) == Ok((), 5);
    assert SkipInt(s, 2, true) == Ok((), 5);
    assert SkipInt(s, 1, false) == Ok((), 5);
    assert IntEnd(s, 1, 4) == Ok((), 4);
    assert IntEnd(s, 1, 3) == Ok((), 4);
    assert IntEnd(s, 1, 2) == Ok((), 4);
    assert IntEnd(s, 1, 1) == Ok((), 4);
    var text := s[1..4];
    assert text == [49, 45, 50] && text[1] == 45;
    assert !AllDigits(text);
  }
}
