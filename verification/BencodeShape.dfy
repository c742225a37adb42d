/**
  What the bencode parser makes of arbitrary input: values within its limits, dictionaries in key
  order with the last value of each key, and integers in one spelling only.
*/
module BencodeShape {
  import opened Common
  import opened Bencode
  import opened BencodeRoundTrip

  // ----- the order of keys

  lemma {:induction false} KeyLessTrans(a: Bytes, b: Bytes, c: Bytes)
    requires KeyLess(a, b) && KeyLess(b, c)
    ensures KeyLess(a, c)
    decreases |a|
  {
    if a != [] && a[0] == b[0] && b[0] == c[0] {
      KeyLessTrans(a[1..], b[1..], c[1..]);
    }
  }

  lemma {:induction false} KeyLessTotal(a: Bytes, b: Bytes)
    ensures a == b || KeyLess(a, b) || KeyLess(b, a)
    decreases |a|
  {
    if a != [] && b != [] && a[0] == b[0] {
      KeyLessTotal(a[1..], b[1..]);
      assert a == [a[0]] + a[1..] && b == [b[0]] + b[1..];
    }
  }

  function Lookup(m: seq<Entry>, key: Bytes): Option<BVal> {
    if m == [] then None else if m[0].key == key then Some(m[0].val) else Lookup(m[1..], key)
  }

  ghost predicate Above(m: seq<Entry>, key: Bytes) {
    forall i :: 0 <= i < |m| ==> KeyLess(key, m[i].key)
  }

  lemma {:induction false} NotAbove(m: seq<Entry>, key: Bytes)
    requires Above(m, key)
    ensures Lookup(m, key) == None
  {
    if m != [] {
      KeyLessIrreflexive(key);
      NotAbove(m[1..], key);
    }
  }

  lemma {:induction false} PutAbove(m: seq<Entry>, e: Entry, key: Bytes)
    requires Above(m, key) && KeyLess(key, e.key)
    ensures Above(Put(m, e), key)
  {
    if m != [] && m[0].key != e.key && KeyLess(m[0].key, e.key) {
      PutAbove(m[1..], e, key);
    }
  }

  /** Insertion keeps keys in order, makes the new value the one found under its key, and leaves all others. */
  lemma {:induction false} PutMeans(m: seq<Entry>, e: Entry)
    requires Sorted(m)
    ensures Sorted(Put(m, e))
    ensures forall key :: Lookup(Put(m, e), key) == if key == e.key then Some(e.val) else Lookup(m, key)
  {
    if m != [] {
      var rest := m[1..];
      assert Sorted(rest) && Above(rest, m[0].key);
      if m[0].key == e.key {
        assert Sorted([e] + rest);
      } else if KeyLess(m[0].key, e.key) {
        PutMeans(rest, e);
        PutAbove(rest, e, m[0].key);
        SortedCons(m[0], Put(rest, e));
      } else {
        KeyLessTotal(m[0].key, e.key);
        forall i | 0 <= i < |m|
          ensures KeyLess(e.key, m[i].key)
        {
          if i > 0 {
            KeyLessTrans(e.key, m[0].key, m[i].key);
          }
        }
        SortedCons(e, m);
      }
    }
  }

  lemma SortedCons(e: Entry, m: seq<Entry>)
    requires Sorted(m) && Above(m, e.key)
    ensures Sorted([e] + m)
  {
  }

  lemma {:induction false} PutLength(m: seq<Entry>, e: Entry)
    ensures |m| <= |Put(m, e)| <= |m| + 1
  {
    if m != [] {
      PutLength(m[1..], e);
    }
  }

  lemma {:induction false} PutElements(m: seq<Entry>, e: Entry, x: Entry)
    requires x in Put(m, e)
    ensures x == e || x in m
  {
    if m != [] && m[0].key != e.key && KeyLess(m[0].key, e.key) && x != m[0] {
      PutElements(m[1..], e, x);
    }
  }

  // ----- what is accepted is within the limits

  /** Whatever the parser accepts, on any input, is a value the printer's round trip covers. */
  lemma {:induction false} ParsedIsAllowed(input: Bytes, pos: nat, depth: nat)
    requires pos <= |input| && ParseValue(input, pos, depth).Ok?
    ensures Allowed(ParseValue(input, pos, depth).value, depth)
    decreases |input| - pos, 0
  {
    var c := input[pos];
    if c == C_I {
      ParsedIntFits(input, pos);
    } else if c == C_L {
      ItemsAreAllowed(input, pos + 1, depth, []);
    } else if c == C_D {
      EntriesAreAllowed(input, pos + 1, depth, []);
    } else {
      ParsedStrFits(input, pos);
    }
  }

  lemma ParsedIntFits(input: Bytes, pos: nat)
    requires pos < |input| && ParseInt(input, pos).Ok?
    ensures ParseInt(input, pos).value.Int? && IsI64(ParseInt(input, pos).value.i)
  {
    hide IntEnd, Fold;
  }

  lemma ParsedStrFits(input: Bytes, pos: nat)
    requires pos <= |input| && ParseStr(input, pos).Ok?
    ensures |ParseStr(input, pos).value| <= MAX_STR_LEN
  {
    hide StringLen;
  }

  lemma {:induction false} ItemsAreAllowed(input: Bytes, pos: nat, depth: nat, acc: seq<BVal>)
    requires pos <= |input| && depth <= MAX_DEPTH && ParseItems(input, pos, depth, acc).Ok?
    requires |acc| <= MAX_ITEMS && forall i :: 0 <= i < |acc| ==> Allowed(acc[i], depth + 1)
    ensures Allowed(ParseItems(input, pos, depth, acc).value, depth)
    decreases |input| - pos, 1
  {
    hide ParseValue;
    if input[pos] != C_E {
      var v := ParseValue(input, pos, depth + 1);
      ParsedIsAllowed(input, pos, depth + 1);
      ItemsAreAllowed(input, v.pos, depth, acc + [v.value]);
    }
  }

  ghost predicate EntriesOk(m: seq<Entry>, depth: nat) {
    |m| <= MAX_ITEMS && Sorted(m) && forall x :: x in m ==> |x.key| <= MAX_STR_LEN && Allowed(x.val, depth + 1)
  }

  lemma {:induction false} EntriesAreAllowed(input: Bytes, pos: nat, depth: nat, acc: seq<Entry>)
    requires pos <= |input| && depth <= MAX_DEPTH && ParseEntries(input, pos, depth, acc).Ok? && EntriesOk(acc, depth)
    ensures Allowed(ParseEntries(input, pos, depth, acc).value, depth)
    decreases |input| - pos, 1
  {
    hide ParseValue, ParseStr, Put, Sorted;
    if input[pos] != C_E {
      var k := ParseStr(input, pos);
      ParsedStrFits(input, pos);
      var v := ParseValue(input, k.pos, depth + 1);
      ParsedIsAllowed(input, k.pos, depth + 1);
      var e := Entry(k.value, v.value);
      PutIsOk(acc, e, depth);
      EntriesAreAllowed(input, v.pos, depth, Put(acc, e));
    }
  }

  lemma PutIsOk(acc: seq<Entry>, e: Entry, depth: nat)
    requires EntriesOk(acc, depth) && |acc| < MAX_ITEMS && |e.key| <= MAX_STR_LEN && Allowed(e.val, depth + 1)
    ensures EntriesOk(Put(acc, e), depth)
  {
    hide Put, Allowed;
    PutMeans(acc, e);
    PutLength(acc, e);
    forall x | x in Put(acc, e)
      ensures |x.key| <= MAX_STR_LEN && Allowed(x.val, depth + 1)
    {
      PutElements(acc, e, x);
    }
  }

  /** Printing what was parsed and parsing it again gives the same value. */
  lemma ReprintIsStable(input: Bytes)
    requires Parse(input).Ok?
    ensures Parse(Encode(Parse(input).value)) == Ok(Parse(input).value, |Encode(Parse(input).value)|)
  {
    hide Encode;
    ParsedIsAllowed(input, 0, 0);
    ParseUndoesEncode(Parse(input).value);
  }

  // ----- repeated keys

  /** The entries a dictionary prints, in the order printed. */
  function Printing(input: Bytes, pos: nat, depth: nat, acc: seq<Entry>): seq<Entry>
    requires pos <= |input| && ParseEntries(input, pos, depth, acc).Ok?
    decreases |input| - pos
  {
    if input[pos] == C_E then []
    else
      var k := ParseStr(input, pos);
      var v := ParseValue(input, k.pos, depth + 1);
      var e := Entry(k.value, v.value);
      [e] + Printing(input, v.pos, depth, Put(acc, e))
  }

  function LastOf(es: seq<Entry>, key: Bytes, before: Option<BVal>): Option<BVal> {
    if es == [] then before else LastOf(es[1..], key, if es[0].key == key then Some(es[0].val) else before)
  }

  /** Under each key the dictionary has the value printed last, in any order of keys and with any repeats. */
  lemma {:induction false} DictKeepsLast(input: Bytes, pos: nat, depth: nat, acc: seq<Entry>, key: Bytes)
    requires pos <= |input| && ParseEntries(input, pos, depth, acc).Ok? && Sorted(acc)
    ensures var r := ParseEntries(input, pos, depth, acc).value;
      r.Dict? && Sorted(r.entries) && Lookup(r.entries, key) == LastOf(Printing(input, pos, depth, acc), key, Lookup(acc, key))
    decreases |input| - pos
  {
    hide ParseValue, ParseStr, Put, Sorted, Lookup;
    if input[pos] != C_E {
      var k := ParseStr(input, pos);
      var v := ParseValue(input, k.pos, depth + 1);
      var e := Entry(k.value, v.value);
      PutMeans(acc, e);
      DictKeepsLast(input, v.pos, depth, Put(acc, e), key);
      assert Printing(input, pos, depth, acc)[1..] == Printing(input, v.pos, depth, Put(acc, e));
    }
  }

  // ----- integers have one spelling

  lemma {:induction false} FoldStep(acc: nat, s: Bytes)
    requires AllDigits(s) && s != []
    ensures Fold(acc, s) == Fold(acc, s[..|s| - 1]) * 10 + (s[|s| - 1] - C_0)
  {
    var front, last := s[..|s| - 1], s[|s| - 1];
    assert s == front + [last];
    FoldSnoc(acc, front, last);
  }

  lemma {:induction false} FoldIsPositive(s: Bytes)
    requires AllDigits(s) && s != [] && s[0] != C_0
    ensures Fold(0, s) > 0
    decreases |s|
  {
    FoldStep(0, s);
    if |s| > 1 {
      FoldIsPositive(s[..|s| - 1]);
    }
  }

  /** Digits without a leading zero are what the number prints. */
  lemma {:induction false} DecOfFold(s: Bytes)
    requires AllDigits(s) && s != [] && (|s| == 1 || s[0] != C_0)
    ensures Dec(Fold(0, s)) == s
    decreases |s|
  {
    FoldStep(0, s);
    var front := s[..|s| - 1];
    if |s| == 1 {
      assert Fold(0, front) == 0;
    } else {
      FoldIsPositive(front);
      DecOfFold(front);
      assert s == front + [s[|s| - 1]];
    }
  }

  /** A plus sign and digits, leading zeros and all. */
  predicate PlusSpelled(s: Bytes, i: int) {
    |s| > 1 && s[0] == PLUS && AllDigits(s[1..]) && Fold(0, s[1..]) == i
  }

  /** The parser reads an integer from its printed form, from plus-sign forms, and from nothing else. */
  lemma IntegerIsExact(s: Bytes, i: int)
    ensures ParseBencodedInt(s) == Some(i) <==> IsI64(i) && (s == DecInt(i) || PlusSpelled(s, i))
  {
    if IsI64(i) && s == DecInt(i) {
      IntReadsBack(i);
    } else if ParseBencodedInt(s) == Some(i) && s[0] != PLUS {
      IntegerIsPrinted(s, i);
    }
    hide DecInt;
    if PlusSpelled(s, i) && IsI64(i) {
      assert ParseI64(s) == Some(i);
    }
  }

  lemma IntegerIsPrinted(s: Bytes, i: int)
    requires ParseBencodedInt(s) == Some(i) && s[0] != PLUS
    ensures s == DecInt(i)
  {
    var body := if s[0] == MINUS then s[1..] else s;
    assert body != [] && AllDigits(body);
    DecOfFold(body);
    if s[0] == MINUS {
      assert s == [MINUS] + body;
      if body[0] != C_0 {
        FoldIsPositive(body);
      }
    }
    hide Fold;
  }
}
