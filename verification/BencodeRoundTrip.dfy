/** Parsing undoes printing, the walker stops where the parser stops, and the infohash preimage is exact. */
module BencodeRoundTrip {
  import opened Common
  import opened Bencode

  /** `s` stands in the input at `pos`. */
  predicate Stands(input: Bytes, pos: nat, s: Bytes) {
    pos + |s| <= |input| && input[pos..pos + |s|] == s
  }

  lemma StandsSplit(input: Bytes, pos: nat, a: Bytes, b: Bytes)
    requires Stands(input, pos, a + b)
    ensures Stands(input, pos, a) && Stands(input, pos + |a|, b) && pos + |a| + |b| <= |input|
  {
    assert input[pos..pos + |a|] == (a + b)[..|a|];
    assert input[pos + |a|..pos + |a| + |b|] == (a + b)[|a|..];
  }

  lemma StandsAt(input: Bytes, pos: nat, s: Bytes, i: nat)
    requires Stands(input, pos, s) && i < |s|
    ensures pos + i < |input| && input[pos + i] == s[i]
  {
    assert input[pos..pos + |s|][i] == s[i];
  }

  /** What the parser's limits allow at a nesting depth. */
  predicate Allowed(v: BVal, depth: nat)
    decreases v, 0
  {
    depth <= MAX_DEPTH &&
    match v
    case Int(i) => IsI64(i)
    case Str(b) => |b| <= MAX_STR_LEN
    case List(items) => |items| <= MAX_ITEMS && forall i :: 0 <= i < |items| ==> Allowed(items[i], depth + 1)
    case Dict(entries) =>
      && |entries| <= MAX_ITEMS && Sorted(entries)
      && forall i :: 0 <= i < |entries| ==> |entries[i].key| <= MAX_STR_LEN && Allowed(entries[i].val, depth + 1)
  }

  lemma {:induction false} AllowedHigher(v: BVal, depth: nat, depth': nat)
    requires Allowed(v, depth) && depth' <= depth
    ensures Allowed(v, depth')
    decreases v
  {
    match v
    case Int(i) =>
    case Str(b) =>
    case List(items) =>
      forall i | 0 <= i < |items|
        ensures Allowed(items[i], depth' + 1)
      {
        AllowedHigher(items[i], depth + 1, depth' + 1);
      }
    case Dict(entries) =>
      forall i | 0 <= i < |entries|
        ensures Allowed(entries[i].val, depth' + 1)
      {
        AllowedHigher(entries[i].val, depth + 1, depth' + 1);
      }
  }

  // ----- decimal numbers

  lemma {:induction false} FoldSnoc(acc: nat, s: Bytes, d: byte)
    requires AllDigits(s) && IsDigit(d)
    ensures Fold(acc, s + [d]) == Fold(acc, s) * 10 + (d - C_0)
    decreases |s|
  {
    if s == [] {
      assert (s + [d])[1..] == [];
    } else {
      FoldSnoc(acc * 10 + (s[0] - C_0), s[1..], d);
      assert (s + [d])[1..] == s[1..] + [d];
    }
  }

  lemma {:induction false} FoldDec(n: nat)
    ensures Fold(0, Dec(n)) == n
  {
    if n >= 10 {
      FoldDec(n / 10);
      FoldSnoc(0, Dec(n / 10), C_0 + n % 10);
    }
  }

  lemma {:induction false} FoldGrows(acc: nat, s: Bytes)
    requires AllDigits(s)
    ensures acc <= Fold(acc, s)
    decreases |s|
  {
    if s != [] {
      FoldGrows(acc * 10 + (s[0] - C_0), s[1..]);
    }
  }

  function Pow10(k: nat): nat {
    if k == 0 then 1 else 10 * Pow10(k - 1)
  }

  lemma {:induction false} DecLen(n: nat, k: nat)
    requires n < Pow10(k) && k > 0
    ensures |Dec(n)| <= k
  {
    if n >= 10 {
      assert Pow10(0) == 1;
      assert k > 1;
      DecLen(n / 10, k - 1);
    }
  }

  lemma {:induction false} DecFirst(n: nat)
    ensures Dec(n)[0] == C_0 ==> n == 0 && |Dec(n)| == 1
  {
    if n >= 10 {
      DecFirst(n / 10);
    }
  }

  lemma DecIntShort(i: int)
    requires IsI64(i)
    ensures |DecInt(i)| <= 20
  {
    assert Pow10(19) == 10_000_000_000_000_000_000 by {
      assert Pow10(4) == 10_000;
      assert Pow10(8) == 100_000_000;
      assert Pow10(12) == 1_000_000_000_000;
      assert Pow10(16) == 10_000_000_000_000_000;
    }
    DecLen(if i < 0 then -i else i, 19);
  }

  lemma IntReadsBack(i: int)
    requires IsI64(i)
    ensures ParseBencodedInt(DecInt(i)) == Some(i)
  {
    var n := if i < 0 then -i else i;
    FoldDec(n);
    DecFirst(n);
    if i < 0 {
      assert DecInt(i)[1..] == Dec(n);
    } else {
      assert IsDigit(DecInt(i)[0]);
    }
  }

  lemma {:induction false} IntEndFinds(input: Bytes, start: nat, pos: nat, rest: Bytes)
    requires start <= pos && Stands(input, pos, rest + [C_E])
    requires C_E !in rest && pos + |rest| - start <= 24
    ensures IntEnd(input, start, pos) == Ok((), pos + |rest|)
    decreases |rest|
  {
    StandsSplit(input, pos, rest, [C_E]);
    if rest == [] {
      StandsAt(input, pos, [C_E], 0);
    } else {
      StandsAt(input, pos, rest, 0);
      assert rest + [C_E] == rest[..1] + (rest[1..] + [C_E]);
      StandsSplit(input, pos, rest[..1], rest[1..] + [C_E]);
      IntEndFinds(input, start, pos + 1, rest[1..]);
    }
  }

  lemma DecIntChars(i: int)
    ensures DecInt(i) != [] && C_E !in DecInt(i)
    ensures forall j :: 0 <= j < |DecInt(i)| ==> IsDigit(DecInt(i)[j]) || DecInt(i)[j] == MINUS
    ensures IsDigit(DecInt(i)[|DecInt(i)| - 1])
  {
  }

  lemma IntRoundTrip(input: Bytes, pos: nat, i: int)
    requires IsI64(i) && Stands(input, pos, Encode(Int(i)))
    ensures ParseInt(input, pos) == Ok(Int(i), pos + |Encode(Int(i))|)
  {
    var text := DecInt(i);
    assert Encode(Int(i)) == [C_I] + (text + [C_E]);
    StandsSplit(input, pos, [C_I], text + [C_E]);
    DecIntShort(i);
    DecIntChars(i);
    IntEndFinds(input, pos + 1, pos + 1, text);
    StandsSplit(input, pos + 1, text, [C_E]);
    IntReadsBack(i);
  }

  // ----- strings

  lemma {:induction false} LenReadsBack(input: Bytes, start: nat, pos: nat, len: nat, digits: Bytes)
    requires start <= pos && AllDigits(digits) && (digits != [] || start < pos)
    requires Stands(input, pos, digits + [COLON])
    requires Fold(len, digits) <= MAX_STR_LEN && pos + |digits| - start <= 10
    ensures StringLen(input, start, pos, len) == Ok(Fold(len, digits), pos + |digits| + 1)
    decreases |digits|
  {
    StandsSplit(input, pos, digits, [COLON]);
    if digits == [] {
      StandsAt(input, pos, [COLON], 0);
    } else {
      StandsAt(input, pos, digits, 0);
      assert digits + [COLON] == digits[..1] + (digits[1..] + [COLON]);
      StandsSplit(input, pos, digits[..1], digits[1..] + [COLON]);
      var len' := len * 10 + (digits[0] - C_0);
      FoldGrows(len', digits[1..]);
      LenReadsBack(input, start, pos + 1, len', digits[1..]);
    }
  }

  /** A printed string reads back; the walker passes over it. */
  lemma StrRoundTrip(input: Bytes, pos: nat, b: Bytes)
    requires |b| <= MAX_STR_LEN && Stands(input, pos, EncodeStr(b))
    ensures ParseStr(input, pos) == Ok(b, pos + |EncodeStr(b)|)
    ensures SkipStr(input, pos) == Ok((), pos + |EncodeStr(b)|)
    ensures pos < |input| && IsDigit(input[pos])
  {
    var digits := Dec(|b|);
    FoldDec(|b|);
    assert Pow10(8) == 100_000_000 by { assert Pow10(4) == 10_000; }
    DecLen(|b|, 8);
    StandsSplit(input, pos, digits + [COLON], b);
    LenReadsBack(input, pos, pos, 0, digits);
    StandsAt(input, pos, EncodeStr(b), 0);
  }

  // ----- the tree parser

  lemma EncodeHead(v: BVal)
    ensures Encode(v) != [] && Encode(v)[0] != C_E
    ensures v.List? ==> Encode(v)[0] == C_L
    ensures v.Dict? ==> Encode(v)[0] == C_D
    ensures v.Int? ==> Encode(v)[0] == C_I
    ensures v.Str? ==> IsDigit(Encode(v)[0])
  {
  }

  /** Parsing undoes printing, at any place in any input. */
  lemma {:induction false} ValueRoundTrip(input: Bytes, pos: nat, v: BVal, depth: nat)
    requires Allowed(v, depth) && Stands(input, pos, Encode(v))
    ensures ParseValue(input, pos, depth) == Ok(v, pos + |Encode(v)|)
    decreases v, 0
  {
    hide Stands, EncodeItems, EncodeEntries, EncodeStr, DecInt, ParseInt, ParseStr, ParseItems, ParseEntries, SkipStr;
    EncodeHead(v);
    StandsAt(input, pos, Encode(v), 0);
    match v
    case Int(i) => IntRoundTrip(input, pos, i);
    case Str(b) => StrRoundTrip(input, pos, b);
    case List(items) =>
      assert Encode(v) == [C_L] + (EncodeItems(items) + [C_E]);
      StandsSplit(input, pos, [C_L], EncodeItems(items) + [C_E]);
      ItemsRoundTrip(input, pos + 1, [], items, depth);
      assert [] + items == items;
    case Dict(entries) =>
      assert Encode(v) == [C_D] + (EncodeEntries(entries) + [C_E]);
      StandsSplit(input, pos, [C_D], EncodeEntries(entries) + [C_E]);
      EntriesRoundTrip(input, pos + 1, [], entries, depth);
      assert [] + entries == entries;
  }

  lemma {:induction false} ItemsRoundTrip(input: Bytes, pos: nat, acc: seq<BVal>, items: seq<BVal>, depth: nat)
    requires |acc| + |items| <= MAX_ITEMS && forall i :: 0 <= i < |items| ==> Allowed(items[i], depth + 1)
    requires Stands(input, pos, EncodeItems(items) + [C_E])
    ensures ParseItems(input, pos, depth, acc) == Ok(List(acc + items), pos + |EncodeItems(items)| + 1)
    decreases items, 1
  {
    hide Stands, Encode, ParseValue;
    StandsSplit(input, pos, EncodeItems(items), [C_E]);
    if items == [] {
      StandsAt(input, pos, [C_E], 0);
      assert acc + items == acc;
    } else {
      var head, rest := Encode(items[0]), EncodeItems(items[1..]) + [C_E];
      assert EncodeItems(items) + [C_E] == head + rest;
      StandsSplit(input, pos, head, rest);
      EncodeHead(items[0]);
      StandsAt(input, pos, head, 0);
      ValueRoundTrip(input, pos, items[0], depth + 1);
      ItemsRoundTrip(input, pos + |head|, acc + [items[0]], items[1..], depth);
      assert acc + [items[0]] + items[1..] == acc + items;
    }
  }

  lemma {:induction false} EntriesRoundTrip(input: Bytes, pos: nat, acc: seq<Entry>, entries: seq<Entry>, depth: nat)
    requires |acc| + |entries| <= MAX_ITEMS && Sorted(acc + entries)
    requires forall i :: 0 <= i < |entries| ==> |entries[i].key| <= MAX_STR_LEN && Allowed(entries[i].val, depth + 1)
    requires Stands(input, pos, EncodeEntries(entries) + [C_E])
    ensures ParseEntries(input, pos, depth, acc) == Ok(Dict(acc + entries), pos + |EncodeEntries(entries)| + 1)
    decreases entries, 1
  {
    hide Stands, Encode, EncodeStr, ParseValue, ParseStr, Put, Sorted, SkipStr;
    StandsSplit(input, pos, EncodeEntries(entries), [C_E]);
    if entries == [] {
      StandsAt(input, pos, [C_E], 0);
      assert acc + entries == acc;
    } else {
      var e := entries[0];
      var key, val, rest := EncodeStr(e.key), Encode(e.val), EncodeEntries(entries[1..]) + [C_E];
      assert EncodeEntries(entries) + [C_E] == key + (val + rest);
      StandsSplit(input, pos, key, val + rest);
      StandsSplit(input, pos + |key|, val, rest);
      StrRoundTrip(input, pos, e.key);
      ValueRoundTrip(input, pos + |key|, e.val, depth + 1);
      SortedSnoc(acc, entries);
      PutLast(acc, e);
      assert acc + [e] + entries[1..] == acc + entries;
      EntriesRoundTrip(input, pos + |key| + |val|, acc + [e], entries[1..], depth);
    }
  }

  lemma SortedSnoc(acc: seq<Entry>, entries: seq<Entry>)
    requires entries != [] && Sorted(acc + entries)
    ensures forall i :: 0 <= i < |acc| ==> KeyLess(acc[i].key, entries[0].key)
  {
    forall i | 0 <= i < |acc|
      ensures KeyLess(acc[i].key, entries[0].key)
    {
      assert (acc + entries)[i] == acc[i] && (acc + entries)[|acc|] == entries[0];
    }
  }

  /** A printed value, alone in its input, parses to itself. */
  lemma ParseUndoesEncode(v: BVal)
    requires Allowed(v, 0)
    ensures Parse(Encode(v)) == Ok(v, |Encode(v)|)
  {
    ValueRoundTrip(Encode(v), 0, v, 0);
  }

  /** Hence two values within the limits never print alike. */
  lemma EncodeIsInjective(v: BVal, w: BVal)
    requires Allowed(v, 0) && Allowed(w, 0) && Encode(v) == Encode(w)
    ensures v == w
  {
    ParseUndoesEncode(v);
    ParseUndoesEncode(w);
  }

  // ----- the walker on printed values

  lemma {:induction false} SkipIntFinds(input: Bytes, pos: nat, text: Bytes, saw: bool)
    requires Stands(input, pos, text + [C_E])
    requires forall j :: 0 <= j < |text| ==> IsDigit(text[j]) || text[j] == MINUS
    requires saw || (text != [] && IsDigit(text[|text| - 1]))
    ensures SkipInt(input, pos, saw) == Ok((), pos + |text| + 1)
    decreases |text|
  {
    StandsSplit(input, pos, text, [C_E]);
    if text == [] {
      StandsAt(input, pos, [C_E], 0);
    } else {
      StandsAt(input, pos, text, 0);
      assert text + [C_E] == text[..1] + (text[1..] + [C_E]);
      StandsSplit(input, pos, text[..1], text[1..] + [C_E]);
      SkipIntFinds(input, pos + 1, text[1..], saw || IsDigit(text[0]));
    }
  }

  lemma {:induction false} SkipPassesValue(input: Bytes, pos: nat, v: BVal, depth: nat)
    requires Allowed(v, depth) && Stands(input, pos, Encode(v))
    ensures SkipValue(input, pos, depth) == Ok((), pos + |Encode(v)|)
    decreases v, 0
  {
    hide Stands, EncodeItems, EncodeEntries, EncodeStr, DecInt, SkipInt, SkipStr, SkipItems, SkipEntries, ParseStr, IsI64;
    EncodeHead(v);
    StandsAt(input, pos, Encode(v), 0);
    match v
    case Int(i) =>
      assert Encode(v) == [C_I] + (DecInt(i) + [C_E]);
      StandsSplit(input, pos, [C_I], DecInt(i) + [C_E]);
      DecIntChars(i);
      SkipIntFinds(input, pos + 1, DecInt(i), false);
    case Str(b) => StrRoundTrip(input, pos, b);
    case List(items) =>
      assert Encode(v) == [C_L] + (EncodeItems(items) + [C_E]);
      StandsSplit(input, pos, [C_L], EncodeItems(items) + [C_E]);
      SkipPassesItems(input, pos + 1, items, depth);
    case Dict(entries) =>
      assert Encode(v) == [C_D] + (EncodeEntries(entries) + [C_E]);
      StandsSplit(input, pos, [C_D], EncodeEntries(entries) + [C_E]);
      SkipPassesEntries(input, pos + 1, entries, depth, 0);
  }

  lemma {:induction false} SkipPassesItems(input: Bytes, pos: nat, items: seq<BVal>, depth: nat)
    requires forall i :: 0 <= i < |items| ==> Allowed(items[i], depth + 1)
    requires Stands(input, pos, EncodeItems(items) + [C_E])
    ensures SkipItems(input, pos, depth) == Ok((), pos + |EncodeItems(items)| + 1)
    decreases items, 1
  {
    hide Stands, Encode, SkipValue;
    StandsSplit(input, pos, EncodeItems(items), [C_E]);
    if items == [] {
      StandsAt(input, pos, [C_E], 0);
    } else {
      var head, rest := Encode(items[0]), EncodeItems(items[1..]) + [C_E];
      assert EncodeItems(items) + [C_E] == head + rest;
      StandsSplit(input, pos, head, rest);
      EncodeHead(items[0]);
      StandsAt(input, pos, head, 0);
      SkipPassesValue(input, pos, items[0], depth + 1);
      SkipPassesItems(input, pos + |head|, items[1..], depth);
    }
  }

  lemma {:induction false} SkipPassesEntries(input: Bytes, pos: nat, entries: seq<Entry>, depth: nat, items: nat)
    requires items + |entries| <= MAX_ITEMS
    requires forall i :: 0 <= i < |entries| ==> |entries[i].key| <= MAX_STR_LEN && Allowed(entries[i].val, depth + 1)
    requires Stands(input, pos, EncodeEntries(entries) + [C_E])
    ensures SkipEntries(input, pos, depth, items) == Ok((), pos + |EncodeEntries(entries)| + 1)
    decreases entries, 1
  {
    hide Stands, Encode, EncodeStr, SkipValue, SkipStr, ParseStr, Allowed, Sorted;
    StandsSplit(input, pos, EncodeEntries(entries), [C_E]);
    if entries == [] {
      StandsAt(input, pos, [C_E], 0);
    } else {
      var e := entries[0];
      var key, val, rest := EncodeStr(e.key), Encode(e.val), EncodeEntries(entries[1..]) + [C_E];
      assert EncodeEntries(entries) + [C_E] == key + (val + rest);
      StandsSplit(input, pos, key, val + rest);
      StandsSplit(input, pos + |key|, val, rest);
      StrRoundTrip(input, pos, e.key);
      SkipPassesValue(input, pos + |key|, e.val, depth + 1);
      assert |EncodeEntries(entries)| == |key| + |val| + |EncodeEntries(entries[1..])|;
      SkipPassesEntries(input, pos + |key| + |val|, entries[1..], depth, items + 1);
    }
  }

  // ----- agreement on arbitrary input

  lemma {:induction false} IntsAgree(input: Bytes, start: nat, pos: nat, saw: bool)
    requires start <= pos <= |input|
    requires IntEnd(input, start, pos).Ok? && SkipInt(input, pos, saw).Ok?
    ensures SkipInt(input, pos, saw).pos == IntEnd(input, start, pos).pos + 1
    decreases |input| - pos
  {
    if input[pos] != C_E {
      IntsAgree(input, start, pos + 1, saw || IsDigit(input[pos]));
    }
  }

  /** Wherever both accept, on any input whatever, they stop at the same offset. */
  lemma {:induction false} WalkerAgrees(input: Bytes, pos: nat, depth: nat)
    requires pos <= |input|
    requires ParseValue(input, pos, depth).Ok? && SkipValue(input, pos, depth).Ok?
    ensures ParseValue(input, pos, depth).pos == SkipValue(input, pos, depth).pos
    decreases |input| - pos, 0
  {
    var c := input[pos];
    if c == C_I {
      IntsAgree(input, pos + 1, pos + 1, false);
    } else if c == C_L {
      ItemsAgree(input, pos + 1, depth, []);
    } else if c == C_D {
      EntriesAgree(input, pos + 1, depth, [], 0);
    }
  }

  lemma {:induction false} ItemsAgree(input: Bytes, pos: nat, depth: nat, acc: seq<BVal>)
    requires pos <= |input|
    requires ParseItems(input, pos, depth, acc).Ok? && SkipItems(input, pos, depth).Ok?
    ensures ParseItems(input, pos, depth, acc).pos == SkipItems(input, pos, depth).pos
    decreases |input| - pos, 1
  {
    if input[pos] != C_E {
      WalkerAgrees(input, pos, depth + 1);
      var v := ParseValue(input, pos, depth + 1);
      ItemsAgree(input, v.pos, depth, acc + [v.value]);
    }
  }

  lemma {:induction false} EntriesAgree(input: Bytes, pos: nat, depth: nat, acc: seq<Entry>, items: nat)
    requires pos <= |input|
    requires ParseEntries(input, pos, depth, acc).Ok? && SkipEntries(input, pos, depth, items).Ok?
    ensures ParseEntries(input, pos, depth, acc).pos == SkipEntries(input, pos, depth, items).pos
    decreases |input| - pos, 1
  {
    hide Put, ParseValue, SkipValue, StringLen;
    if input[pos] != C_E {
      var k := ParseStr(input, pos);
      WalkerAgrees(input, k.pos, depth + 1);
      var v := ParseValue(input, k.pos, depth + 1);
      EntriesAgree(input, v.pos, depth, Put(acc, Entry(k.value, v.value)), items + 1);
    }
  }

  // ----- the infohash preimage

  lemma {:induction false} CaptureFinds(data: Bytes, pos: nat, entries: seq<Entry>, j: nat)
    requires j < |entries| && entries[j].key == INFO && forall i :: 0 <= i < j ==> entries[i].key != INFO
    requires forall i :: 0 <= i < |entries| ==> |entries[i].key| <= MAX_STR_LEN && Allowed(entries[i].val, 0)
    requires Stands(data, pos, EncodeEntries(entries))
    ensures CaptureFrom(data, pos).Ok? && CaptureFrom(data, pos).value == Encode(entries[j].val)
    decreases |entries|
  {
    hide Stands, Encode, EncodeStr, SkipValue, SkipStr, ParseStr;
    var e := entries[0];
    var key, val, rest := EncodeStr(e.key), Encode(e.val), EncodeEntries(entries[1..]);
    assert EncodeEntries(entries) == key + (val + rest);
    StandsSplit(data, pos, key, val + rest);
    StandsSplit(data, pos + |key|, val, rest);
    StrRoundTrip(data, pos, e.key);
    SkipPassesValue(data, pos + |key|, e.val, 0);
    if j > 0 {
      CaptureFinds(data, pos + |key| + |val|, entries[1..], j - 1);
    }
  }

  /** Of a printed dictionary, exactly the printed form of its "info" value is captured. */
  lemma CaptureIsExact(entries: seq<Entry>, j: nat)
    requires Allowed(Dict(entries), 0) && j < |entries| && entries[j].key == INFO
    ensures var r := CaptureInfoRaw(Encode(Dict(entries)));
      r.Ok? && r.value == Encode(entries[j].val)
  {
    var data := Encode(Dict(entries));
    forall i | 0 <= i < |entries|
      ensures Allowed(entries[i].val, 0)
      ensures i < j ==> entries[i].key != INFO
    {
      AllowedHigher(entries[i].val, 1, 0);
      KeyLessIrreflexive(INFO);
    }
    assert data[1..1 + |EncodeEntries(entries)|] == EncodeEntries(entries);
    CaptureFinds(data, 1, entries, j);
  }

  // ----- position independence

  /** A region of one input that occurs inside another. */
  predicate Embedded(s: Bytes, input: Bytes, off: nat) {
    off + |s| <= |input| && input[off..off + |s|] == s
  }

  lemma EmbeddedAt(s: Bytes, input: Bytes, off: nat, pos: nat)
    requires Embedded(s, input, off) && pos < |s|
    ensures input[off + pos] == s[pos]
  {
    assert input[off..off + |s|][pos] == s[pos];
  }

  lemma {:induction false} LenMoves(s: Bytes, input: Bytes, off: nat, start: nat, pos: nat, len: nat)
    requires Embedded(s, input, off) && start <= pos <= |s| && StringLen(s, start, pos, len).Ok?
    ensures var r := StringLen(s, start, pos, len);
      StringLen(input, off + start, off + pos, len) == Ok(r.value, off + r.pos)
    decreases |s| - pos
  {
    EmbeddedAt(s, input, off, pos);
    if IsDigit(s[pos]) {
      LenMoves(s, input, off, start, pos + 1, len * 10 + (s[pos] - C_0));
    }
  }

  lemma {:induction false} SkipIntMoves(s: Bytes, input: Bytes, off: nat, pos: nat, saw: bool)
    requires Embedded(s, input, off) && pos <= |s| && SkipInt(s, pos, saw).Ok?
    ensures SkipInt(input, off + pos, saw) == Ok((), off + SkipInt(s, pos, saw).pos)
    decreases |s| - pos
  {
    EmbeddedAt(s, input, off, pos);
    if s[pos] != C_E {
      SkipIntMoves(s, input, off, pos + 1, saw || IsDigit(s[pos]));
    }
  }

  lemma SkipStrMoves(s: Bytes, input: Bytes, off: nat, pos: nat)
    requires Embedded(s, input, off) && pos <= |s| && SkipStr(s, pos).Ok?
    ensures SkipStr(input, off + pos) == Ok((), off + SkipStr(s, pos).pos)
  {
    LenMoves(s, input, off, pos, pos, 0);
  }

  /** What the walker accepts in one input it accepts wherever that input is embedded. */
  lemma {:induction false} SkipMoves(s: Bytes, input: Bytes, off: nat, pos: nat, depth: nat)
    requires Embedded(s, input, off) && pos <= |s| && SkipValue(s, pos, depth).Ok?
    ensures SkipValue(input, off + pos, depth) == Ok((), off + SkipValue(s, pos, depth).pos)
    decreases |s| - pos, 0
  {
    EmbeddedAt(s, input, off, pos);
    var c := s[pos];
    if c == C_I {
      SkipIntMoves(s, input, off, pos + 1, false);
    } else if c == C_L {
      SkipItemsMoves(s, input, off, pos + 1, depth);
    } else if c == C_D {
      SkipEntriesMoves(s, input, off, pos + 1, depth, 0);
    } else {
      LenMoves(s, input, off, pos, pos, 0);
    }
  }

  lemma {:induction false} SkipItemsMoves(s: Bytes, input: Bytes, off: nat, pos: nat, depth: nat)
    requires Embedded(s, input, off) && pos <= |s| && SkipItems(s, pos, depth).Ok?
    ensures SkipItems(input, off + pos, depth) == Ok((), off + SkipItems(s, pos, depth).pos)
    decreases |s| - pos, 1
  {
    EmbeddedAt(s, input, off, pos);
    if s[pos] != C_E {
      SkipMoves(s, input, off, pos, depth + 1);
      SkipItemsMoves(s, input, off, SkipValue(s, pos, depth + 1).pos, depth);
    }
  }

  lemma {:induction false} SkipEntriesMoves(s: Bytes, input: Bytes, off: nat, pos: nat, depth: nat, items: nat)
    requires Embedded(s, input, off) && pos <= |s| && SkipEntries(s, pos, depth, items).Ok?
    ensures SkipEntries(input, off + pos, depth, items) == Ok((), off + SkipEntries(s, pos, depth, items).pos)
    decreases |s| - pos, 1
  {
    hide SkipValue, StringLen, SkipStr;
    EmbeddedAt(s, input, off, pos);
    if s[pos] != C_E {
      SkipStrMoves(s, input, off, pos);
      var k := SkipStr(s, pos);
      SkipMoves(s, input, off, k.pos, depth + 1);
      SkipEntriesMoves(s, input, off, SkipValue(s, k.pos, depth + 1).pos, depth, items + 1);
    }
  }

  /** Any info dictionary the walker accepts as a whole survives being wrapped, byte for byte. */
  lemma WrappedInfoIsExact(raw: Bytes)
    requires SkipValue(raw, 0, 0) == Ok((), |raw|)
    ensures var r := CaptureInfoRaw(WrapInfo(raw));
      r.Ok? && r.value == raw
  {
    var data := WrapInfo(raw);
    assert EncodeStr(INFO) == [52, COLON] + INFO;
    assert Stands(data, 1, EncodeStr(INFO));
    StrRoundTrip(data, 1, INFO);
    assert Embedded(raw, data, 7);
    SkipMoves(raw, data, 7, 0, 0);
  }
}
