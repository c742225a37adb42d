/**
  Bencoding (BEP 3): values, their printed form, the tree parser and the walker that only skips.

  The ordered map of a dictionary is its list of entries, strictly sorted by key bytes.
  A parse function takes the input and a position and yields a value and the next position.
*/
module Bencode {
  import opened Common

  const MAX_DEPTH := 64
  const MAX_STR_LEN := 16 * 1024 * 1024
  const MAX_ITEMS := 1_000_000

  datatype BVal = Int(i: int) | Str(b: Bytes) | List(items: seq<BVal>) | Dict(entries: seq<Entry>)
  datatype Entry = Entry(key: Bytes, val: BVal)

  datatype Error = Malformed | TooDeep | TooLarge | Full | MetaInfo
  datatype Parsed<+T> = Fail(error: Error) | Ok(value: T, pos: nat)

  // ----- characters

  const C_0: byte := 48
  const C_9: byte := 57
  const COLON: byte := 58
  const MINUS: byte := 45
  const PLUS: byte := 43
  const C_D: byte := 100
  const C_E: byte := 101
  const C_I: byte := 105
  const C_L: byte := 108

  predicate IsDigit(c: byte) {
    C_0 <= c <= C_9
  }

  predicate AllDigits(s: Bytes) {
    forall i :: 0 <= i < |s| ==> IsDigit(s[i])
  }

  // ----- ordered maps

  predicate KeyLess(a: Bytes, b: Bytes)
    decreases |a|
  {
    b != [] && (a == [] || a[0] < b[0] || (a[0] == b[0] && KeyLess(a[1..], b[1..])))
  }

  /** Insertion into an ordered map; an entry with the same key is replaced. */
  function Put(m: seq<Entry>, e: Entry): seq<Entry> {
    if m == [] then [e]
    else if m[0].key == e.key then [e] + m[1..]
    else if KeyLess(m[0].key, e.key) then [m[0]] + Put(m[1..], e)
    else [e] + m
  }

  predicate Sorted(m: seq<Entry>) {
    forall i, j :: 0 <= i < j < |m| ==> KeyLess(m[i].key, m[j].key)
  }

  lemma {:induction false} KeyLessIrreflexive(a: Bytes)
    ensures !KeyLess(a, a)
    decreases |a|
  {
    if a != [] {
      KeyLessIrreflexive(a[1..]);
    }
  }

  /** A key above all others goes to the end. */
  lemma {:induction false} PutLast(m: seq<Entry>, e: Entry)
    requires forall i :: 0 <= i < |m| ==> KeyLess(m[i].key, e.key)
    ensures Put(m, e) == m + [e]
    decreases |m|
  {
    if m != [] {
      KeyLessIrreflexive(e.key);
      PutLast(m[1..], e);
    }
  }

  // ----- printing

  /** Decimal digits of a natural number. */
  function Dec(n: nat): (s: Bytes)
    ensures s != [] && AllDigits(s)
  {
    if n < 10 then [C_0 + n] else Dec(n / 10) + [C_0 + n % 10]
  }

  function DecInt(i: int): Bytes {
    if i < 0 then [MINUS] + Dec(-i) else Dec(i)
  }

  function EncodeStr(b: Bytes): Bytes {
    Dec(|b|) + [COLON] + b
  }

  function Encode(v: BVal): Bytes
    decreases v, 0
  {
    match v
    case Int(i) => [C_I] + DecInt(i) + [C_E]
    case Str(b) => EncodeStr(b)
    case List(items) => [C_L] + EncodeItems(items) + [C_E]
    case Dict(entries) => [C_D] + EncodeEntries(entries) + [C_E]
  }

  function EncodeItems(items: seq<BVal>): Bytes
    decreases items, 1
  {
    if items == [] then [] else Encode(items[0]) + EncodeItems(items[1..])
  }

  function EncodeEntries(entries: seq<Entry>): Bytes
    decreases entries, 1
  {
    if entries == [] then []
    else EncodeStr(entries[0].key) + Encode(entries[0].val) + EncodeEntries(entries[1..])
  }

  // ----- integers

  /** Left-to-right value of decimal digits after a prefix worth `acc`. */
  function Fold(acc: nat, s: Bytes): nat
    requires AllDigits(s)
    decreases |s|
  {
    if s == [] then acc else Fold(acc * 10 + (s[0] - C_0), s[1..])
  }

  predicate IsI64(i: int) {
    -0x8000_0000_0000_0000 <= i < 0x8000_0000_0000_0000
  }

  /** The standard integer parser: an optional sign, then at least one digit, in range. */
  function ParseI64(s: Bytes): Option<int> {
    if s == [] then None
    else
      var signed := s[0] == MINUS || s[0] == PLUS;
      var digits := if signed then s[1..] else s;
      if digits == [] || !AllDigits(digits) then None
      else
        var n: int := Fold(0, digits);
        var i := if s[0] == MINUS then -n else n;
        if IsI64(i) then Some(i) else None
  }

  /** Leading zeros and minus zero are refused. */
  function ParseBencodedInt(s: Bytes): Option<int> {
    if s == [] then None
    else
      var body := if s[0] == MINUS then s[1..] else s;
      if |body| > 1 && body[0] == C_0 then None
      else if body == [C_0] && s[0] == MINUS then None
      else ParseI64(s)
  }

  /** Position of the closing 'e' of an integer that starts at `start`, scanning from `pos`. */
  function IntEnd(input: Bytes, start: nat, pos: nat): (r: Parsed<()>)
    requires start <= pos <= |input|
    ensures r.Ok? ==> pos <= r.pos < |input|
    decreases |input| - pos
  {
    if pos >= |input| then Fail(Malformed)
    else if input[pos] == C_E then Ok((), pos)
    else if pos + 1 - start > 24 then Fail(Malformed)
    else IntEnd(input, start, pos + 1)
  }

  function ParseInt(input: Bytes, pos: nat): (r: Parsed<BVal>)
    requires pos < |input|
    ensures r.Ok? ==> pos < r.pos <= |input|
  {
    var end := IntEnd(input, pos + 1, pos + 1);
    if end.Fail? then Fail(end.error)
    else
      var i := ParseBencodedInt(input[pos + 1..end.pos]);
      if i.None? then Fail(Malformed) else Ok(Int(i.value), end.pos + 1)
  }

  // ----- strings

  /** The length prefix of a string: digits up to a colon. */
  function StringLen(input: Bytes, start: nat, pos: nat, len: nat): (r: Parsed<nat>)
    requires start <= pos <= |input|
    ensures r.Ok? ==> pos < r.pos <= |input|
    decreases |input| - pos
  {
    if pos >= |input| then Fail(Malformed)
    else
      var c := input[pos];
      if IsDigit(c) then
        var len' := len * 10 + (c - C_0);
        if len' > MAX_STR_LEN then Fail(TooLarge)
        else if pos + 1 - start > 10 then Fail(Malformed)
        else StringLen(input, start, pos + 1, len')
      else if c == COLON && pos != start then Ok(len, pos + 1)
      else Fail(Malformed)
  }

  function ParseStr(input: Bytes, pos: nat): (r: Parsed<Bytes>)
    requires pos <= |input|
    ensures r.Ok? ==> pos < r.pos <= |input|
  {
    var n := StringLen(input, pos, pos, 0);
    if n.Fail? then Fail(n.error)
    else if n.value > MAX_STR_LEN then Fail(TooLarge)
    else if n.pos + n.value > |input| then Fail(Malformed)
    else Ok(input[n.pos..n.pos + n.value], n.pos + n.value)
  }

  // ----- the tree parser

  function ParseValue(input: Bytes, pos: nat, depth: nat): (r: Parsed<BVal>)
    requires pos <= |input|
    ensures r.Ok? ==> pos < r.pos <= |input|
    decreases |input| - pos, 0
  {
    if depth > MAX_DEPTH then Fail(TooDeep)
    else if pos >= |input| then Fail(Malformed)
    else
      var c := input[pos];
      if c == C_I then ParseInt(input, pos)
      else if c == C_L then ParseItems(input, pos + 1, depth, [])
      else if c == C_D then ParseEntries(input, pos + 1, depth, [])
      else if IsDigit(c) then
        var s := ParseStr(input, pos);
        if s.Fail? then Fail(s.error) else Ok(Str(s.value), s.pos)
      else Fail(Malformed)
  }

  function ParseItems(input: Bytes, pos: nat, depth: nat, acc: seq<BVal>): (r: Parsed<BVal>)
    requires pos <= |input|
    ensures r.Ok? ==> pos < r.pos <= |input|
    decreases |input| - pos, 1
  {
    if pos >= |input| then Fail(Malformed)
    else if input[pos] == C_E then Ok(List(acc), pos + 1)
    else if |acc| >= MAX_ITEMS then Fail(Full)
    else
      var v := ParseValue(input, pos, depth + 1);
      if v.Fail? then Fail(v.error) else ParseItems(input, v.pos, depth, acc + [v.value])
  }

  function ParseEntries(input: Bytes, pos: nat, depth: nat, acc: seq<Entry>): (r: Parsed<BVal>)
    requires pos <= |input|
    ensures r.Ok? ==> pos < r.pos <= |input|
    decreases |input| - pos, 1
  {
    if pos >= |input| then Fail(Malformed)
    else if input[pos] == C_E then Ok(Dict(acc), pos + 1)
    else if |acc| >= MAX_ITEMS then Fail(Full)
    else
      var k := ParseStr(input, pos);
      if k.Fail? then Fail(k.error)
      else
        var v := ParseValue(input, k.pos, depth + 1);
        if v.Fail? then Fail(v.error) else ParseEntries(input, v.pos, depth, Put(acc, Entry(k.value, v.value)))
  }

  /** A whole input is one value. */
  function Parse(input: Bytes): Parsed<BVal> {
    var v := ParseValue(input, 0, 0);
    if v.Ok? && v.pos != |input| then Fail(Malformed) else v
  }

  // ----- the walker

  function SkipInt(input: Bytes, pos: nat, sawDigit: bool): (r: Parsed<()>)
    requires pos <= |input|
    ensures r.Ok? ==> pos < r.pos <= |input|
    decreases |input| - pos
  {
    if pos >= |input| then Fail(Malformed)
    else
      var c := input[pos];
      if c == C_E then (if sawDigit then Ok((), pos + 1) else Fail(Malformed))
      else if c == MINUS then SkipInt(input, pos + 1, sawDigit)
      else if IsDigit(c) then SkipInt(input, pos + 1, true)
      else Fail(Malformed)
  }

  function SkipStr(input: Bytes, pos: nat): (r: Parsed<()>)
    requires pos <= |input|
    ensures r.Ok? ==> pos < r.pos <= |input|
  {
    var n := StringLen(input, pos, pos, 0);
    if n.Fail? then Fail(n.error)
    else if n.pos + n.value > |input| then Fail(Malformed)
    else Ok((), n.pos + n.value)
  }

  function SkipValue(input: Bytes, pos: nat, depth: nat): (r: Parsed<()>)
    requires pos <= |input|
    ensures r.Ok? ==> pos < r.pos <= |input|
    decreases |input| - pos, 0
  {
    if depth > MAX_DEPTH then Fail(TooDeep)
    else if pos >= |input| then Fail(Malformed)
    else
      var c := input[pos];
      if c == C_I then SkipInt(input, pos + 1, false)
      else if c == C_L then SkipItems(input, pos + 1, depth)
      else if c == C_D then SkipEntries(input, pos + 1, depth, 0)
      else if IsDigit(c) then SkipStr(input, pos)
      else Fail(Malformed)
  }

  function SkipItems(input: Bytes, pos: nat, depth: nat): (r: Parsed<()>)
    requires pos <= |input|
    ensures r.Ok? ==> pos < r.pos <= |input|
    decreases |input| - pos, 1
  {
    if pos >= |input| then Fail(Malformed)
    else if input[pos] == C_E then Ok((), pos + 1)
    else
      var v := SkipValue(input, pos, depth + 1);
      if v.Fail? then v else SkipItems(input, v.pos, depth)
  }

  function SkipEntries(input: Bytes, pos: nat, depth: nat, items: nat): (r: Parsed<()>)
    requires pos <= |input|
    ensures r.Ok? ==> pos < r.pos <= |input|
    decreases |input| - pos, 1
  {
    if pos >= |input| then Fail(Malformed)
    else if input[pos] == C_E then Ok((), pos + 1)
    else if !IsDigit(input[pos]) then Fail(Malformed)
    else
      var k := SkipStr(input, pos);
      if k.Fail? then k
      else
        var v := SkipValue(input, k.pos, depth + 1);
        if v.Fail? then v
        else if items + 1 > MAX_ITEMS then Fail(Full)
        else SkipEntries(input, v.pos, depth, items + 1)
  }

  // ----- the infohash preimage

  const INFO: Bytes := [105, 110, 102, 111]

  function CaptureFrom(data: Bytes, pos: nat): (r: Parsed<Bytes>)
    requires pos <= |data|
    decreases |data| - pos
  {
    if pos >= |data| || data[pos] == C_E then Fail(MetaInfo)
    else
      var k := ParseStr(data, pos);
      if k.Fail? then Fail(MetaInfo)
      else
        var v := SkipValue(data, k.pos, 0);
        if v.Fail? then Fail(v.error)
        else if k.value == INFO then Ok(data[k.pos..v.pos], v.pos)
        else CaptureFrom(data, v.pos)
  }

  /** The raw bytes of the value of "info" in a top-level dictionary. */
  function CaptureInfoRaw(data: Bytes): Parsed<Bytes> {
    if data == [] || data[0] != C_D then Fail(MetaInfo) else CaptureFrom(data, 1)
  }

  /** The metainfo file that is wrapped around an info dictionary fetched from peers. */
  function WrapInfo(raw: Bytes): Bytes {
    [C_D, 52, COLON] + INFO + raw + [C_E]
  }
}
