/** The position-aware parser as an object: each method advances `pos` as the parse function of the same job says. */
module BencodeParser {
  import opened Common
  import opened Bencode

  datatype Outcome<+T> = Err(error: Error) | Val(value: T)

  /** What a method returns and where it leaves the position, against what a parse function yields. */
  ghost predicate Matches<T(!new)>(o: Outcome<T>, pos: nat, r: Parsed<T>) {
    match r
    case Fail(e) => o == Err(e)
    case Ok(v, p) => o == Val(v) && pos == p
  }

  class Parser {
    const input: Bytes
    var pos: nat

    constructor (input: Bytes)
      ensures this.input == input && pos == 0
    {
      this.input := input;
      pos := 0;
    }

    method Value(depth: nat) returns (r: Outcome<BVal>)
      requires pos <= |input|
      modifies this
      ensures Matches(r, pos, ParseValue(input, old(pos), depth))
      decreases |input| - pos, 1
    {
      if depth > MAX_DEPTH {
        return Err(TooDeep);
      }
      if pos >= |input| {
        return Err(Malformed);
      }
      var c := input[pos];
      if c == C_I {
        r := IntValue();
      } else if c == C_L {
        r := ListValue(depth);
      } else if c == C_D {
        r := DictValue(depth);
      } else if IsDigit(c) {
        var s := StringValue();
        r := if s.Err? then Err(s.error) else Val(Str(s.value));
      } else {
        r := Err(Malformed);
      }
    }

    method IntValue() returns (r: Outcome<BVal>)
      requires pos < |input|
      modifies this
      ensures Matches(r, pos, ParseInt(input, old(pos)))
    {
      pos := pos + 1;
      var start := pos;
      while true
        invariant start <= pos <= |input|
        invariant IntEnd(input, start, pos) == IntEnd(input, start, start)
        decreases |input| - pos
      {
        if pos >= |input| {
          return Err(Malformed);
        }
        if input[pos] == C_E {
          var i := ParseBencodedInt(input[start..pos]);
          pos := pos + 1;
          return if i.None? then Err(Malformed) else Val(Int(i.value));
        }
        pos := pos + 1;
        if pos - start > 24 {
          return Err(Malformed);
        }
      }
    }

    method LengthPrefix() returns (r: Outcome<nat>)
      requires pos <= |input|
      modifies this
      ensures Matches(r, pos, StringLen(input, old(pos), old(pos), 0))
    {
      var start := pos;
      var len: nat := 0;
      while true
        invariant start <= pos <= |input|
        invariant StringLen(input, start, pos, len) == StringLen(input, start, start, 0)
        decreases |input| - pos
      {
        if pos >= |input| {
          return Err(Malformed);
        }
        var c := input[pos];
        if IsDigit(c) {
          len := len * 10 + (c - C_0);
          if len > MAX_STR_LEN {
            return Err(TooLarge);
          }
        } else if c == COLON {
          if pos == start {
            return Err(Malformed);
          }
          pos := pos + 1;
          return Val(len);
        } else {
          return Err(Malformed);
        }
        pos := pos + 1;
        if pos - start > 10 {
          return Err(Malformed);
        }
      }
    }

    method StringValue() returns (r: Outcome<Bytes>)
      requires pos <= |input|
      modifies this
      ensures Matches(r, pos, ParseStr(input, old(pos)))
    {
      var len := LengthPrefix();
      if len.Err? {
        return Err(len.error);
      }
      if len.value > MAX_STR_LEN {
        return Err(TooLarge);
      }
      var end := pos + len.value;
      if end > |input| {
        return Err(Malformed);
      }
      r := Val(input[pos..end]);
      pos := end;
    }

    method ListValue(depth: nat) returns (r: Outcome<BVal>)
      requires pos < |input|
      modifies this
      ensures Matches(r, pos, ParseItems(input, old(pos) + 1, depth, []))
      decreases |input| - pos, 0
    {
      pos := pos + 1;
      var out := [];
      while true
        invariant old(pos) < pos <= |input|
        invariant ParseItems(input, pos, depth, out) == ParseItems(input, old(pos) + 1, depth, [])
        decreases |input| - pos
      {
        if pos >= |input| {
          return Err(Malformed);
        }
        if input[pos] == C_E {
          pos := pos + 1;
          return Val(List(out));
        }
        if |out| >= MAX_ITEMS {
          return Err(Full);
        }
        var v := Value(depth + 1);
        if v.Err? {
          return v;
        }
        out := out + [v.value];
      }
    }

    method DictValue(depth: nat) returns (r: Outcome<BVal>)
      requires pos < |input|
      modifies this
      ensures Matches(r, pos, ParseEntries(input, old(pos) + 1, depth, []))
      decreases |input| - pos, 0
    {
      pos := pos + 1;
      var out := [];
      while true
        invariant old(pos) < pos <= |input|
        invariant ParseEntries(input, pos, depth, out) == ParseEntries(input, old(pos) + 1, depth, [])
        decreases |input| - pos
      {
        if pos >= |input| {
          return Err(Malformed);
        }
        if input[pos] == C_E {
          pos := pos + 1;
          return Val(Dict(out));
        }
        if |out| >= MAX_ITEMS {
          return Err(Full);
        }
        var k := StringValue();
        if k.Err? {
          return Err(k.error);
        }
        var v := Value(depth + 1);
        if v.Err? {
          return v;
        }
        out := Put(out, Entry(k.value, v.value));
      }
    }

    method SkipString() returns (r: Outcome<()>)
      requires pos <= |input|
      modifies this
      ensures Matches(r, pos, SkipStr(input, old(pos)))
    {
      var len := LengthPrefix();
      if len.Err? {
        return Err(len.error);
      }
      pos := pos + len.value;
      r := if pos > |input| then Err(Malformed) else Val(());
    }

    method Skip(depth: nat) returns (r: Outcome<()>)
      requires pos <= |input|
      modifies this
      ensures Matches(r, pos, SkipValue(input, old(pos), depth))
      decreases |input| - pos, 1
    {
      if depth > MAX_DEPTH {
        return Err(TooDeep);
      }
      if pos >= |input| {
        return Err(Malformed);
      }
      var c := input[pos];
      if c == C_I {
        r := SkipInteger();
      } else if c == C_L {
        r := SkipList(depth);
      } else if c == C_D {
        r := SkipDict(depth);
      } else if IsDigit(c) {
        r := SkipString();
      } else {
        r := Err(Malformed);
      }
    }

    method SkipInteger() returns (r: Outcome<()>)
      requires pos < |input|
      modifies this
      ensures Matches(r, pos, SkipInt(input, old(pos) + 1, false))
    {
      pos := pos + 1;
      var sawDigit := false;
      while true
        invariant pos <= |input|
        invariant SkipInt(input, pos, sawDigit) == SkipInt(input, old(pos) + 1, false)
        decreases |input| - pos
      {
        if pos >= |input| {
          return Err(Malformed);
        }
        var c := input[pos];
        pos := pos + 1;
        if c == C_E {
          return if sawDigit then Val(()) else Err(Malformed);
        }
        if c == MINUS {
          continue;
        }
        if IsDigit(c) {
          sawDigit := true;
        } else {
          return Err(Malformed);
        }
      }
    }

    method SkipList(depth: nat) returns (r: Outcome<()>)
      requires pos < |input|
      modifies this
      ensures Matches(r, pos, SkipItems(input, old(pos) + 1, depth))
      decreases |input| - pos, 0
    {
      pos := pos + 1;
      while true
        invariant old(pos) < pos <= |input|
        invariant SkipItems(input, pos, depth) == SkipItems(input, old(pos) + 1, depth)
        decreases |input| - pos
      {
        if pos >= |input| {
          return Err(Malformed);
        }
        if input[pos] == C_E {
          pos := pos + 1;
          return Val(());
        }
        var v := Skip(depth + 1);
        if v.Err? {
          return v;
        }
      }
    }

    method SkipDict(depth: nat) returns (r: Outcome<()>)
      requires pos < |input|
      modifies this
      ensures Matches(r, pos, SkipEntries(input, old(pos) + 1, depth, 0))
      decreases |input| - pos, 0
    {
      pos := pos + 1;
      var items := 0;
      while true
        invariant old(pos) < pos <= |input|
        invariant SkipEntries(input, pos, depth, items) == SkipEntries(input, old(pos) + 1, depth, 0)
        decreases |input| - pos
      {
        if pos >= |input| {
          return Err(Malformed);
        }
        if input[pos] == C_E {
          pos := pos + 1;
          return Val(());
        }
        if !IsDigit(input[pos]) {
          return Err(Malformed);
        }
        var k := SkipString();
        if k.Err? {
          return k;
        }
        var v := Skip(depth + 1);
        if v.Err? {
          return v;
        }
        items := items + 1;
        if items > MAX_ITEMS {
          return Err(Full);
        }
      }
    }
  }

  /** Prints a value onto the end of a buffer. */
  method EncodeValue(v: BVal, buffer: Bytes) returns (out: Bytes)
    ensures out == buffer + Encode(v)
    decreases v, 0
  {
    match v
    case Int(i) =>
      out := buffer + [C_I] + DecInt(i) + [C_E];
    case Str(b) =>
      out := buffer + Dec(|b|) + [COLON] + b;
    case List(items) =>
      out := EncodeAll(items, buffer + [C_L]);
      out := out + [C_E];
    case Dict(entries) =>
      out := EncodeMap(entries, buffer + [C_D]);
      out := out + [C_E];
  }

  method EncodeAll(items: seq<BVal>, buffer: Bytes) returns (out: Bytes)
    ensures out == buffer + EncodeItems(items)
    decreases items, 1
  {
    hide Encode;
    out := buffer;
    var i := 0;
    assert items[0..] == items;
    while i < |items|
      invariant 0 <= i <= |items|
      invariant out + EncodeItems(items[i..]) == buffer + EncodeItems(items)
    {
      assert items[i..][1..] == items[i + 1..];
      out := EncodeValue(items[i], out);
      i := i + 1;
    }
  }

  method EncodeMap(entries: seq<Entry>, buffer: Bytes) returns (out: Bytes)
    ensures out == buffer + EncodeEntries(entries)
    decreases entries, 1
  {
    hide Encode, Dec;
    out := buffer;
    var i := 0;
    assert entries[0..] == entries;
    while i < |entries|
      invariant 0 <= i <= |entries|
      invariant out + EncodeEntries(entries[i..]) == buffer + EncodeEntries(entries)
    {
      var e := entries[i];
      assert entries[i..][1..] == entries[i + 1..];
      ghost var before := out;
      out := out + Dec(|e.key|) + [COLON] + e.key;
      assert out == before + EncodeStr(e.key);
      out := EncodeValue(e.val, out);
      i := i + 1;
    }
  }

  /** Walks the top-level dictionary of a metainfo file to the raw bytes of its "info" value. */
  method CaptureInfo(data: Bytes) returns (r: Outcome<Bytes>)
    ensures var c := CaptureInfoRaw(data);
      if c.Ok? then r == Val(c.value) else r == Err(c.error)
  {
    if data == [] || data[0] != C_D {
      return Err(MetaInfo);
    }
    var p := new Parser(data);
    p.pos := 1;
    while true
      invariant p.input == data && 1 <= p.pos <= |data|
      invariant CaptureFrom(data, p.pos) == CaptureFrom(data, 1)
      decreases |data| - p.pos
    {
      if p.pos >= |data| || data[p.pos] == C_E {
        return Err(MetaInfo);
      }
      var k := p.StringValue();
      if k.Err? {
        return Err(MetaInfo);
      }
      var start := p.pos;
      var v := p.Skip(0);
      if v.Err? {
        return Err(v.error);
      }
      if k.value == INFO {
        return Val(data[start..p.pos]);
      }
    }
  }
}
