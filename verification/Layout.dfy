/**
 * How the pieces of a torrent lie over its files (`src/metainfo.rs`): v1
 * pieces cut the concatenation of all files, v2 pieces cut each file.
 */
module Layout {
  import opened Common

  type Digest = seq<byte>

  datatype Kind = V1 | V2 | Hybrid

  datatype File = File(length: nat, root: Option<Digest>)

  datatype Torrent = Torrent(pieceLength: nat, total: nat, files: seq<File>, kind: Kind, v2Hashes: Option<seq<Digest>>)

  datatype PieceInfo = PieceInfo(file: nat, offset: nat, len: nat)

  datatype Result<T> = Ok(value: T) | RangeError | MetaInfoError

  const U32: nat := 0x1_0000_0000

  // ---------------------------------------------------------------------
  // Cutting a stretch into pieces
  // ---------------------------------------------------------------------

  /** Where the r-th piece of a stretch starts. */
  function At(r: nat, pl: nat): nat {
    if r == 0 then 0 else At(r - 1, pl) + pl
  }

  /** The piece of a stretch that holds its o-th byte. */
  function Quot(o: nat, pl: nat): nat
    requires pl > 0
    decreases o
  {
    if o < pl then 0 else 1 + Quot(o - pl, pl)
  }

  /** The pieces a stretch is cut into: full ones, and one for what is left over. */
  function Pieces(len: nat, pl: nat): nat
    requires pl > 0
    decreases len
  {
    if len == 0 then 0 else if len <= pl then 1 else 1 + Pieces(len - pl, pl)
  }

  lemma {:induction false} AtIsTimes(r: nat, pl: nat)
    ensures At(r, pl) == r * pl
  {
    if r > 0 {
      AtIsTimes(r - 1, pl);
      assert r * pl == (r - 1) * pl + pl;
    }
  }

  lemma DivStep(a: nat, b: nat)
    requires 0 < b <= a
    ensures a / b == (a - b) / b + 1
  {
    var q := (a - b) / b;
    assert q * b <= a - b < q * b + b;
    assert (q + 1) * b == q * b + b;
    DivIs(a, b, q + 1);
  }

  lemma DivIs(a: nat, b: nat, q: nat)
    requires b > 0 && q * b <= a < q * b + b
    ensures a / b == q
  {
    var p := a / b;
    assert p * b <= a < p * b + b;
    assert q > p ==> (p + 1) * b <= q * b;
    assert p > q ==> (q + 1) * b <= p * b;
  }

  /** The source's rounded-up division. */
  lemma {:induction false} PiecesIsCeiling(len: nat, pl: nat)
    requires pl > 0
    ensures Pieces(len, pl) == (len + pl - 1) / pl
    decreases len
  {
    if len > pl {
      PiecesIsCeiling(len - pl, pl);
      DivStep(len + pl - 1, pl);
    } else if len > 0 {
      DivStep(len + pl - 1, pl);
    }
  }

  lemma {:induction false} PieceStartsInside(len: nat, pl: nat, r: nat)
    requires pl > 0 && r < Pieces(len, pl)
    ensures At(r, pl) < len
    decreases len
  {
    if r > 0 {
      PieceStartsInside(len - pl, pl, r - 1);
    }
  }

  lemma {:induction false} PiecesCover(len: nat, pl: nat)
    requires pl > 0
    ensures At(Pieces(len, pl), pl) >= len
    decreases len
  {
    if len > pl {
      PiecesCover(len - pl, pl);
    }
  }

  lemma {:induction false} QuotIsInside(len: nat, pl: nat, o: nat)
    requires pl > 0 && o < len
    ensures Quot(o, pl) < Pieces(len, pl)
    decreases o
  {
    if o >= pl {
      QuotIsInside(len - pl, pl, o - pl);
    }
  }

  lemma {:induction false} QuotIs(pl: nat, o: nat, r: nat)
    requires pl > 0
    ensures Quot(o, pl) == r <==> At(r, pl) <= o < At(r, pl) + pl
    decreases o
  {
    if o >= pl && r > 0 {
      QuotIs(pl, o - pl, r - 1);
    } else if o < pl && r > 0 {
      AtIsFar(r, pl);
    }
  }

  lemma {:induction false} AtIsFar(r: nat, pl: nat)
    requires r > 0
    ensures At(r, pl) >= pl
  {
    if r > 1 {
      AtIsFar(r - 1, pl);
    }
  }

  // ---------------------------------------------------------------------
  // Running sums
  // ---------------------------------------------------------------------

  /** The sum of the first n numbers. */
  function SumTo(w: seq<nat>, n: nat): nat
    requires n <= |w|
  {
    if n == 0 then 0 else SumTo(w, n - 1) + w[n - 1]
  }

  function Sum(w: seq<nat>): nat {
    SumTo(w, |w|)
  }

  lemma {:induction false} SumIsMonotone(w: seq<nat>, m: nat, n: nat)
    requires m <= n <= |w|
    ensures SumTo(w, m) <= SumTo(w, n)
    decreases n
  {
    if m < n {
      SumIsMonotone(w, m, n - 1);
    }
  }

  /** x falls into the j-th of consecutive stretches of these lengths. */
  predicate InSlot(w: seq<nat>, j: nat, x: nat)
    requires j < |w|
  {
    SumTo(w, j) <= x < SumTo(w, j) + w[j]
  }

  lemma SlotIsUnique(w: seq<nat>, i: nat, j: nat, x: nat)
    requires i < |w| && j < |w| && InSlot(w, i, x) && InSlot(w, j, x)
    ensures i == j
  {
    if i < j {
      SumIsMonotone(w, i + 1, j);
    } else if j < i {
      SumIsMonotone(w, j + 1, i);
    }
  }

  lemma SlotIsBelowSum(w: seq<nat>, j: nat, x: nat)
    requires j < |w| && InSlot(w, j, x)
    ensures x < Sum(w)
  {
    SumIsMonotone(w, j + 1, |w|);
  }

  function SlotFrom(w: seq<nat>, x: nat, k: nat): (j: nat)
    requires k <= |w| && SumTo(w, k) <= x < Sum(w)
    ensures j < |w| && InSlot(w, j, x)
    decreases |w| - k
  {
    if x < SumTo(w, k) + w[k] then k else SlotFrom(w, x, k + 1)
  }

  function Slot(w: seq<nat>, x: nat): (j: nat)
    requires x < Sum(w)
    ensures j < |w| && InSlot(w, j, x)
  {
    SlotFrom(w, x, 0)
  }

  // ---------------------------------------------------------------------
  // Spans of pieces
  // ---------------------------------------------------------------------

  function Counts(units: seq<nat>, pl: nat): (c: seq<nat>)
    requires pl > 0
    ensures |c| == |units|
    ensures forall j :: 0 <= j < |units| ==> c[j] == Pieces(units[j], pl)
  {
    if units == [] then [] else Counts(units[..|units| - 1], pl) + [Pieces(units[|units| - 1], pl)]
  }

  /** The bytes of piece i, when each unit is cut into pieces of its own: first byte and length. */
  function Span(units: seq<nat>, pl: nat, i: nat): (nat, nat)
    requires pl > 0 && i < Sum(Counts(units, pl))
  {
    var c := Counts(units, pl);
    var u := Slot(c, i);
    var rel := At(i - SumTo(c, u), pl);
    PieceStartsInside(units[u], pl, i - SumTo(c, u));
    (SumTo(units, u) + rel, Min(pl, units[u] - rel))
  }

  /** The piece that holds a byte, computed from the byte. */
  function PieceOf(units: seq<nat>, pl: nat, b: nat): nat
    requires pl > 0 && b < Sum(units)
  {
    var u := Slot(units, b);
    SumTo(Counts(units, pl), u) + Quot(b - SumTo(units, u), pl)
  }

  ghost predicate InSpan(units: seq<nat>, pl: nat, i: nat, b: nat)
    requires pl > 0 && i < Sum(Counts(units, pl))
  {
    var (start, len) := Span(units, pl, i);
    start <= b < start + len
  }

  /** Every byte lies in exactly one piece: the one computed from it. */
  lemma PiecesTile(units: seq<nat>, pl: nat, b: nat)
    requires pl > 0 && b < Sum(units)
    ensures PieceOf(units, pl, b) < Sum(Counts(units, pl))
    ensures forall i: nat :: i < Sum(Counts(units, pl)) ==> (InSpan(units, pl, i, b) <==> i == PieceOf(units, pl, b))
  {
    var c, u, p := Counts(units, pl), Slot(units, b), PieceOf(units, pl, b);
    var o := b - SumTo(units, u);
    QuotIsInside(units[u], pl, o);
    assert InSlot(c, u, p);
    SlotIsBelowSum(c, u, p);
    forall i: nat | i < Sum(c) ensures InSpan(units, pl, i, b) <==> i == p {
      InSpanIff(units, pl, i, b);
    }
  }

  lemma InSpanIff(units: seq<nat>, pl: nat, i: nat, b: nat)
    requires pl > 0 && b < Sum(units) && i < Sum(Counts(units, pl))
    ensures InSpan(units, pl, i, b) <==> i == PieceOf(units, pl, b)
  {
    var c := Counts(units, pl);
    var u, v := Slot(c, i), Slot(units, b);
    PieceStartsInside(units[u], pl, i - SumTo(c, u));
    if InSpan(units, pl, i, b) {
      assert InSlot(units, u, b);
      SlotIsUnique(units, u, v, b);
      QuotIs(pl, b - SumTo(units, u), i - SumTo(c, u));
    }
    if i == PieceOf(units, pl, b) {
      QuotIsInside(units[v], pl, b - SumTo(units, v));
      assert InSlot(c, v, i);
      SlotIsUnique(c, u, v, i);
      QuotIs(pl, b - SumTo(units, u), i - SumTo(c, u));
    }
  }

  /** The lengths of the first n pieces, summed. */
  function LengthOf(units: seq<nat>, pl: nat, n: nat): nat
    requires pl > 0 && n <= Sum(Counts(units, pl))
  {
    if n == 0 then 0 else LengthOf(units, pl, n - 1) + Span(units, pl, n - 1).1
  }

  /** The r-th piece of unit u. */
  lemma SpanOf(units: seq<nat>, pl: nat, u: nat, r: nat, i: nat)
    requires pl > 0 && u < |units| && r < Pieces(units[u], pl)
    requires i == SumTo(Counts(units, pl), u) + r
    ensures i < Sum(Counts(units, pl)) && At(r, pl) < units[u]
    ensures Span(units, pl, i).0 == SumTo(units, u) + At(r, pl)
    ensures Span(units, pl, i).1 == Min(pl, units[u] - At(r, pl))
  {
    hide SumTo, At, Pieces, Counts, Slot;
    assert InSlot(Counts(units, pl), u, i);
    SlotIs(Counts(units, pl), u, i);
    PieceStartsInside(units[u], pl, r);
    hide InSlot, Sum;
  }

  lemma SlotIs(w: seq<nat>, j: nat, x: nat)
    requires j < |w| && InSlot(w, j, x)
    ensures x < Sum(w) && Slot(w, x) == j
  {
    SlotIsBelowSum(w, j, x);
    SlotIsUnique(w, j, Slot(w, x), x);
  }

  /** Inside unit u, the pieces so far add up to the bytes so far. */
  lemma {:induction false} PiecesAddUp(units: seq<nat>, pl: nat, u: nat, r: nat)
    requires pl > 0 && u < |units| && r <= Pieces(units[u], pl)
    ensures SumTo(Counts(units, pl), u) + r <= Sum(Counts(units, pl))
    ensures LengthOf(units, pl, SumTo(Counts(units, pl), u) + r) == SumTo(units, u) + Min(At(r, pl), units[u])
    decreases u, r
  {
    hide Span, Slot, Counts, Pieces;
    var c := Counts(units, pl);
    SumIsMonotone(c, u + 1, |c|);
    if r > 0 {
      SpanOf(units, pl, u, r - 1, SumTo(c, u) + r - 1);
      PiecesAddUp(units, pl, u, r - 1);
    } else if u > 0 {
      PiecesAddUp(units, pl, u - 1, c[u - 1]);
      PiecesCover(units[u - 1], pl);
    }
  }

  lemma SpanStarts(units: seq<nat>, pl: nat, i: nat)
    requires pl > 0 && i < Sum(Counts(units, pl))
    ensures Span(units, pl, i).0 == LengthOf(units, pl, i)
  {
    hide Span, Slot, Counts, Pieces, LengthOf, At, SumTo;
    var c := Counts(units, pl);
    var u := Slot(c, i);
    var r := i - SumTo(c, u);
    assert SumTo(c, u) + r == i;
    SpanOf(units, pl, u, r, i);
    PiecesAddUp(units, pl, u, r);
  }

  lemma LengthsAddUp(units: seq<nat>, pl: nat)
    requires pl > 0
    ensures LengthOf(units, pl, Sum(Counts(units, pl))) == Sum(units)
  {
    hide Span, Slot, Counts, Pieces, At;
    var c := Counts(units, pl);
    if units != [] {
      var u := |units| - 1;
      assert Sum(c) == SumTo(c, u) + c[u] && Sum(units) == SumTo(units, u) + units[u];
      hide LengthOf, SumTo;
      PiecesAddUp(units, pl, u, c[u]);
      PiecesCover(units[u], pl);
    }
  }

  /** Piece lengths sum to the total, and each piece starts where the earlier ones end. */
  lemma LengthsSum(units: seq<nat>, pl: nat)
    requires pl > 0
    ensures LengthOf(units, pl, Sum(Counts(units, pl))) == Sum(units)
    ensures forall i: nat :: i < Sum(Counts(units, pl)) ==> Span(units, pl, i).0 == LengthOf(units, pl, i)
  {
    hide Span, Slot, Counts, Pieces, At, LengthOf, SumTo;
    var c := Counts(units, pl);
    LengthsAddUp(units, pl);
    forall i: nat | i < Sum(c) ensures Span(units, pl, i).0 == LengthOf(units, pl, i) {
      SpanStarts(units, pl, i);
    }
  }

  /** No piece crosses from one unit into the next. */
  lemma PieceStaysInUnit(units: seq<nat>, pl: nat, i: nat)
    requires pl > 0 && i < Sum(Counts(units, pl))
    ensures exists u :: 0 <= u < |units|
              && SumTo(units, u) <= Span(units, pl, i).0
              && Span(units, pl, i).0 + Span(units, pl, i).1 <= SumTo(units, u) + units[u]
              && Span(units, pl, i).1 > 0
  {
    var u := Slot(Counts(units, pl), i);
    PieceStartsInside(units[u], pl, i - SumTo(Counts(units, pl), u));
  }
}
