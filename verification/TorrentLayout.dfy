/**
 * The queries a torrent answers about its pieces (`src/metainfo.rs`), proved
 * against the tiling of `Layout`, and the v2 piece hashes in piece order.
 */
module TorrentLayout {
  import opened Common
  import opened Layout

  function Lengths(files: seq<File>): (w: seq<nat>)
    ensures |w| == |files|
    ensures forall j :: 0 <= j < |files| ==> w[j] == files[j].length
  {
    if files == [] then [] else Lengths(files[..|files| - 1]) + [files[|files| - 1].length]
  }

  /** What the pieces of a torrent cut: everything at once, or file by file. */
  function Units(t: Torrent): seq<nat> {
    if t.kind.V1? then [t.total] else Lengths(t.files)
  }

  /** The total is the sum of the file lengths. */
  predicate Whole(t: Torrent) {
    t.pieceLength > 0 && t.total == Sum(Lengths(t.files))
  }

  function PieceTotal(t: Torrent): nat
    requires t.pieceLength > 0
  {
    Sum(Counts(Units(t), t.pieceLength))
  }

  /** The file that holds a byte of the payload, and the byte's place in it. */
  function Place(files: seq<File>, abs: nat): (nat, nat)
    requires abs < Sum(Lengths(files))
  {
    var f := Slot(Lengths(files), abs);
    (f, abs - SumTo(Lengths(files), f))
  }

  lemma UnitsAddUp(t: Torrent)
    requires Whole(t)
    ensures Sum(Units(t)) == t.total
  {
    assert t.kind.V1? ==> SumTo([t.total], 1) == SumTo([t.total], 0) + t.total;
  }

  /** The pieces of a torrent, v1 or v2, cover its payload without gap or overlap. */
  lemma TorrentTiles(t: Torrent)
    requires Whole(t)
    ensures Sum(Units(t)) == t.total
    ensures LengthOf(Units(t), t.pieceLength, PieceTotal(t)) == t.total
    ensures forall b: nat :: b < t.total ==> PieceOf(Units(t), t.pieceLength, b) < PieceTotal(t)
    ensures forall b: nat, i: nat :: b < t.total && i < PieceTotal(t) ==>
              (InSpan(Units(t), t.pieceLength, i, b) <==> i == PieceOf(Units(t), t.pieceLength, b))
  {
    hide Units, InSpan, PieceOf, LengthOf, Counts;
    UnitsAddUp(t);
    LengthsSum(Units(t), t.pieceLength);
    forall b: nat | b < t.total
      ensures PieceOf(Units(t), t.pieceLength, b) < PieceTotal(t)
    {
      PiecesTile(Units(t), t.pieceLength, b);
    }
    forall b: nat, i: nat | b < t.total && i < PieceTotal(t)
      ensures InSpan(Units(t), t.pieceLength, i, b) <==> i == PieceOf(Units(t), t.pieceLength, b)
    {
      PiecesTile(Units(t), t.pieceLength, b);
    }
  }

  lemma OneUnit(total: nat, pl: nat, i: nat)
    requires pl > 0
    ensures Sum(Counts([total], pl)) == Pieces(total, pl)
    ensures i < Pieces(total, pl) ==> At(i, pl) < total
    ensures i < Pieces(total, pl) ==> Span([total], pl, i).0 == At(i, pl)
    ensures i < Pieces(total, pl) ==> Span([total], pl, i).1 == Min(pl, total - At(i, pl))
  {
    hide Span, Slot, At, Pieces, Counts, SumTo;
    var units := [total];
    var c := Counts(units, pl);
    SumNone(c);
    SumNone(units);
    SumMore(c, 0);
    if i < Pieces(total, pl) {
      SpanOf(units, pl, 0, i, i);
    }
  }

  // ---------------------------------------------------------------------
  // The queries
  // ---------------------------------------------------------------------

  method LocateOffset(t: Torrent, abs: nat) returns (r: Result<(nat, nat)>)
    ensures r.Ok? <==> abs < Sum(Lengths(t.files))
    ensures r.Ok? ==> r.value == Place(t.files, abs)
    ensures !r.Ok? ==> r.RangeError?
  {
    ghost var w := Lengths(t.files);
    var off := 0;
    for i := 0 to |t.files|
      invariant off == SumTo(w, i) <= abs
    {
      if abs < off + t.files[i].length {
        SlotIs(w, i, abs);
        return Ok((i, abs - off));
      }
      off := off + t.files[i].length;
    }
    r := RangeError;
  }

  method PieceCount(t: Torrent) returns (n: nat)
    requires t.pieceLength > 0
    ensures t.kind.V1? ==> n == PieceTotal(t) % U32
    ensures !t.kind.V1? && t.v2Hashes.Some? ==> n == |t.v2Hashes.value| % U32
    ensures !t.kind.V1? && t.v2Hashes.None? ==> n == 0
  {
    if t.kind.V1? {
      OneUnit(t.total, t.pieceLength, 0);
      PiecesIsCeiling(t.total, t.pieceLength);
      n := (t.total + t.pieceLength - 1) / t.pieceLength;
      n := n % U32;
    } else {
      n := match t.v2Hashes case None => 0 case Some(h) => |h| % U32;
    }
  }

  /** A piece's file, its offset there and its length, for exactly the pieces there are. */
  method PieceInfoOf(t: Torrent, index: nat) returns (r: Result<PieceInfo>)
    requires Whole(t)
    ensures r.Ok? <==> index < PieceTotal(t)
    ensures !r.Ok? ==> r.RangeError?
    ensures r.Ok? ==>
              var (start, len) := Span(Units(t), t.pieceLength, index);
              start < Sum(Lengths(t.files)) && (r.value.file, r.value.offset) == Place(t.files, start) && r.value.len == len
    ensures r.Ok? && !t.kind.V1? ==> r.value.offset + r.value.len <= t.files[r.value.file].length
  {
    if t.kind.V1? {
      r := V1Info(t, index);
    } else {
      r := V2Info(t, index);
    }
  }

  method V1Info(t: Torrent, index: nat) returns (r: Result<PieceInfo>)
    requires Whole(t) && t.kind.V1?
    ensures r.Ok? <==> index < PieceTotal(t)
    ensures !r.Ok? ==> r.RangeError?
    ensures r.Ok? ==>
              var (start, len) := Span(Units(t), t.pieceLength, index);
              start < Sum(Lengths(t.files)) && (r.value.file, r.value.offset) == Place(t.files, start) && r.value.len == len
  {
    var pl := t.pieceLength;
    OneUnit(t.total, pl, index);
    PiecesIsCeiling(t.total, pl);
    AtIsTimes(index, pl);
    var n := (t.total + pl - 1) / pl;
    if index >= n {
      return RangeError;
    }
    var start := index * pl;
    assert start < t.total;
    hide Pieces, At, Span, Counts;
    var len := Min(pl, t.total - start);
    ghost var w := Lengths(t.files);
    var off := 0;
    for i := 0 to |t.files|
      invariant off == SumTo(w, i) <= start
    {
      if start < off + t.files[i].length {
        SlotIs(w, i, start);
        return Ok(PieceInfo(i, start - off, len));
      }
      off := off + t.files[i].length;
    }
    assert false;
    r := RangeError;
  }

  lemma SumNone(c: seq<nat>)
    ensures SumTo(c, 0) == 0
  {
  }

  lemma SumMore(c: seq<nat>, i: nat)
    requires i < |c|
    ensures SumTo(c, i + 1) == SumTo(c, i) + c[i]
  {
  }

  /** Walk the files until the one whose pieces include the index. */
  method FindFile(t: Torrent, index: nat) returns (file: nat, first: nat)
    requires Whole(t)
    ensures file <= |t.files|
    ensures file < |t.files| <==> index < Sum(Counts(Lengths(t.files), t.pieceLength))
    ensures file < |t.files| ==>
              && first == SumTo(Counts(Lengths(t.files), t.pieceLength), file) <= index
              && index - first < Pieces(t.files[file].length, t.pieceLength)
  {
    hide Pieces, Counts, SumTo;
    var pl := t.pieceLength;
    ghost var c := Counts(Lengths(t.files), pl);
    SumNone(c);
    first := 0;
    for i := 0 to |t.files|
      invariant first == SumTo(c, i) <= index
    {
      var length := t.files[i].length;
      SumMore(c, i);
      PiecesIsCeiling(length, pl);
      if length != 0 {
        var np := (length + pl - 1) / pl;
        if index < first + np {
          assert InSlot(c, i, index);
          SlotIsBelowSum(c, i, index);
          return i, first;
        }
        first := first + np;
      }
    }
    file := |t.files|;
  }

  /** The piece number `rel` of a file: where it lies in the file and in the payload. */
  lemma PieceInFile(files: seq<File>, pl: nat, file: nat, rel: nat, index: nat)
    requires pl > 0 && file < |files| && rel < Pieces(files[file].length, pl)
    requires index == SumTo(Counts(Lengths(files), pl), file) + rel
    ensures index < Sum(Counts(Lengths(files), pl)) && 0 <= rel * pl < files[file].length
    ensures Span(Lengths(files), pl, index).0 == SumTo(Lengths(files), file) + rel * pl
    ensures Span(Lengths(files), pl, index).1 == Min(pl, files[file].length - rel * pl)
    ensures SumTo(Lengths(files), file) + rel * pl < Sum(Lengths(files))
    ensures Place(files, SumTo(Lengths(files), file) + rel * pl) == (file, rel * pl)
  {
    hide Pieces, At, Span, Counts, SumTo, Lengths;
    AtIsTimes(rel, pl);
    SpanOf(Lengths(files), pl, file, rel, index);
    var offset := At(rel, pl);
    assert InSlot(Lengths(files), file, SumTo(Lengths(files), file) + offset);
    SlotIs(Lengths(files), file, SumTo(Lengths(files), file) + offset);
    hide InSlot, Slot, Sum;
  }

  method V2Info(t: Torrent, index: nat) returns (r: Result<PieceInfo>)
    requires Whole(t) && !t.kind.V1?
    ensures r.Ok? <==> index < PieceTotal(t)
    ensures !r.Ok? ==> r.RangeError?
    ensures r.Ok? ==>
              var (start, len) := Span(Units(t), t.pieceLength, index);
              start < Sum(Lengths(t.files)) && (r.value.file, r.value.offset) == Place(t.files, start) && r.value.len == len
    ensures r.Ok? ==> r.value.offset + r.value.len <= t.files[r.value.file].length
  {
    hide Pieces, Span, Counts, SumTo, Lengths, Sum, Place;
    var pl := t.pieceLength;
    var file, first := FindFile(t, index);
    if file == |t.files| {
      return RangeError;
    }
    PieceInFile(t.files, pl, file, index - first, index);
    var offset := (index - first) * pl;
    r := Ok(PieceInfo(file, offset, Min(pl, t.files[file].length - offset)));
  }

  /** The first byte of a piece in the payload; a v1 torrent answers for any index. */
  method PieceAbsOffset(t: Torrent, index: nat) returns (r: Result<nat>)
    requires Whole(t)
    ensures t.kind.V1? ==> r == Ok(index * t.pieceLength)
    ensures !t.kind.V1? ==> (r.Ok? <==> index < PieceTotal(t)) && (!r.Ok? ==> r.RangeError?)
    ensures r.Ok? && index < PieceTotal(t) ==> r.value == Span(Units(t), t.pieceLength, index).0
  {
    hide Pieces, At, Span, Counts, Place;
    var pl := t.pieceLength;
    if t.kind.V1? {
      AtIsTimes(index, pl);
      OneUnit(t.total, pl, index);
      return Ok(index * pl);
    }
    var file, first := FindFile(t, index);
    if file == |t.files| {
      return RangeError;
    }
    var rel := index - first;
    PieceInFile(t.files, pl, file, rel, index);
    var off := 0;
    for i := 0 to file
      invariant off == SumTo(Lengths(t.files), i)
    {
      off := off + t.files[i].length;
    }
    r := Ok(off + rel * pl);
  }

  /** Both ways to a piece's file agree: its description, and the place of its first byte. */
  method DescribeAndLocate(t: Torrent, index: nat) returns (info: Result<PieceInfo>, place: Result<(nat, nat)>)
    requires Whole(t)
    ensures info.Ok? <==> index < PieceTotal(t)
    ensures info.Ok? ==> place == Ok((info.value.file, info.value.offset))
  {
    info := PieceInfoOf(t, index);
    var abs := PieceAbsOffset(t, index);
    if abs.Ok? {
      place := LocateOffset(t, abs.value);
    } else {
      place := RangeError;
    }
  }

  // ---------------------------------------------------------------------
  // v2 piece hashes
  // ---------------------------------------------------------------------

  type Layer = (Digest, seq<Digest>)

  function FindLayer(layers: seq<Layer>, root: Digest): Option<seq<Digest>> {
    if layers == [] then None
    else if layers[0].0 == root then Some(layers[0].1)
    else FindLayer(layers[1..], root)
  }

  /** The hashes one file contributes. */
  function Part(f: File, pl: nat, layers: seq<Layer>): Result<seq<Digest>>
    requires pl > 0
  {
    if f.length == 0 || f.root.None? then Ok([])
    else match FindLayer(layers, f.root.value)
      case None => MetaInfoError
      case Some(h) => if |h| != Pieces(f.length, pl) then MetaInfoError else Ok(h)
  }

  function Joined(files: seq<File>, pl: nat, layers: seq<Layer>, n: nat): (r: Result<seq<Digest>>)
    requires pl > 0 && n <= |files|
    ensures r.Ok? || r.MetaInfoError?
  {
    if n == 0 then Ok([])
    else
      var head := Joined(files, pl, layers, n - 1);
      var tail := Part(files[n - 1], pl, layers);
      if head.Ok? && tail.Ok? then Ok(head.value + tail.value) else MetaInfoError
  }

  lemma {:induction false} JoinedFails(files: seq<File>, pl: nat, layers: seq<Layer>, i: nat, n: nat)
    requires pl > 0 && i < n <= |files| && !Part(files[i], pl, layers).Ok?
    ensures Joined(files, pl, layers, n).MetaInfoError?
    decreases n
  {
    if i < n - 1 {
      JoinedFails(files, pl, layers, i, n - 1);
    }
  }

  method BuildV2PieceHashes(files: seq<File>, pl: nat, layers: seq<Layer>) returns (r: Result<seq<Digest>>)
    requires pl > 0
    ensures r == Joined(files, pl, layers, |files|)
  {
    var out := [];
    for i := 0 to |files|
      invariant Joined(files, pl, layers, i) == Ok(out)
    {
      var f := files[i];
      if f.length != 0 && f.root.Some? {
        var found := FindLayer(layers, f.root.value);
        PiecesIsCeiling(f.length, pl);
        if found.None? || |found.value| != (f.length + pl - 1) / pl {
          JoinedFails(files, pl, layers, i, |files|);
          return MetaInfoError;
        }
        out := out + found.value;
      } else {
        assert out + [] == out;
      }
    }
    r := Ok(out);
  }

  predicate Rooted(files: seq<File>, n: nat)
    requires n <= |files|
  {
    forall j :: 0 <= j < n && files[j].length > 0 ==> files[j].root.Some?
  }

  /** There is a hash for every piece exactly when every non-empty file has a root. */
  lemma {:induction false} HashPerPiece(files: seq<File>, pl: nat, layers: seq<Layer>, n: nat)
    requires pl > 0 && n <= |files| && Joined(files, pl, layers, n).Ok?
    ensures var have, need := |Joined(files, pl, layers, n).value|, SumTo(Counts(Lengths(files), pl), n);
            have <= need && (have == need <==> Rooted(files, n))
    decreases n
  {
    hide Counts, Lengths;
    if n > 0 {
      HashPerPiece(files, pl, layers, n - 1);
      assert Rooted(files, n) <==> Rooted(files, n - 1) && (files[n - 1].length > 0 ==> files[n - 1].root.Some?);
    }
  }

  /** The hash of piece i is the entry of its own file's layer. */
  lemma {:induction false} HashIsFromOwnLayer(files: seq<File>, pl: nat, layers: seq<Layer>, n: nat, u: nat, r: nat)
    requires pl > 0 && n <= |files| && Joined(files, pl, layers, n).Ok? && Rooted(files, n)
    requires u < n && r < Pieces(files[u].length, pl)
    ensures files[u].root.Some? && FindLayer(layers, files[u].root.value).Some?
    ensures var i := SumTo(Counts(Lengths(files), pl), u) + r;
            var hashes := Joined(files, pl, layers, n).value;
            var layer := FindLayer(layers, files[u].root.value).value;
            i < |hashes| && r < |layer| && hashes[i] == layer[r]
    decreases n
  {
    hide Counts, Lengths, FindLayer;
    var head := Joined(files, pl, layers, n - 1).value;
    HashPerPiece(files, pl, layers, n - 1);
    assert files[u].length > 0;
    if u < n - 1 {
      HashIsFromOwnLayer(files, pl, layers, n - 1, u, r);
    }
  }
}
