/**
  Reads through the write-back cache: dirty runs first, then clean pages, then the disk, which
  answers to the end of the request. What comes back, and when it is what was written.
*/
module CacheReads {
  import opened Common
  import opened CacheRuns

  /** Dirty bytes are the client's; the client's other bytes are on the disk; the rest of the disk is untouched. */
  ghost predicate Sound(dirty: Runs, disk: Store, flat: Store, base: Store) {
    && Disjoint(dirty) && AllAgree(dirty, flat)
    && (forall l :: l in flat && RunAt(dirty, l).None? ==> l in disk && disk[l] == flat[l])
    && forall l :: l !in flat ==> (l in disk <==> l in base) && (l in disk ==> disk[l] == base[l])
  }

  /** As much of a request at `pos` as the run at `k` can serve. */
  function FromRun(data: Bytes, k: Loc, pos: Loc, want: nat): (piece: Bytes)
    requires Within(k, |data|, pos) && want > 0
    ensures 0 < |piece| == Min(want, |data| - (pos.off - k.off))
  {
    var start := pos.off - k.off;
    data[start..start + Min(want, |data| - start)]
  }

  lemma RunAgrees(dirty: Runs, disk: Store, flat: Store, base: Store, k: Loc)
    requires Sound(dirty, disk, flat, base) && k in dirty
    ensures Agrees(k, dirty[k], flat)
  {
  }

  lemma ChunkAgrees(pos: Loc, want: nat, chunk: Bytes, disk: Store, flat: Store)
    requires |chunk| <= want
    requires forall i :: 0 <= i < |chunk| ==> At(pos, i) in disk && disk[At(pos, i)] == chunk[i]
    requires forall i :: 0 <= i < want ==> At(pos, i) in disk && At(pos, i) in flat && disk[At(pos, i)] == flat[At(pos, i)]
    ensures Agrees(pos, chunk, flat)
  {
  }

  /** Part of a run that agrees with the store. */
  lemma AgreesPart(k: Loc, data: Bytes, flat: Store, pos: Loc, take: nat)
    requires Agrees(k, data, flat)
    requires pos.disk == k.disk && k.off <= pos.off && pos.off - k.off + take <= |data|
    ensures Agrees(pos, data[pos.off - k.off..pos.off - k.off + take], flat)
  {
    forall i | 0 <= i < take
      ensures At(pos, i) in flat && flat[At(pos, i)] == data[pos.off - k.off + i]
    {
      assert At(pos, i) == At(k, pos.off - k.off + i);
    }
  }

  /** Every byte was written, and none that is dirty lies behind one that is not. */
  ghost predicate Served(dirty: Runs, flat: Store, k: Loc, len: nat) {
    && (forall i :: 0 <= i < len ==> At(k, i) in flat)
    && forall i, j :: 0 <= i < j < len && RunAt(dirty, At(k, i)).None? ==> RunAt(dirty, At(k, j)).None?
  }

  /** From the first byte of a served read that is not dirty, the disk holds the client's bytes to the end. */
  lemma DiskHas(dirty: Runs, disk: Store, flat: Store, base: Store, k: Loc, len: nat, got: nat)
    requires Sound(dirty, disk, flat, base) && Served(dirty, flat, k, len)
    requires got < len && RunAt(dirty, At(k, got)).None?
    ensures forall i :: 0 <= i < len - got ==>
      At(At(k, got), i) in disk && At(At(k, got), i) in flat && disk[At(At(k, got), i)] == flat[At(At(k, got), i)]
  {
    hide RunAt, Disjoint, AllAgree;
    forall i | 0 <= i < len - got
      ensures At(At(k, got), i) in disk && At(At(k, got), i) in flat && disk[At(At(k, got), i)] == flat[At(At(k, got), i)]
    {
      assert At(At(k, got), i) == At(k, got + i);
    }
  }

  // ----- reads with nothing clean, from a disk that answers in full

  ghost predicate OnDisk(disk: Store, k: Loc, len: nat) {
    forall i :: 0 <= i < len ==> At(k, i) in disk
  }

  ghost predicate AllDirty(dirty: Runs, k: Loc, n: nat) {
    forall j :: 0 <= j < n ==> RunAt(dirty, At(k, j)).Some?
  }

  ghost function DirtyByte(dirty: Runs, l: Loc): byte
    requires RunAt(dirty, l).Some?
  {
    var r := RunAt(dirty, l).value;
    dirty[r][l.off - r.off]
  }

  /** The i-th byte that comes back: dirty up to the first byte that is not, from the disk after it. */
  ghost function ColdByte(dirty: Runs, disk: Store, k: Loc, len: nat, i: nat): byte
    requires i < len && OnDisk(disk, k, len)
  {
    if AllDirty(dirty, k, i + 1) then DirtyByte(dirty, At(k, i)) else disk[At(k, i)]
  }

  ghost predicate IsCold(dirty: Runs, disk: Store, k: Loc, len: nat, out: Bytes)
    requires OnDisk(disk, k, len) && |out| <= len
  {
    forall i :: 0 <= i < |out| ==> out[i] == ColdByte(dirty, disk, k, len, i)
  }

  /** A byte the disk has in an older state, behind one that is not dirty. */
  ghost predicate Stale(dirty: Runs, disk: Store, flat: Store, k: Loc, i: nat) {
    && !AllDirty(dirty, k, i) && RunAt(dirty, At(k, i)).Some?
    && At(k, i) in disk && At(k, i) in flat && disk[At(k, i)] != flat[At(k, i)]
  }

  lemma DirtyIsFlat(dirty: Runs, flat: Store, l: Loc)
    requires AllAgree(dirty, flat)
    ensures RunAt(dirty, l).Some? ==> l in flat && DirtyByte(dirty, l) == flat[l]
  {
    var k := RunAt(dirty, l);
    if k.Some? {
      assert At(k.value, l.off - k.value.off) == l;
      assert Agrees(k.value, dirty[k.value], flat);
    }
  }

  /** One byte of such a read is wrong exactly when it is stale. */
  lemma ColdByteIsRight(dirty: Runs, disk: Store, flat: Store, base: Store, k: Loc, len: nat, i: nat)
    requires Sound(dirty, disk, flat, base) && OnDisk(disk, k, len) && i < len && At(k, i) in flat
    ensures ColdByte(dirty, disk, k, len, i) == flat[At(k, i)] <==> !Stale(dirty, disk, flat, k, i)
  {
    hide RunAt, DirtyByte, Disjoint, AllAgree, AllDirty, OnDisk;
    DirtyIsFlat(dirty, flat, At(k, i));
    AllDirtyNext(dirty, k, i);
    assert At(k, i) in disk by { OnDiskAt(disk, k, len, i); }
  }

  lemma OnDiskAt(disk: Store, k: Loc, len: nat, i: nat)
    requires OnDisk(disk, k, len) && i < len
    ensures At(k, i) in disk
  {
  }

  lemma AllDirtyNext(dirty: Runs, k: Loc, n: nat)
    ensures AllDirty(dirty, k, n + 1) <==> AllDirty(dirty, k, n) && RunAt(dirty, At(k, n)).Some?
  {
    hide RunAt;
  }

  /** A whole read is right exactly when no byte of it is stale. */
  lemma ColdReadIsRight(dirty: Runs, disk: Store, flat: Store, base: Store, k: Loc, out: Bytes)
    requires Sound(dirty, disk, flat, base) && OnDisk(disk, k, |out|) && IsCold(dirty, disk, k, |out|, out)
    requires forall i :: 0 <= i < |out| ==> At(k, i) in flat
    ensures Agrees(k, out, flat) <==> forall i: nat :: i < |out| ==> !Stale(dirty, disk, flat, k, i)
  {
    hide Sound, Stale, ColdByte;
    forall i: nat | i < |out|
      ensures out[i] == flat[At(k, i)] <==> !Stale(dirty, disk, flat, k, i)
    {
      ColdByteIsRight(dirty, disk, flat, base, k, |out|, i);
    }
  }

  /** A clean byte, then a rewritten one: the disk's old byte comes back. */
  lemma StaleReadExists()
    ensures var k := Loc(0, 0);
      var dirty: Runs := map[Loc(0, 1) := [7]];
      var disk: Store := map[Loc(0, 0) := 1, Loc(0, 1) := 2];
      var flat: Store := map[Loc(0, 0) := 1, Loc(0, 1) := 7];
      && Sound(dirty, disk, flat, disk) && Stale(dirty, disk, flat, k, 1)
  {
    var dirty: Runs := map[Loc(0, 1) := [7]];
    assert Disjoint(dirty);
    RunAtIs(dirty, Loc(0, 1), Loc(0, 1));
    RunAtNone(dirty, Loc(0, 0));
    assert At(Loc(0, 0), 1) == Loc(0, 1) && At(Loc(0, 0), 0) == Loc(0, 0) && At(Loc(0, 1), 0) == Loc(0, 1);
    hide RunAt;
    assert RunAt(dirty, At(Loc(0, 0), 0)).None?;
  }
}
