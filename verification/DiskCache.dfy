/**
  The write-back disk cache: coalesced dirty runs in front of the disk, and a clean read cache.

  `flat` is the store the client believes in: the bytes written so far. The client's discipline
  is that writes never overlap an earlier write and that each read lies inside one earlier write
  or asks only for bytes flushed since they were written.
  Statistics and the request window are not part of the model; the host's disk calls succeed.
*/
module DiskCache {
  import opened Common
  import opened CacheRuns
  import opened CacheReads
  import opened FlushOrder

  const CLEAN_BUDGET := 0x10_0000
  const CLEAN_MAX_ENTRIES := 4096
  const U64 := 0x1_0000_0000_0000_0000

  /** Counters wrap around as 64-bit integers do. */
  type u64 = x: int | 0 <= x < U64

  function Add64(a: int, b: int): u64 {
    (a + b) % U64
  }

  lemma AddTwice(a: u64, x: int, y: int)
    ensures Add64(Add64(a, x), y) == Add64(a, x + y)
  {
  }

  lemma AddNothing(a: u64)
    ensures Add64(a, 0) == a
  {
  }

  lemma AddExact(a: u64, x: int)
    requires 0 <= a + x < U64
    ensures Add64(a, x) == a + x
  {
  }

  datatype Page = Page(data: Bytes, stamp: nat)
  datatype Extent = Extent(start: Loc, len: nat)
  datatype DiskWrite = DiskWrite(start: Loc, data: Bytes)

  // ----- what the cache promises about the disk

  /** Each earlier write is inside one dirty run or not dirty at all. */
  ghost predicate Whole(dirty: Runs, extents: set<Extent>) {
    forall e, i :: e in extents && 0 <= i < e.len ==> RunAt(dirty, At(e.start, i)) == RunAt(dirty, e.start)
  }

  ghost predicate Recorded(flat: Store, extents: set<Extent>) {
    forall e, i :: e in extents && 0 <= i < e.len ==> At(e.start, i) in flat
  }

  /** The window meets nothing written so far. */
  ghost predicate Apart(flat: Store, k: Loc, len: nat) {
    forall i :: 0 <= i < len ==> At(k, i) !in flat
  }

  ghost predicate PagesAgree(clean: map<Loc, Page>, flat: Store) {
    forall k :: k in clean ==> Agrees(k, clean[k].data, flat)
  }

  /** The disk after a batch of writes. */
  ghost function DiskAfter(disk: Store, batch: seq<DiskWrite>): Store
    decreases |batch|
  {
    if batch == [] then disk else DiskAfter(Overlay(disk, batch[0].start, batch[0].data), batch[1..])
  }

  lemma {:induction false} DiskAfterSnoc(disk: Store, batch: seq<DiskWrite>, w: DiskWrite)
    ensures DiskAfter(disk, batch + [w]) == Overlay(DiskAfter(disk, batch), w.start, w.data)
    decreases |batch|
  {
    if batch == [] {
      assert (batch + [w])[1..] == [];
    } else {
      DiskAfterSnoc(Overlay(disk, batch[0].start, batch[0].data), batch[1..], w);
      assert (batch + [w])[1..] == batch[1..] + [w];
    }
  }

  /** Two adjacent writes are one longer write. */
  lemma OverlayJoins(disk: Store, k: Loc, a: Bytes, b: Bytes)
    ensures Overlay(Overlay(disk, k, a), At(k, |a|), b) == Overlay(disk, k, a + b)
  {
    var mid := Overlay(disk, k, a);
    var left := Overlay(mid, At(k, |a|), b);
    var right := Overlay(disk, k, a + b);
    forall l
      ensures l in left <==> l in right
      ensures l in left && l in right ==> left[l] == right[l]
    {
      OverlayAt(disk, k, a, l);
      OverlayAt(mid, At(k, |a|), b, l);
      OverlayAt(disk, k, a + b, l);
    }
  }

  lemma OverlayOne(store: Store, k: Loc, b: byte)
    ensures store[k := b] == Overlay(store, k, [b])
  {
    assert At(k, 0) == k;
  }

  lemma OverlayNone(store: Store, k: Loc)
    ensures Overlay(store, k, []) == store
  {
  }

  lemma MergedBatch(disk: Store, batch: seq<DiskWrite>, last: DiskWrite, data: Bytes)
    ensures DiskAfter(disk, batch + [last.(data := last.data + data)])
         == Overlay(DiskAfter(disk, batch + [last]), At(last.start, |last.data|), data)
  {
    DiskAfterSnoc(disk, batch, last);
    DiskAfterSnoc(disk, batch, last.(data := last.data + data));
    OverlayJoins(DiskAfter(disk, batch), last.start, last.data, data);
  }

  lemma NoWrites(disk: Store)
    ensures DiskAfter(disk, []) == disk
  {
  }

  predicate Adjacent(w: DiskWrite, k: Loc) {
    w.start.disk == k.disk && w.start.off + |w.data| == k.off
  }

  /** One more run in the batch, joined to the previous write when they touch. */
  function Batched(batch: seq<DiskWrite>, k: Loc, data: Bytes): seq<DiskWrite> {
    if batch != [] && Adjacent(batch[|batch| - 1], k) then
      var last := batch[|batch| - 1];
      batch[..|batch| - 1] + [last.(data := last.data + data)]
    else batch + [DiskWrite(k, data)]
  }

  ghost predicate BatchAgrees(batch: seq<DiskWrite>, flat: Store) {
    forall w :: w in batch ==> Agrees(w.start, w.data, flat)
  }

  lemma BatchedWrites(disk: Store, batch: seq<DiskWrite>, k: Loc, data: Bytes, flat: Store)
    requires BatchAgrees(batch, flat) && Agrees(k, data, flat)
    ensures DiskAfter(disk, Batched(batch, k, data)) == Overlay(DiskAfter(disk, batch), k, data)
    ensures BatchAgrees(Batched(batch, k, data), flat)
  {
    hide Agrees, Overlay, DiskAfter;
    if batch != [] && Adjacent(batch[|batch| - 1], k) {
      var front, last := batch[..|batch| - 1], batch[|batch| - 1];
      assert batch == front + [last] && At(last.start, |last.data|) == k;
      MergedBatch(disk, front, last, data);
      JoinAgrees(last.start, last.data, data, flat);
    } else {
      DiskAfterSnoc(disk, batch, DiskWrite(k, data));
    }
  }

  // ----- steps

  /** A write outside everything written before reaches no dirty byte. */
  lemma NewIsFree(dirty: Runs, flat: Store, k: Loc, len: nat)
    requires AllAgree(dirty, flat)
    requires Apart(flat, k, len)
    ensures Free(dirty, k, len)
  {
    forall i | 0 <= i < len
      ensures RunAt(dirty, At(k, i)) == None
    {
      DirtyIsFlat(dirty, flat, At(k, i));
    }
  }

  lemma NewIsApart(flat: Store, k: Loc, len: nat, l: Loc)
    requires Apart(flat, k, len)
    ensures l in flat ==> !Within(k, len, l)
  {
    if k.off <= l.off {
      assert Within(k, len, l) ==> l == At(k, l.off - k.off);
    }
  }

  lemma InsertAgrees(dirty: Runs, flat: Store, k: Loc, data: Bytes)
    requires Disjoint(dirty) && AllAgree(dirty, flat) && data != []
    requires Apart(flat, k, |data|)
    ensures AllAgree(Coalesce(dirty, k, data), Overlay(flat, k, data))
    ensures Joined(dirty, Coalesce(dirty, k, data), CoalescedKey(dirty, k), k, |data|, Eaten(dirty, k, |data|))
  {
    hide Coalesce, Overlay, CoalescedKey, RunAt, Joined, Eaten;
    NewIsFree(dirty, flat, k, |data|);
    FreeStart(dirty, k, data);
    CoalesceJoins(dirty, k, data);
    forall j, i | j in dirty && 0 <= i < |dirty[j]|
      ensures !Within(k, |data|, At(j, i))
    {
      NewIsApart(flat, k, |data|, At(j, i));
    }
    CoalesceAgrees(dirty, k, data, flat);
  }

  /** The client's new bytes are dirty; nothing is asked of the disk for them. */
  lemma InsertSound(dirty: Runs, disk: Store, flat: Store, base: Store, k: Loc, data: Bytes)
    requires Sound(dirty, disk, flat, base) && data != []
    requires Apart(flat, k, |data|)
    ensures Sound(Coalesce(dirty, k, data), disk, Overlay(flat, k, data), base)
  {
    hide Coalesce, AllAgree, Disjoint, RunAt, CoalescedKey, Overlay, Eaten;
    InsertAgrees(dirty, flat, k, data);
    forall l { OverlayAt(flat, k, data, l); }
  }

  lemma InsertWhole(dirty: Runs, flat: Store, extents: set<Extent>, k: Loc, data: Bytes)
    requires Disjoint(dirty) && AllAgree(dirty, flat) && Whole(dirty, extents) && Recorded(flat, extents) && data != []
    requires Apart(flat, k, |data|)
    ensures Whole(Coalesce(dirty, k, data), extents + {Extent(k, |data|)})
  {
    hide Coalesce, RunAt, Disjoint, AllAgree, CoalescedKey, Eaten, Overlay;
    InsertAgrees(dirty, flat, k, data);
    forall e, i | e in extents + {Extent(k, |data|)} && 0 <= i < e.len
      ensures RunAt(Coalesce(dirty, k, data), At(e.start, i)) == RunAt(Coalesce(dirty, k, data), e.start)
    {
      assert At(e.start, 0) == e.start;
      NewIsApart(flat, k, |data|, At(e.start, i));
      NewIsApart(flat, k, |data|, e.start);
    }
  }

  lemma FlushSoundAt(dirty: Runs, disk: Store, flat: Store, base: Store, k: Loc, l: Loc)
    requires Sound(dirty, disk, flat, base) && k in dirty
    requires RunAt(dirty - {k}, l) == if Within(k, |dirty[k]|, l) then None else RunAt(dirty, l)
    ensures var disk' := Overlay(disk, k, dirty[k]);
      && (l in flat && RunAt(dirty - {k}, l).None? ==> l in disk' && disk'[l] == flat[l])
      && (l !in flat ==> (l in disk' <==> l in base) && (l in disk' ==> disk'[l] == base[l]))
  {
    hide RunAt, Overlay, Disjoint;
    OverlayAt(disk, k, dirty[k], l);
    if Within(k, |dirty[k]|, l) {
      assert Agrees(k, dirty[k], flat);
      assert l == At(k, l.off - k.off);
    }
  }

  /** Taking a run out of the dirty map and writing it to the disk. */
  lemma FlushSound(dirty: Runs, disk: Store, flat: Store, base: Store, k: Loc)
    requires Sound(dirty, disk, flat, base) && k in dirty
    ensures Sound(dirty - {k}, Overlay(disk, k, dirty[k]), flat, base)
  {
    hide RunAt, Overlay, Disjoint, Agrees, Within;
    RemoveRun(dirty, k);
    var disk' := Overlay(disk, k, dirty[k]);
    forall l
      ensures l in flat && RunAt(dirty - {k}, l).None? ==> l in disk' && disk'[l] == flat[l]
      ensures l !in flat ==> (l in disk' <==> l in base) && (l in disk' ==> disk'[l] == base[l])
    {
      FlushSoundAt(dirty, disk, flat, base, k, l);
    }
  }

  lemma FlushWhole(dirty: Runs, extents: set<Extent>, k: Loc)
    requires Disjoint(dirty) && Whole(dirty, extents) && k in dirty
    ensures Whole(dirty - {k}, extents)
  {
    hide RunAt, Disjoint;
    RemoveRun(dirty, k);
    forall l { HitsIsWithin(dirty, k, l); }
  }

  /** A write too large for the cache goes straight to the disk. */
  lemma BypassSound(dirty: Runs, disk: Store, flat: Store, base: Store, k: Loc, data: Bytes)
    requires Sound(dirty, disk, flat, base)
    requires Apart(flat, k, |data|)
    ensures Sound(dirty, Overlay(disk, k, data), Overlay(flat, k, data), base)
  {
    hide RunAt, Overlay, Disjoint;
    var flat' := Overlay(flat, k, data);
    forall l
      ensures l in flat ==> l in flat' && flat'[l] == flat[l]
    {
      NewIsApart(flat, k, |data|, l);
      OverlayAt(flat, k, data, l);
    }
    forall l { OverlayAt(disk, k, data, l); }
    forall l { OverlayAt(flat, k, data, l); }
  }

  lemma BypassWhole(dirty: Runs, flat: Store, extents: set<Extent>, k: Loc, data: Bytes)
    requires AllAgree(dirty, flat) && Whole(dirty, extents) && data != []
    requires Apart(flat, k, |data|)
    ensures Whole(dirty, extents + {Extent(k, |data|)})
  {
    hide RunAt;
    forall i | 0 <= i < |data|
      ensures RunAt(dirty, At(k, i)) == None
    {
      DirtyIsFlat(dirty, flat, At(k, i));
    }
    assert At(k, 0) == k;
  }

  lemma RecordedGrows(flat: Store, extents: set<Extent>, k: Loc, data: Bytes)
    requires Recorded(flat, extents)
    ensures Recorded(Overlay(flat, k, data), extents + {Extent(k, |data|)})
  {
    hide Overlay;
    forall l { OverlayAt(flat, k, data, l); }
  }

  lemma PagesKept(clean: map<Loc, Page>, flat: Store, k: Loc, data: Bytes)
    requires PagesAgree(clean, flat)
    requires Apart(flat, k, |data|)
    ensures PagesAgree(clean, Overlay(flat, k, data))
  {
    hide Overlay;
    forall j, i | j in clean && 0 <= i < |clean[j].data|
      ensures At(j, i) in Overlay(flat, k, data) && Overlay(flat, k, data)[At(j, i)] == clean[j].data[i]
    {
      assert Agrees(j, clean[j].data, flat);
      NewIsApart(flat, k, |data|, At(j, i));
      OverlayAt(flat, k, data, At(j, i));
    }
  }

  // ----- ordered iteration

  lemma {:induction false} OldestExists(clean: map<Loc, Page>, keys: set<Loc>)
    requires keys != {} && keys <= clean.Keys
    ensures exists k :: k in keys && forall j :: j in keys ==> clean[k].stamp <= clean[j].stamp
    decreases |keys|
  {
    var x :| x in keys;
    var rest := keys - {x};
    if rest == {} {
      assert keys == {x};
    } else {
      OldestExists(clean, rest);
      var k :| k in rest && forall j :: j in rest ==> clean[k].stamp <= clean[j].stamp;
      assert forall j :: j in keys <==> j == x || j in rest;
      if clean[k].stamp <= clean[x].stamp {
        assert k in keys && forall j :: j in keys ==> clean[k].stamp <= clean[j].stamp;
      } else {
        assert x in keys && forall j :: j in keys ==> clean[x].stamp <= clean[j].stamp;
      }
    }
  }

  // ----- the objects

  class DiskHost {
    var bytes: Store
    /** How many reads were asked of the disk. */
    var gets: nat
    /** Whether reads are answered in full where the disk has the bytes. */
    const inFull: bool

    method Put(k: Loc, data: Bytes)
      modifies this`bytes
      ensures bytes == Overlay(old(bytes), k, data)
    {
      hide Overlay;
      OverlayNone(bytes, k);
      for i := 0 to |data|
        invariant bytes == Overlay(old(bytes), k, data[..i])
      {
        OverlayJoins(old(bytes), k, data[..i], [data[i]]);
        assert data[..i] + [data[i]] == data[..i + 1];
        OverlayOne(bytes, At(k, i), data[i]);
        bytes := bytes[At(k, i) := data[i]];
      }
      assert data[..|data|] == data;
    }

    /** Reads may be short; they make progress when there is something to read. */
    method Get(k: Loc, want: nat) returns (chunk: Bytes)
      requires want > 0
      modifies this`gets
      ensures gets == old(gets) + 1
      ensures |chunk| <= want
      ensures forall i :: 0 <= i < |chunk| ==> At(k, i) in bytes && bytes[At(k, i)] == chunk[i]
      ensures At(k, 0) in bytes ==> chunk != []
      ensures inFull && OnDisk(bytes, k, want) ==> |chunk| == want
    {
      gets := gets + 1;
      var limit: nat := *;
      chunk := [];
      while |chunk| < want && At(k, |chunk|) in bytes && (inFull || |chunk| == 0 || |chunk| < limit)
        invariant |chunk| <= want
        invariant forall i :: 0 <= i < |chunk| ==> At(k, i) in bytes && bytes[At(k, i)] == chunk[i]
        decreases want - |chunk|
      {
        chunk := chunk + [bytes[At(k, |chunk|)]];
      }
    }
  }

  /** The clean page that a read at `l` hits. */
  function PageAt(clean: map<Loc, Page>, l: Loc): Option<Loc> {
    var k := Floor(clean.Keys, l);
    if k.Some? && Within(k.value, |clean[k.value].data|, l) then k else None
  }

  ghost predicate Encloses(e: Extent, k: Loc, len: nat) {
    e.start.disk == k.disk && e.start.off <= k.off && k.off + len <= e.start.off + e.len
  }

  ghost predicate Consistent(dirty: Runs, clean: map<Loc, Page>, disk: Store, flat: Store, base: Store, extents: set<Extent>) {
    Sound(dirty, disk, flat, base) && Whole(dirty, extents) && Recorded(flat, extents) && PagesAgree(clean, flat)
  }

  lemma InsertKeeps(dirty: Runs, clean: map<Loc, Page>, disk: Store, flat: Store, base: Store, extents: set<Extent>, k: Loc, data: Bytes)
    requires Consistent(dirty, clean, disk, flat, base, extents) && data != []
    requires Apart(flat, k, |data|)
    ensures Consistent(Coalesce(dirty, k, data), clean, disk, Overlay(flat, k, data), base, extents + {Extent(k, |data|)})
  {
    hide Coalesce, Overlay, Whole, Recorded, PagesAgree, RunAt, Disjoint, AllAgree;
    InsertSound(dirty, disk, flat, base, k, data);
    InsertWhole(dirty, flat, extents, k, data);
    RecordedGrows(flat, extents, k, data);
    PagesKept(clean, flat, k, data);
  }

  lemma BypassKeeps(dirty: Runs, clean: map<Loc, Page>, disk: Store, flat: Store, base: Store, extents: set<Extent>, k: Loc, data: Bytes)
    requires Consistent(dirty, clean, disk, flat, base, extents) && data != []
    requires Apart(flat, k, |data|)
    ensures Consistent(dirty, clean, Overlay(disk, k, data), Overlay(flat, k, data), base, extents + {Extent(k, |data|)})
  {
    hide Overlay, Whole, Recorded, PagesAgree, RunAt, Disjoint, AllAgree;
    BypassSound(dirty, disk, flat, base, k, data);
    BypassWhole(dirty, flat, extents, k, data);
    RecordedGrows(flat, extents, k, data);
    PagesKept(clean, flat, k, data);
  }

  lemma FlushKeeps(dirty: Runs, disk: Store, flat: Store, base: Store, extents: set<Extent>, k: Loc)
    requires Sound(dirty, disk, flat, base) && Whole(dirty, extents) && k in dirty
    ensures Sound(dirty - {k}, Overlay(disk, k, dirty[k]), flat, base) && Whole(dirty - {k}, extents)
    ensures Agrees(k, dirty[k], flat)
  {
    hide Overlay, Whole, RunAt, Disjoint, Agrees;
    FlushSound(dirty, disk, flat, base, k);
    FlushWhole(dirty, extents, k);
  }

  lemma FlushedDisk(dirty: Runs, disk: Store, flat: Store, base: Store)
    requires Sound(dirty, disk, flat, base) && dirty == map[]
    ensures disk == base + flat
  {
    assert forall l :: RunAt(dirty, l) == None;
  }

  // ----- what may be dirty

  ghost function Cells(k: Loc, len: nat): set<Loc> {
    set i | 0 <= i < len :: At(k, i)
  }

  lemma NoCells(k: Loc)
    ensures Cells(k, 0) == {}
  {
  }

  /** Only pending bytes are dirty. */
  ghost predicate Pended(dirty: Runs, pending: set<Loc>) {
    forall l :: RunAt(dirty, l).Some? ==> l in pending
  }

  lemma PendedGrows(dirty: Runs, pending: set<Loc>, more: set<Loc>)
    requires Pended(dirty, pending) && pending <= more
    ensures Pended(dirty, more)
  {
  }

  lemma InsertPends(dirty: Runs, clean: map<Loc, Page>, disk: Store, flat: Store, base: Store, extents: set<Extent>,
                    pending: set<Loc>, k: Loc, data: Bytes)
    requires Consistent(dirty, clean, disk, flat, base, extents) && Pended(dirty, pending) && data != []
    requires Apart(flat, k, |data|)
    ensures Pended(Coalesce(dirty, k, data), pending + Cells(k, |data|))
  {
    hide Coalesce, Whole, Recorded, PagesAgree, RunAt, Disjoint;
    InsertAgrees(dirty, flat, k, data);
    forall l | RunAt(Coalesce(dirty, k, data), l).Some?
      ensures l in pending + Cells(k, |data|)
    {
      if Within(k, |data|, l) {
        assert At(k, l.off - k.off) == l;
      }
    }
  }

  lemma FlushPends(dirty: Runs, disk: Store, flat: Store, base: Store, pending: set<Loc>, k: Loc)
    requires Sound(dirty, disk, flat, base) && Pended(dirty, pending) && k in dirty
    ensures Pended(dirty - {k}, pending)
  {
    RemoveRun(dirty, k);
    hide RunAt, Disjoint;
  }

  lemma DiskPends(dirty: Runs, pending: set<Loc>, disk: nat)
    requires Pended(dirty, pending) && forall k :: k in dirty ==> k.disk != disk
    ensures Pended(dirty, set l | l in pending && l.disk != disk)
  {
    forall l | RunAt(dirty, l).Some?
      ensures l.disk != disk
    {
      RunAtMeans(dirty, l);
    }
    hide RunAt;
  }

  // ----- what is resident

  /** A read at `l` finds a clean page: one covers it, and no other starts in between. */
  ghost predicate CleanAt(clean: map<Loc, Page>, l: Loc) {
    exists s :: s in clean && Within(s, |clean[s].data|, l)
      && forall j :: j in clean && j.disk == l.disk && s.off < j.off ==> l.off < j.off
  }

  /** Every byte of the window is dirty or on a clean page. */
  ghost predicate Resident(dirty: Runs, clean: map<Loc, Page>, k: Loc, len: nat) {
    forall i :: 0 <= i < len ==> RunAt(dirty, At(k, i)).Some? || CleanAt(clean, At(k, i))
  }

  lemma PageAtMeans(clean: map<Loc, Page>, l: Loc)
    ensures PageAt(clean, l).Some? <==> CleanAt(clean, l)
    ensures PageAt(clean, l).Some? ==>
      PageAt(clean, l).value in clean && Within(PageAt(clean, l).value, |clean[PageAt(clean, l).value].data|, l)
  {
    hide Floor;
    var f := Floor(clean.Keys, l);
    if CleanAt(clean, l) {
      var s :| s in clean && Within(s, |clean[s].data|, l)
        && forall j :: j in clean && j.disk == l.disk && s.off < j.off ==> l.off < j.off;
      assert f == Some(s);
    }
  }

  lemma Resides(dirty: Runs, clean: map<Loc, Page>, k: Loc, len: nat, i: nat)
    requires i < len
    ensures Resident(dirty, clean, k, len) ==> RunAt(dirty, At(k, i)).Some? || CleanAt(clean, At(k, i))
  {
  }

  /** Touching a page moves nothing. */
  lemma TouchedStays(dirty: Runs, clean: map<Loc, Page>, k: Loc, len: nat, s: Loc, stamp: nat)
    requires s in clean
    ensures Resident(dirty, clean, k, len) ==> Resident(dirty, clean[s := Page(clean[s].data, stamp)], k, len)
  {
    hide RunAt;
    var clean' := clean[s := Page(clean[s].data, stamp)];
    forall l | CleanAt(clean, l)
      ensures CleanAt(clean', l)
    {
      var p :| p in clean && Within(p, |clean[p].data|, l)
        && forall j :: j in clean && j.disk == l.disk && p.off < j.off ==> l.off < j.off;
      assert p in clean' && Within(p, |clean'[p].data|, l);
    }
  }

  /** The page at `s` holds this data at its place. */
  ghost predicate PageHolds(page: Page, s: Loc, k: Loc, data: Bytes) {
    && s.disk == k.disk && s.off <= k.off && k.off - s.off + |data| <= |page.data|
    && page.data[k.off - s.off..k.off - s.off + |data|] == data
  }

  lemma JoinHolds(s: Loc, k: Loc, front: Bytes, data: Bytes, back: Bytes, stamp: nat)
    requires At(s, |front|) == k
    ensures PageHolds(Page(front + data + back, stamp), s, k, data)
  {
  }

  // ----- one step of a read

  lemma StartRead(dirty: Runs, disk: Store, flat: Store, k: Loc, len: nat)
    ensures Agrees(k, [], flat) && AllDirty(dirty, k, 0)
    ensures OnDisk(disk, k, len) ==> IsCold(dirty, disk, k, len, [])
  {
  }

  lemma PageAgrees(clean: map<Loc, Page>, flat: Store, k: Loc)
    requires PagesAgree(clean, flat) && k in clean
    ensures Agrees(k, clean[k].data, flat)
  {
  }

  lemma PageTouched(clean: map<Loc, Page>, flat: Store, k: Loc, stamp: nat)
    requires PagesAgree(clean, flat) && k in clean
    ensures PagesAgree(clean[k := Page(clean[k].data, stamp)], flat)
  {
    hide Agrees;
  }

  lemma PageDropped(clean: map<Loc, Page>, flat: Store, k: Loc)
    requires PagesAgree(clean, flat)
    ensures PagesAgree(clean - {k}, flat)
  {
    hide Agrees;
  }

  lemma PageAdded(clean: map<Loc, Page>, flat: Store, k: Loc, page: Page)
    requires PagesAgree(clean, flat) && Agrees(k, page.data, flat)
    ensures PagesAgree(clean[k := page], flat)
  {
    hide Agrees;
  }

  /** A piece of a dirty run continues the read. */
  lemma DirtyPiece(dirty: Runs, disk: Store, flat: Store, base: Store, k: Loc, len: nat, out: Bytes, r: Loc, piece: Bytes,
                   served: bool, cold: bool)
    requires Sound(dirty, disk, flat, base) && |out| < len
    requires RunAt(dirty, At(k, |out|)) == Some(r) && r in dirty && Within(r, |dirty[r]|, At(k, |out|))
    requires piece == FromRun(dirty[r], r, At(k, |out|), len - |out|)
    requires served ==> Agrees(k, out, flat)
    requires cold ==> OnDisk(disk, k, len) && IsCold(dirty, disk, k, len, out) && AllDirty(dirty, k, |out|)
    ensures |out + piece| <= len
    ensures served ==> Agrees(k, out + piece, flat)
    ensures cold ==> IsCold(dirty, disk, k, len, out + piece) && AllDirty(dirty, k, |out + piece|)
  {
    hide RunAt, Agrees, IsCold, AllDirty, OnDisk;
    RunAgrees(dirty, disk, flat, base, r);
    AgreesPart(r, dirty[r], flat, At(k, |out|), |piece|);
    if served {
      JoinAgrees(k, out, piece, flat);
    }
    if cold {
      ColdRun(dirty, disk, k, len, out, r, piece);
    }
  }

  lemma ColdRun(dirty: Runs, disk: Store, k: Loc, len: nat, out: Bytes, r: Loc, piece: Bytes)
    requires Disjoint(dirty) && |out| < len && r in dirty && Within(r, |dirty[r]|, At(k, |out|))
    requires piece == FromRun(dirty[r], r, At(k, |out|), len - |out|)
    requires OnDisk(disk, k, len) && IsCold(dirty, disk, k, len, out) && AllDirty(dirty, k, |out|)
    ensures IsCold(dirty, disk, k, len, out + piece) && AllDirty(dirty, k, |out + piece|)
  {
    forall j: nat | |out| <= j < |out| + |piece|
      ensures RunAt(dirty, At(k, j)) == Some(r)
    {
      RunAtIs(dirty, r, At(k, j));
    }
    hide RunAt, Disjoint, OnDisk;
    assert AllDirty(dirty, k, |out + piece|);
    forall i | 0 <= i < |out + piece|
      ensures (out + piece)[i] == ColdByte(dirty, disk, k, len, i)
    {
      assert AllDirty(dirty, k, i + 1);
    }
  }

  /** What the disk answers continues the read, and ends it when the answer is in full. */
  lemma DiskPiece(dirty: Runs, disk: Store, flat: Store, base: Store, k: Loc, len: nat, out: Bytes, chunk: Bytes,
                  inFull: bool, served: bool, cold: bool)
    requires Sound(dirty, disk, flat, base) && |out| < len && RunAt(dirty, At(k, |out|)).None?
    requires |chunk| <= len - |out|
    requires forall i :: 0 <= i < |chunk| ==> At(At(k, |out|), i) in disk && disk[At(At(k, |out|), i)] == chunk[i]
    requires At(At(k, |out|), 0) in disk ==> chunk != []
    requires inFull && OnDisk(disk, At(k, |out|), len - |out|) ==> |chunk| == len - |out|
    requires served ==> Served(dirty, flat, k, len) && Agrees(k, out, flat)
    requires cold ==> inFull && OnDisk(disk, k, len) && IsCold(dirty, disk, k, len, out)
    ensures served ==> chunk != [] && Agrees(At(k, |out|), chunk, flat) && Agrees(k, out + chunk, flat)
    ensures cold ==> |out + chunk| == len && IsCold(dirty, disk, k, len, out + chunk)
  {
    hide RunAt, IsCold, OnDisk, Served, Agrees, AllDirty;
    var pos := At(k, |out|);
    if served {
      DiskHas(dirty, disk, flat, base, k, len, |out|);
      assert At(pos, 0) in disk;
      ChunkAgrees(pos, len - |out|, chunk, disk, flat);
      JoinAgrees(k, out, chunk, flat);
    }
    if cold {
      OnDiskRest(disk, k, len, |out|);
      ColdRest(dirty, disk, k, len, out, chunk);
    }
  }

  lemma OnDiskRest(disk: Store, k: Loc, len: nat, got: nat)
    requires OnDisk(disk, k, len) && got <= len
    ensures OnDisk(disk, At(k, got), len - got)
  {
    assert forall i: nat :: At(At(k, got), i) == At(k, got + i);
  }

  lemma ColdRest(dirty: Runs, disk: Store, k: Loc, len: nat, out: Bytes, chunk: Bytes)
    requires OnDisk(disk, k, len) && |out| < len && |out + chunk| == len && IsCold(dirty, disk, k, len, out)
    requires RunAt(dirty, At(k, |out|)).None?
    requires forall i :: 0 <= i < |chunk| ==> At(At(k, |out|), i) in disk && disk[At(At(k, |out|), i)] == chunk[i]
    ensures IsCold(dirty, disk, k, len, out + chunk)
  {
    hide RunAt, OnDisk;
    forall i | 0 <= i < len
      ensures (out + chunk)[i] == ColdByte(dirty, disk, k, len, i)
    {
      if i >= |out| {
        assert At(At(k, |out|), i - |out|) == At(k, i);
        assert !AllDirty(dirty, k, i + 1);
      }
    }
  }

  /** By how much the byte counter of the dirty map grows with one write. */
  function Growth(m: Runs, k: Loc, data: Bytes): int {
    if k in m then |data| - |m[k]|
    else if Predecessor(m, k).Some? then |data|
    else if At(k, |data|) in m then |data| - |m[At(k, |data|)]|
    else |data|
  }

  class Cache {
    const budget: u64
    var used: u64
    var dirty: Runs
    var clean: map<Loc, Page>
    var cleanUsed: u64
    var lruClock: nat
    ghost var flat: Store
    ghost var base: Store
    ghost var extents: set<Extent>
    ghost var pending: set<Loc>

    ghost predicate Valid(host: DiskHost)
      reads this, host
    {
      Consistent(dirty, clean, host.bytes, flat, base, extents) && Pended(dirty, pending)
    }

    constructor (budget: u64, host: DiskHost)
      ensures Valid(host) && flat == map[] && base == host.bytes && extents == {} && dirty == map[] && pending == {}
    {
      this.budget := Max(budget, 0x10_0000);
      used, dirty, clean, cleanUsed, lruClock := 0, map[], map[], 0, 0;
      flat, base, extents, pending := map[], host.bytes, {}, {};
    }

    /**
      Buffers a write, making room first when the cache is over budget. A write apart from all
      earlier ones keeps the cache right; any write that fits the budget is coalesced as it stands.
    */
    method Write(host: DiskHost, k: Loc, data: Bytes)
      requires Valid(host)
      modifies this, host
      ensures old(Apart(flat, k, |data|)) ==> Valid(host)
      ensures base == old(base)
      ensures data != [] && old(used) + |data| <= budget ==>
        dirty == Coalesce(old(dirty), k, data) && host.bytes == old(host.bytes)
      ensures flat == Overlay(old(flat), k, data)
      ensures extents == if data == [] then old(extents) else old(extents) + {Extent(k, |data|)}
      ensures pending == old(pending) + Cells(k, |data|)
      ensures data != [] && old(used) == TotalBytes(old(dirty)) ==> TotalBytes(dirty) <= budget
      ensures |data| > budget ==> dirty == map[]
    {
      hide Consistent, Overlay, Coalesce, Pended, Apart, Cells, Growth, TotalBytes, Add64;
      ghost var apart := Apart(flat, k, |data|);
      if data == [] {
        OverlayNone(flat, k);
        NoCells(k);
        return;
      }
      if |data| > budget {
        Flush(host);
        if apart {
          BypassKeeps(dirty, clean, host.bytes, flat, base, extents, k, data);
          PendedGrows(dirty, pending, old(pending) + Cells(k, |data|));
        }
        host.Put(k, data);
        TotalNone();
      } else {
        MakeRoom(host, |data|);
        TotalNone();
        CoalesceGrows(dirty, k, data);
        if apart {
          InsertKeeps(dirty, clean, host.bytes, flat, base, extents, k, data);
          InsertPends(dirty, clean, host.bytes, flat, base, extents, pending, k, data);
        }
        InsertCoalesced(k, data);
      }
      pending := old(pending) + Cells(k, |data|);
      flat := Overlay(flat, k, data);
      extents := extents + {Extent(k, |data|)};
    }

    /** Flushes the lowest runs until the write fits or nothing is left; does nothing when it fits already. */
    method MakeRoom(host: DiskHost, need: nat)
      requires Valid(host)
      modifies this`dirty, this`used, this`clean, this`cleanUsed, this`lruClock, host
      ensures Valid(host)
      ensures old(used) + need <= budget ==> used == old(used) && dirty == old(dirty) && host.bytes == old(host.bytes)
      ensures need > 0 ==> used + need <= budget || dirty == map[]
      ensures old(used) == TotalBytes(old(dirty)) ==> used == TotalBytes(dirty)
    {
      hide Consistent, Pended, TotalBytes, Freed, Add64;
      while used + need > budget && dirty != map[]
        invariant Valid(host)
        invariant old(used) + need <= budget ==> used == old(used) && dirty == old(dirty) && host.bytes == old(host.bytes)
        invariant old(used) == TotalBytes(old(dirty)) ==> used == TotalBytes(dirty)
        decreases |dirty|
      {
        ghost var before := used;
        var freed := FlushOldest(host, Some(need));
        if before == freed + TotalBytes(dirty) {
          AddExact(before, TotalBytes(dirty) - before);
        }
        if freed == 0 {
          break;
        }
      }
    }

    /** Merges a write into the dirty map. */
    method InsertCoalesced(k: Loc, data: Bytes)
      modifies this`dirty, this`used
      ensures dirty == Coalesce(old(dirty), k, data)
      ensures used == Add64(old(used), Growth(old(dirty), k, data))
    {
      if k in dirty {
        used := Add64(used, |data| - |dirty[k]|);
        dirty := dirty[k := data];
        return;
      }
      var pred := Predecessor(dirty, k);
      if pred.Some? {
        dirty := dirty[pred.value := dirty[pred.value] + data];
        used := Add64(used, |data|);
        return;
      }
      var succ := At(k, |data|);
      if succ in dirty {
        used := Add64(used, |data| - |dirty[succ]|);
        dirty := (dirty - {succ})[k := data + dirty[succ]];
        return;
      }
      dirty := dirty[k := data];
      used := Add64(used, |data|);
    }

    /**
      Serves a read from dirty runs, then clean pages, then the disk. It returns what was written
      whenever no dirty byte lies behind one that is not; with nothing clean and a disk that
      answers in full, it returns exactly the cold bytes, stale ones included.
    */
    method Read(host: DiskHost, k: Loc, len: nat) returns (out: Bytes)
      requires Valid(host)
      modifies this`clean, this`cleanUsed, this`lruClock, host`gets
      ensures |out| <= len
      ensures Resident(dirty, old(clean), k, len) ==> |out| == len && host.gets == old(host.gets)
      ensures Served(dirty, flat, k, len) ==> Valid(host) && |out| == len && Agrees(k, out, flat)
      ensures old(clean) == map[] && host.inFull && OnDisk(host.bytes, k, len) ==>
        |out| == len && IsCold(dirty, host.bytes, k, len, out)
    {
      hide Sound, Whole, Recorded, Agrees, Served, Pended, PagesAgree, IsCold, AllDirty, OnDisk, RunAt, Resident, PageAt, CleanAt, PageHolds, Floor;
      ghost var resident := Resident(dirty, clean, k, len);
      ghost var served := Served(dirty, flat, k, len);
      ghost var cold := clean == map[] && host.inFull && OnDisk(host.bytes, k, len);
      out := [];
      StartRead(dirty, host.bytes, flat, k, len);
      while |out| < len
        invariant |out| <= len
        invariant served ==> Agrees(k, out, flat) && PagesAgree(clean, flat)
        invariant cold ==> IsCold(dirty, host.bytes, k, len, out)
        invariant cold && |out| < len ==> clean == map[] && AllDirty(dirty, k, |out|)
        invariant resident ==> host.gets == old(host.gets) && Resident(dirty, clean, k, len)
        decreases len - |out|
      {
        var pos := At(k, |out|);
        var want := len - |out|;
        var hit := RunAt(dirty, pos);
        if hit.Some? {
          RunAtMeans(dirty, pos);
          var piece := FromRun(dirty[hit.value], hit.value, pos, want);
          DirtyPiece(dirty, host.bytes, flat, base, k, len, out, hit.value, piece, served, cold);
          out := out + piece;
          continue;
        }
        var cleanHit := PageAt(clean, pos);
        Resides(dirty, clean, k, len, |out|);
        PageAtMeans(clean, pos);
        if cleanHit.Some? {
          var page := clean[cleanHit.value].data;
          var piece := FromRun(page, cleanHit.value, pos, want);
          if served {
            PageAgrees(clean, flat, cleanHit.value);
            AgreesPart(cleanHit.value, page, flat, pos, |piece|);
            JoinAgrees(k, out, piece, flat);
          }
          out := out + piece;
          if pos.off + |piece| >= cleanHit.value.off + |page| {
            lruClock := lruClock + 1;
            if served {
              PageTouched(clean, flat, cleanHit.value, lruClock);
            }
            TouchedStays(dirty, clean, k, len, cleanHit.value, lruClock);
            clean := clean[cleanHit.value := Page(page, lruClock)];
          }
          continue;
        }
        var chunk := host.Get(pos, want);
        DiskPiece(dirty, host.bytes, flat, base, k, len, out, chunk, host.inFull, served, cold);
        if chunk == [] {
          break;
        }
        PromoteClean(pos, chunk);
        out := out + chunk;
      }
    }

    /** Adds clean bytes to the read cache, joined to its neighbours, and evicts the oldest pages over budget. */
    method PromoteClean(k: Loc, data: Bytes)
      modifies this`clean, this`cleanUsed, this`lruClock
      ensures old(PagesAgree(clean, flat)) && Agrees(k, data, flat) ==> PagesAgree(clean, flat)
      ensures data != [] ==> cleanUsed <= CLEAN_BUDGET || |clean| <= 1
      ensures data != [] && |old(clean)| < CLEAN_MAX_ENTRIES ==>
        exists s :: s in clean && PageHolds(clean[s], s, k, data) && clean[s].stamp == lruClock == old(lruClock) + 1
    {
      hide Agrees, PagesAgree, Add64, PageHolds;
      if data == [] {
        return;
      }
      lruClock := lruClock + 1;
      var start, merged := k, data;
      if |clean| < CLEAN_MAX_ENTRIES {
        start, merged := JoinPages(k, data);
      }
      KeepPage(start, merged);
    }

    /** Takes the pages that touch the data out and joins them to it. */
    method JoinPages(k: Loc, data: Bytes) returns (start: Loc, merged: Bytes)
      modifies this`clean, this`cleanUsed
      ensures |clean| <= |old(clean)|
      ensures old(PagesAgree(clean, flat)) && Agrees(k, data, flat) ==> PagesAgree(clean, flat) && Agrees(start, merged, flat)
      ensures PageHolds(Page(merged, lruClock), start, k, data)
    {
      hide Agrees, PagesAgree, Floor, PageHolds;
      ghost var right := PagesAgree(clean, flat) && Agrees(k, data, flat);
      var front: Bytes, back: Bytes := [], [];
      start := k;
      var pred := if k.off == 0 then None else Floor(clean.Keys, Loc(k.disk, k.off - 1));
      if pred.Some? && pred.value.off + |clean[pred.value].data| == k.off {
        start := pred.value;
        front := TakePage(start);
      }
      assert At(start, |front|) == k;
      if right && front != [] {
        JoinAgrees(start, front, data, flat);
      }
      assert front == [] ==> front + data == data;
      assert right ==> Agrees(start, front + data, flat);
      var succ := At(start, |front + data|);
      if succ in clean {
        back := TakePage(succ);
        if right {
          JoinAgrees(start, front + data, back, flat);
        }
      }
      merged := front + data + back;
      assert back == [] ==> merged == front + data;
      JoinHolds(start, k, front, data, back, lruClock);
    }

    /** Takes one page out. */
    method TakePage(s: Loc) returns (v: Bytes)
      requires s in clean
      modifies this`clean, this`cleanUsed
      ensures v == old(clean)[s].data && clean == old(clean) - {s} && |clean| <= |old(clean)|
      ensures cleanUsed == Add64(old(cleanUsed), -|v|)
      ensures old(PagesAgree(clean, flat)) ==> PagesAgree(clean, flat) && Agrees(s, v, flat)
    {
      hide Agrees, PagesAgree, Add64;
      v := clean[s].data;
      if PagesAgree(clean, flat) {
        PageAgrees(clean, flat, s);
        PageDropped(clean, flat, s);
      }
      clean := clean - {s};
      cleanUsed := Add64(cleanUsed, -|v|);
    }

    /** Makes room for a page and files it as the newest, if there are not too many. */
    method KeepPage(start: Loc, merged: Bytes)
      modifies this`clean, this`cleanUsed
      ensures old(PagesAgree(clean, flat)) && Agrees(start, merged, flat) ==> PagesAgree(clean, flat)
      ensures cleanUsed <= CLEAN_BUDGET || |clean| <= 1
      ensures |old(clean)| < CLEAN_MAX_ENTRIES ==> start in clean && clean[start] == Page(merged, lruClock)
    {
      hide Agrees, PagesAgree;
      ghost var right := PagesAgree(clean, flat) && Agrees(start, merged, flat);
      EvictClean(|merged|);
      if |clean| < CLEAN_MAX_ENTRIES {
        if right {
          PageAdded(clean, flat, start, Page(merged, lruClock));
        }
        cleanUsed := Add64(cleanUsed, |merged|);
        clean := clean[start := Page(merged, lruClock)];
      }
    }

    /** Drops the least recently used pages, and no others, until `need` more bytes fit or nothing is left. */
    method EvictClean(need: nat)
      modifies this`clean, this`cleanUsed
      ensures old(PagesAgree(clean, flat)) ==> PagesAgree(clean, flat)
      ensures |clean| <= |old(clean)| && forall j :: j in clean ==> j in old(clean) && clean[j] == old(clean)[j]
      ensures forall v, j :: v in old(clean) && v !in clean && j in clean ==> old(clean)[v].stamp <= clean[j].stamp
      ensures cleanUsed + need <= CLEAN_BUDGET || clean == map[]
    {
      hide Agrees;
      while cleanUsed + need > CLEAN_BUDGET && clean != map[]
        invariant |clean| <= |old(clean)| && forall j :: j in clean ==> j in old(clean) && clean[j] == old(clean)[j]
        invariant forall v, j :: v in old(clean) && v !in clean && j in clean ==> old(clean)[v].stamp <= clean[j].stamp
        decreases |clean|
      {
        OldestExists(clean, clean.Keys);
        var victim :| victim in clean && forall j :: j in clean.Keys ==> clean[victim].stamp <= clean[j].stamp;
        cleanUsed := Add64(cleanUsed, -|clean[victim].data|);
        clean := clean - {victim};
      }
    }

    /** Writes out every dirty run: the disk is then the original disk overlaid with everything written. */
    method Flush(host: DiskHost)
      requires Valid(host)
      modifies this`dirty, this`used, this`clean, this`cleanUsed, this`lruClock, this`pending, host
      ensures Valid(host) && dirty == map[] && host.bytes == base + flat && pending == {}
    {
      var _ := FlushOldest(host, None);
      FlushedDisk(dirty, host.bytes, flat, base);
      pending := {};
    }

    method FlushBounded(host: DiskHost, maxBytes: nat) returns (freed: nat)
      requires Valid(host)
      modifies this`dirty, this`used, this`clean, this`cleanUsed, this`lruClock, host
      ensures Valid(host)
      ensures freed + TotalBytes(dirty) == TotalBytes(old(dirty)) && used == Add64(old(used), 0 - freed)
      ensures freed == Freed(old(dirty), maxBytes)
      ensures freed >= maxBytes || dirty == map[]
    {
      freed := FlushOldest(host, Some(maxBytes));
    }

    /** Writes out the dirty runs of one disk. */
    method FlushDisk(host: DiskHost, disk: nat)
      requires Valid(host)
      modifies this`dirty, this`used, this`clean, this`cleanUsed, this`lruClock, this`pending, host
      ensures Valid(host)
      ensures forall k :: k in dirty <==> k in old(dirty) && k.disk != disk
      ensures used == Add64(old(used), TotalBytes(dirty) - TotalBytes(old(dirty)))
      ensures pending == set l | l in old(pending) && l.disk != disk
    {
      hide Sound, Whole, Recorded, PagesAgree, KeyOrder, Pended, TotalBytes, Add64;
      AddNothing(used);
      var keys := KeysInOrder(set k | k in dirty && k.disk == disk);
      KeyOrderRises(set k | k in dirty && k.disk == disk);
      var i := 0;
      while i < |keys|
        invariant 0 <= i <= |keys|
        invariant Consistent(dirty, clean, host.bytes, flat, base, extents) && Pended(dirty, pending)
        invariant pending == old(pending)
        invariant used == Add64(old(used), TotalBytes(dirty) - TotalBytes(old(dirty)))
        invariant forall k :: k in dirty <==> k in old(dirty) && k !in keys[..i]
      {
        var k := keys[i];
        assert k in keys && k !in keys[..i];
        TotalWithout(dirty, k);
        AddTwice(old(used), TotalBytes(dirty) - TotalBytes(old(dirty)), -|dirty[k]|);
        FlushRun(host, k);
        i := i + 1;
      }
      assert keys[..i] == keys;
      DiskPends(dirty, pending, disk);
      pending := set l | l in pending && l.disk != disk;
    }

    /** Moves one run to the disk and on to the read cache. */
    method FlushRun(host: DiskHost, k: Loc)
      requires Valid(host) && k in dirty
      modifies this`dirty, this`used, this`clean, this`cleanUsed, this`lruClock, host`bytes
      ensures Valid(host) && dirty == old(dirty) - {k} && used == Add64(old(used), -|old(dirty)[k]|)
      ensures host.bytes == Overlay(old(host.bytes), k, old(dirty)[k])
    {
      hide Sound, Whole, Recorded, PagesAgree, Pended, Add64, Overlay, PageHolds;
      var data := dirty[k];
      FlushKeeps(dirty, host.bytes, flat, base, extents, k);
      FlushPends(dirty, host.bytes, flat, base, pending, k);
      dirty := dirty - {k};
      used := Add64(used, -|data|);
      host.Put(k, data);
      PromoteClean(k, data);
    }

    /**
      Takes the lowest runs out of the dirty map until enough bytes are freed, joining contiguous
      ones, then writes the batch. No bound means everything.
    */
    method FlushOldest(host: DiskHost, minFreed: Option<nat>) returns (freed: nat)
      requires Valid(host)
      modifies this`dirty, this`used, this`clean, this`cleanUsed, this`lruClock, host
      ensures Valid(host)
      ensures minFreed.None? ==> dirty == map[]
      ensures freed + TotalBytes(dirty) == TotalBytes(old(dirty)) && used == Add64(old(used), 0 - freed)
      ensures minFreed.Some? ==> freed == Freed(old(dirty), minFreed.value)
      ensures minFreed.Some? ==> freed >= minFreed.value || dirty == map[]
      ensures freed > 0 ==> |dirty| < |old(dirty)|
    {
      hide Sound, Whole, Recorded, PagesAgree, DiskAfter, TotalBytes, Pended, Freed;
      var batch;
      freed, batch := CollectBatch(minFreed, host.bytes);
      WriteBatch(host, batch);
    }

    method CollectBatch(minFreed: Option<nat>, ghost disk: Store) returns (freed: nat, batch: seq<DiskWrite>)
      requires Consistent(dirty, clean, disk, flat, base, extents) && Pended(dirty, pending)
      modifies this`dirty, this`used
      ensures Consistent(dirty, clean, DiskAfter(disk, batch), flat, base, extents) && Pended(dirty, pending)
      ensures BatchAgrees(batch, flat)
      ensures minFreed.None? ==> dirty == map[]
      ensures freed + TotalBytes(dirty) == TotalBytes(old(dirty)) && used == Add64(old(used), 0 - freed)
      ensures minFreed.Some? ==> freed == Freed(old(dirty), minFreed.value)
      ensures minFreed.Some? ==> freed >= minFreed.value || dirty == map[]
      ensures freed > 0 ==> |dirty| < |old(dirty)|
    {
      hide Sound, Whole, Recorded, PagesAgree, DiskAfter, Agrees, Overlay, Batched, TotalBytes, Pended, KeyOrder, SumRuns, StopAt, Rest, Add64;
      AddNothing(used);
      freed, batch := 0, [];
      assert DiskAfter(disk, []) == disk by { NoWrites(disk); }
      var keys := KeysInOrder(dirty.Keys);
      ghost var all := dirty;
      TakeNone(all, keys, minFreed);
      var i := 0;
      while i < |keys|
        invariant 0 <= i <= |keys|
        invariant Consistent(dirty, clean, DiskAfter(disk, batch), flat, base, extents) && Pended(dirty, pending)
        invariant BatchAgrees(batch, flat)
        invariant dirty == Rest(all, keys, i) && freed == SumRuns(all, keys[..i])
        invariant used == Add64(old(used), 0 - freed)
        invariant minFreed.Some? ==> StopAt(all, keys, minFreed.value, i) == StopAt(all, keys, minFreed.value, 0)
      {
        if minFreed.Some? && freed >= minFreed.value {
          break;
        }
        var k := keys[i];
        TakeOne(all, keys, i, minFreed);
        var data := dirty[k];
        FlushKeeps(dirty, DiskAfter(disk, batch), flat, base, extents, k);
        FlushPends(dirty, DiskAfter(disk, batch), flat, base, pending, k);
        dirty := dirty - {k};
        AddTwice(old(used), 0 - freed, -|data|);
        used := Add64(used, -|data|);
        freed := freed + |data|;
        i := i + 1;
        BatchedWrites(disk, batch, k, data, flat);
        batch := Batched(batch, k, data);
      }
      TakeDone(all, keys, i, minFreed);
    }

    method WriteBatch(host: DiskHost, batch: seq<DiskWrite>)
      requires Consistent(dirty, clean, DiskAfter(host.bytes, batch), flat, base, extents) && Pended(dirty, pending)
      requires BatchAgrees(batch, flat)
      modifies this`clean, this`cleanUsed, this`lruClock, host
      ensures Valid(host)
    {
      hide Sound, Whole, Recorded, Agrees, Overlay, Pended;
      ghost var target := DiskAfter(host.bytes, batch);
      var i := 0;
      assert batch[0..] == batch;
      while i < |batch|
        invariant 0 <= i <= |batch|
        invariant DiskAfter(host.bytes, batch[i..]) == target
        invariant PagesAgree(clean, flat)
      {
        var w := batch[i];
        assert batch[i..][1..] == batch[i + 1..];
        host.Put(w.start, w.data);
        PromoteClean(w.start, w.data);
        i := i + 1;
      }
    }

    /**
      Any disciplined sequence of calls: each read returns what a flat store with all earlier
      writes applied would return, whatever was coalesced, flushed, promoted or evicted.
    */
    method Replay(host: DiskHost, ops: seq<Op>) returns (outs: seq<Bytes>)
      requires Valid(host) && Disciplined(ops, flat, extents, pending)
      modifies this, host
      ensures Valid(host) && base == old(base)
      ensures outs == Expected(ops, old(flat)) && flat == Final(ops, old(flat))
    {
      hide Consistent, Overlay, FlatAfter, ExtentsAfter, PendingAfter, OpAllowed, OpResult, Pended;
      outs := [];
      var i := 0;
      assert ops[0..] == ops;
      while i < |ops|
        invariant 0 <= i <= |ops| && Valid(host) && base == old(base)
        invariant Disciplined(ops[i..], flat, extents, pending)
        invariant outs + Expected(ops[i..], flat) == Expected(ops, old(flat))
        invariant Final(ops[i..], flat) == Final(ops, old(flat))
      {
        assert ops[i..][1..] == ops[i + 1..];
        var out := Perform(host, ops[i]);
        outs := outs + out;
        i := i + 1;
      }
    }

    /** One call. */
    method Perform(host: DiskHost, op: Op) returns (out: seq<Bytes>)
      requires Valid(host) && OpAllowed(op, flat, extents, pending)
      modifies this, host
      ensures Valid(host) && base == old(base)
      ensures flat == FlatAfter(op, old(flat)) && extents == ExtentsAfter(op, old(extents))
      ensures pending == PendingAfter(op, old(pending))
      ensures out == OpResult(op, old(flat))
    {
      hide Consistent, Overlay, Agrees, Slice, Pended, Cells, Served, OnDisk, IsCold, ReadAllowed, TotalBytes, Freed;
      out := [];
      match op {
        case OpWrite(start, data) =>
          Write(host, start, data);
        case OpRead(start, len) =>
          AllowedIsServed(dirty, clean, host.bytes, flat, base, extents, pending, start, len);
          var bytes := Read(host, start, len);
          SliceIs(flat, start, bytes);
          out := [bytes];
        case OpFlush =>
          Flush(host);
        case OpFlushBounded(max) =>
          var _ := FlushBounded(host, max);
        case OpFlushDisk(disk) =>
          FlushDisk(host, disk);
      }
    }
  }

  // ----- runs over a flat store

  datatype Op =
    | OpWrite(start: Loc, data: Bytes)
    | OpRead(start: Loc, len: nat)
    | OpFlush
    | OpFlushBounded(max: nat)
    | OpFlushDisk(disk: nat)

  ghost function FlatAfter(op: Op, flat: Store): Store {
    if op.OpWrite? then Overlay(flat, op.start, op.data) else flat
  }

  ghost function ExtentsAfter(op: Op, extents: set<Extent>): set<Extent> {
    if op.OpWrite? && op.data != [] then extents + {Extent(op.start, |op.data|)} else extents
  }

  /** What may still be waiting for the disk. */
  ghost function PendingAfter(op: Op, pending: set<Loc>): set<Loc> {
    match op
    case OpWrite(start, data) => pending + Cells(start, |data|)
    case OpFlush => {}
    case OpFlushDisk(disk) => set l | l in pending && l.disk != disk
    case _ => pending
  }

  /** Every byte of the window was written, and flushed since. */
  ghost predicate Settled(flat: Store, pending: set<Loc>, k: Loc, len: nat) {
    forall i :: 0 <= i < len ==> At(k, i) in flat && At(k, i) !in pending
  }

  /** Writes never meet an earlier write; each read lies inside one earlier write or asks for flushed bytes. */
  ghost predicate OpAllowed(op: Op, flat: Store, extents: set<Extent>, pending: set<Loc>) {
    && (op.OpWrite? ==> Apart(flat, op.start, |op.data|))
    && (op.OpRead? ==> ReadAllowed(flat, extents, pending, op.start, op.len))
  }

  ghost predicate ReadAllowed(flat: Store, extents: set<Extent>, pending: set<Loc>, k: Loc, len: nat) {
    (exists e :: e in extents && Encloses(e, k, len)) || Settled(flat, pending, k, len)
  }

  lemma AllowedIsServed(dirty: Runs, clean: map<Loc, Page>, disk: Store, flat: Store, base: Store, extents: set<Extent>,
                        pending: set<Loc>, k: Loc, len: nat)
    requires Consistent(dirty, clean, disk, flat, base, extents) && Pended(dirty, pending)
    requires ReadAllowed(flat, extents, pending, k, len)
    ensures Served(dirty, flat, k, len)
  {
    hide RunAt, Sound, PagesAgree;
    if e :| e in extents && Encloses(e, k, len) {
      var d := k.off - e.start.off;
      assert forall i: nat :: i < len ==> At(e.start, d + i) == At(k, i);
      forall i: nat | i < len
        ensures At(k, i) in flat && RunAt(dirty, At(k, i)) == RunAt(dirty, e.start)
      {
        assert At(e.start, d + i) == At(k, i);
      }
    }
  }

  ghost predicate Disciplined(ops: seq<Op>, flat: Store, extents: set<Extent>, pending: set<Loc>)
    decreases |ops|
  {
    ops == [] || (
      && OpAllowed(ops[0], flat, extents, pending)
      && Disciplined(ops[1..], FlatAfter(ops[0], flat), ExtentsAfter(ops[0], extents), PendingAfter(ops[0], pending)))
  }

  ghost function Slice(flat: Store, k: Loc, len: nat): Bytes {
    seq(len, i requires 0 <= i < len => if At(k, i) in flat then flat[At(k, i)] else 0)
  }

  lemma SliceIs(flat: Store, k: Loc, out: Bytes)
    requires Agrees(k, out, flat)
    ensures out == Slice(flat, k, |out|)
  {
  }

  ghost function OpResult(op: Op, flat: Store): seq<Bytes> {
    if op.OpRead? then [Slice(flat, op.start, op.len)] else []
  }

  ghost function Expected(ops: seq<Op>, flat: Store): seq<Bytes>
    decreases |ops|
  {
    if ops == [] then [] else OpResult(ops[0], flat) + Expected(ops[1..], FlatAfter(ops[0], flat))
  }

  ghost function Final(ops: seq<Op>, flat: Store): Store
    decreases |ops|
  {
    if ops == [] then flat else Final(ops[1..], FlatAfter(ops[0], flat))
  }

  // ----- the byte counter

  lemma TotalNone()
    ensures TotalBytes(map[]) == 0
  {
  }

  lemma CoalesceGrows(m: Runs, k: Loc, data: Bytes)
    ensures TotalBytes(Coalesce(m, k, data)) <= TotalBytes(m) + |data|
  {
    hide TotalBytes, Predecessor;
    var p := Predecessor(m, k);
    var succ := At(k, |data|);
    if k in m {
      TotalPut(m, k, data);
      TotalWithout(m, k);
    } else if p.Some? {
      TotalPut(m, p.value, m[p.value] + data);
      TotalWithout(m, p.value);
    } else if succ in m {
      TotalPut(m - {succ}, k, data + m[succ]);
      assert m - {succ} - {k} == m - {succ};
      TotalWithout(m, succ);
    } else {
      TotalPut(m, k, data);
      assert m - {k} == m;
    }
  }

  /** The counter follows the dirty bytes except when a write is put in front of a run: that run is then forgotten. */
  lemma CounterIsExact(m: Runs, k: Loc, data: Bytes)
    requires forall j :: j in m ==> m[j] != []
    ensures TotalBytes(Coalesce(m, k, data)) == TotalBytes(m) + Growth(m, k, data)
      <==> k in m || Predecessor(m, k).Some? || At(k, |data|) !in m
  {
    var p := Predecessor(m, k);
    var succ := At(k, |data|);
    if k in m {
      TotalPut(m, k, data);
      TotalWithout(m, k);
    } else if p.Some? {
      TotalPut(m, p.value, m[p.value] + data);
      TotalWithout(m, p.value);
    } else if succ in m {
      TotalPut(m - {succ}, k, data + m[succ]);
      assert m - {succ} - {k} == m - {succ};
      TotalWithout(m, succ);
    } else {
      TotalPut(m, k, data);
      assert m - {k} == m;
    }
  }
}
