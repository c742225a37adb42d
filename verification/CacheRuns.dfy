/**
  Runs of bytes in an ordered map keyed by (disk, offset): lookup, disjointness, and the way
  the write-back cache coalesces a new write into its neighbours.
*/
module CacheRuns {
  import opened Common

  datatype Loc = Loc(disk: nat, off: nat)
  type Runs = map<Loc, Bytes>
  type Store = map<Loc, byte>

  function At(k: Loc, i: nat): Loc {
    Loc(k.disk, k.off + i)
  }

  predicate Within(k: Loc, len: nat, l: Loc) {
    k.disk == l.disk && k.off <= l.off < k.off + len
  }

  /** The key at the greatest offset at or below `l` on the same disk. */
  function Floor(keys: set<Loc>, l: Loc): (k: Option<Loc>)
    ensures k.Some? ==>
      && k.value in keys && k.value.disk == l.disk && k.value.off <= l.off
      && forall j :: j in keys && j.disk == l.disk && j.off <= l.off ==> j.off <= k.value.off
    ensures k.None? ==> forall j :: j in keys && j.disk == l.disk ==> l.off < j.off
    decreases l.off
  {
    if l in keys then Some(l)
    else if l.off == 0 then None
    else Floor(keys, Loc(l.disk, l.off - 1))
  }

  /** The run that a read at `l` hits. */
  function RunAt(m: Runs, l: Loc): Option<Loc> {
    var k := Floor(m.Keys, l);
    if k.Some? && Within(k.value, |m[k.value]|, l) then k else None
  }

  ghost predicate Disjoint(m: Runs) {
    && (forall k :: k in m ==> m[k] != [])
    && forall j, k :: j in m && k in m && j.disk == k.disk && j.off < k.off ==> j.off + |m[j]| <= k.off
  }

  /** All bytes of the run at `k` are those of the store. */
  ghost predicate Agrees(k: Loc, data: Bytes, store: Store) {
    forall i :: 0 <= i < |data| ==> At(k, i) in store && store[At(k, i)] == data[i]
  }

  ghost predicate AllAgree(m: Runs, store: Store) {
    forall k :: k in m ==> Agrees(k, m[k], store)
  }

  ghost function Overlay(store: Store, k: Loc, data: Bytes): (s: Store)
  {
    map l | l in store.Keys + (set i | 0 <= i < |data| :: At(k, i)) ::
      if Within(k, |data|, l) then data[l.off - k.off] else store[l]
  }

  lemma OverlayAt(store: Store, k: Loc, data: Bytes, l: Loc)
    ensures Within(k, |data|, l) ==> l in Overlay(store, k, data) && Overlay(store, k, data)[l] == data[l.off - k.off]
    ensures !Within(k, |data|, l) ==>
      (l in Overlay(store, k, data) <==> l in store) && (l in store ==> Overlay(store, k, data)[l] == store[l])
  {
    if Within(k, |data|, l) {
      assert At(k, l.off - k.off) == l;
    }
  }

  // ----- lookup

  /** Among disjoint runs, the run covering a location is the one a read hits. */
  lemma RunAtIs(m: Runs, k: Loc, l: Loc)
    requires Disjoint(m) && k in m && Within(k, |m[k]|, l)
    ensures RunAt(m, l) == Some(k)
  {
    var f := Floor(m.Keys, l).value;
    assert f.off >= k.off;
  }

  lemma RunAtNone(m: Runs, l: Loc)
    requires forall k :: k in m ==> !Within(k, |m[k]|, l)
    ensures RunAt(m, l) == None
  {
  }

  /** Removing a run uncovers exactly its own bytes. */
  lemma RemoveRun(m: Runs, k: Loc)
    requires Disjoint(m) && k in m
    ensures Disjoint(m - {k})
    ensures forall l :: RunAt(m - {k}, l) == if Within(k, |m[k]|, l) then None else RunAt(m, l)
  {
    var m' := m - {k};
    forall l
      ensures RunAt(m', l) == if Within(k, |m[k]|, l) then None else RunAt(m, l)
    {
      if Within(k, |m[k]|, l) {
        forall j | j in m'
          ensures !Within(j, |m'[j]|, l)
        {
          if Within(j, |m'[j]|, l) {
            RunAtIs(m, j, l);
            RunAtIs(m, k, l);
          }
        }
        RunAtNone(m', l);
      } else if RunAt(m, l).Some? {
        RunAtIs(m', RunAt(m, l).value, l);
      } else {
        forall j | j in m'
          ensures !Within(j, |m'[j]|, l)
        {
          if Within(j, |m'[j]|, l) {
            RunAtIs(m, j, l);
          }
        }
        RunAtNone(m', l);
      }
    }
  }

  /** A new run in free space covers exactly its own bytes. */
  lemma AddRun(m: Runs, k: Loc, data: Bytes)
    requires Disjoint(m) && data != []
    requires forall i :: 0 <= i < |data| ==> RunAt(m, At(k, i)) == None
    ensures k !in m && Disjoint(m[k := data])
    ensures forall l :: RunAt(m[k := data], l) == if Within(k, |data|, l) then Some(k) else RunAt(m, l)
  {
    var m' := m[k := data];
    assert At(k, 0) == k;
    if k in m {
      RunAtIs(m, k, k);
    }
    forall j | j in m && j.disk == k.disk
      ensures j.off < k.off ==> j.off + |m[j]| <= k.off
      ensures k.off < j.off ==> k.off + |data| <= j.off
    {
      if j.off < k.off < j.off + |m[j]| {
        RunAtIs(m, j, k);
      }
      if k.off < j.off < k.off + |data| {
        assert At(k, j.off - k.off) == j;
        RunAtIs(m, j, j);
      }
    }
    assert Disjoint(m');
    forall l
      ensures RunAt(m', l) == if Within(k, |data|, l) then Some(k) else RunAt(m, l)
    {
      if Within(k, |data|, l) {
        RunAtIs(m', k, l);
      } else if RunAt(m, l).Some? {
        RunAtIs(m', RunAt(m, l).value, l);
      } else {
        forall j | j in m'
          ensures !Within(j, |m'[j]|, l)
        {
          if j in m && Within(j, |m[j]|, l) {
            RunAtIs(m, j, l);
          }
        }
        RunAtNone(m', l);
      }
    }
  }

  // ----- coalescing

  /** The run just below `k`, when it ends exactly at `k`. */
  function Predecessor(m: Runs, k: Loc): (p: Option<Loc>)
    ensures p.Some? ==> p.value in m && p.value.disk == k.disk && p.value.off < k.off && p.value.off + |m[p.value]| == k.off
  {
    if k.off == 0 then None
    else
      var f := Floor(m.Keys, Loc(k.disk, k.off - 1));
      if f.Some? && f.value.off + |m[f.value]| == k.off then f else None
  }

  /**
    The dirty map after a write. A run with the same start is replaced; else the write is appended
    to the run that ends where it starts; else it is put in front of the run that starts where it ends.
  */
  function Coalesce(m: Runs, k: Loc, data: Bytes): Runs {
    if k in m then m[k := data]
    else
      var p := Predecessor(m, k);
      var succ := At(k, |data|);
      if p.Some? then m[p.value := m[p.value] + data]
      else if succ in m then (m - {succ})[k := data + m[succ]]
      else m[k := data]
  }

  /** Where the written bytes end up. */
  function CoalescedKey(m: Runs, k: Loc): Loc {
    var p := Predecessor(m, k);
    if k !in m && p.Some? then p.value else k
  }

  /** The write reaches no byte that is dirty already. */
  ghost predicate Free(m: Runs, k: Loc, len: nat) {
    forall i :: 0 <= i < len ==> RunAt(m, At(k, i)) == None
  }

  lemma FreeStart(m: Runs, k: Loc, data: Bytes)
    requires Disjoint(m) && data != [] && Free(m, k, |data|)
    ensures k !in m
  {
    assert At(k, 0) == k;
    if k in m {
      RunAtIs(m, k, k);
    }
  }

  /** Replacing a run by one that covers the same bytes and a free stretch next to it. */
  lemma Regrow(m: Runs, old_: Loc, k: Loc, data: Bytes)
    requires Disjoint(m) && old_ in m && data != []
    requires k.disk == old_.disk && k.off <= old_.off && old_.off + |m[old_]| <= k.off + |data|
    requires forall i :: 0 <= i < |data| && !Within(old_, |m[old_]|, At(k, i)) ==> RunAt(m, At(k, i)) == None
    ensures Disjoint((m - {old_})[k := data])
    ensures forall l :: RunAt((m - {old_})[k := data], l) == if Within(k, |data|, l) then Some(k) else RunAt(m, l)
  {
    RemoveRun(m, old_);
    AddRun(m - {old_}, k, data);
  }

  /** The runs of `eaten` together with one write have become the single run `c`; other lookups are unchanged. */
  ghost predicate Joined(m: Runs, m': Runs, c: Loc, k: Loc, len: nat, eaten: set<Loc>) {
    && Disjoint(m') && c in m'
    && forall l :: RunAt(m', l) == if Within(k, len, l) || HitsOne(m, l, eaten) then Some(c) else RunAt(m, l)
  }

  predicate HitsOne(m: Runs, l: Loc, eaten: set<Loc>) {
    RunAt(m, l).Some? && RunAt(m, l).value in eaten
  }

  /** The runs a write is merged with. */
  function Eaten(m: Runs, k: Loc, len: nat): set<Loc> {
    var p := Predecessor(m, k);
    if p.Some? then {p.value} else if At(k, len) in m then {At(k, len)} else {}
  }

  lemma HitsIsWithin(m: Runs, k: Loc, l: Loc)
    requires Disjoint(m) && k in m
    ensures HitsOne(m, l, {k}) <==> Within(k, |m[k]|, l)
  {
    if Within(k, |m[k]|, l) {
      RunAtIs(m, k, l);
    }
  }

  lemma AppendJoins(m: Runs, p: Loc, k: Loc, data: Bytes)
    requires Disjoint(m) && data != [] && Free(m, k, |data|)
    requires p in m && k == At(p, |m[p]|)
    ensures Joined(m, m[p := m[p] + data], p, k, |data|, {p})
  {
    var v := m[p] + data;
    forall i | 0 <= i < |v| && !Within(p, |m[p]|, At(p, i))
      ensures RunAt(m, At(p, i)) == None
    {
      assert At(p, i) == At(k, i - |m[p]|);
    }
    hide RunAt, Disjoint, Free;
    Regrow(m, p, p, v);
    assert (m - {p})[p := v] == m[p := v];
    hide HitsOne;
    forall l
      ensures RunAt(m[p := v], l) == if Within(k, |data|, l) || HitsOne(m, l, {p}) then Some(p) else RunAt(m, l)
    {
      HitsIsWithin(m, p, l);
      assert Within(p, |v|, l) <==> Within(k, |data|, l) || Within(p, |m[p]|, l);
    }
  }

  lemma PrependJoins(m: Runs, k: Loc, data: Bytes)
    requires Disjoint(m) && data != [] && Free(m, k, |data|)
    requires At(k, |data|) in m
    ensures Joined(m, (m - {At(k, |data|)})[k := data + m[At(k, |data|)]], k, k, |data|, {At(k, |data|)})
  {
    hide RunAt, Disjoint;
    var succ := At(k, |data|);
    var all := data + m[succ];
    Regrow(m, succ, k, all);
    var m' := (m - {succ})[k := all];
    hide HitsOne;
    forall l
      ensures RunAt(m', l) == if Within(k, |data|, l) || HitsOne(m, l, {succ}) then Some(k) else RunAt(m, l)
    {
      HitsIsWithin(m, succ, l);
      assert Within(k, |all|, l) <==> Within(k, |data|, l) || Within(succ, |m[succ]|, l);
    }
  }

  lemma InsertJoins(m: Runs, k: Loc, data: Bytes)
    requires Disjoint(m) && data != [] && Free(m, k, |data|)
    ensures Joined(m, m[k := data], k, k, |data|, {})
  {
    hide Disjoint;
    AddRun(m, k, data);
  }

  /** Writing into free space adds the written bytes to one run and leaves every other lookup alone. */
  lemma CoalesceJoins(m: Runs, k: Loc, data: Bytes)
    requires Disjoint(m) && data != [] && Free(m, k, |data|)
    ensures Joined(m, Coalesce(m, k, data), CoalescedKey(m, k), k, |data|, Eaten(m, k, |data|))
  {
    FreeStart(m, k, data);
    hide RunAt, Disjoint, Predecessor, Free, Joined;
    var p := Predecessor(m, k);
    if p.Some? {
      AppendJoins(m, p.value, k, data);
    } else if At(k, |data|) in m {
      PrependJoins(m, k, data);
    } else {
      InsertJoins(m, k, data);
    }
  }

  /** A write that meets no run leaves the runs right and its own bytes too. */
  lemma OverlayAgrees(m: Runs, k: Loc, data: Bytes, store: Store)
    requires AllAgree(m, store)
    requires forall j, i :: j in m && 0 <= i < |m[j]| ==> !Within(k, |data|, At(j, i))
    ensures AllAgree(m, Overlay(store, k, data)) && Agrees(k, data, Overlay(store, k, data))
  {
    hide Overlay;
    var store' := Overlay(store, k, data);
    forall j | j in m
      ensures Agrees(j, m[j], store')
    {
      assert Agrees(j, m[j], store);
      forall i | 0 <= i < |m[j]|
        ensures At(j, i) in store' && store'[At(j, i)] == m[j][i]
      {
        OverlayAt(store, k, data, At(j, i));
      }
    }
    forall i | 0 <= i < |data|
      ensures At(k, i) in store' && store'[At(k, i)] == data[i]
    {
      OverlayAt(store, k, data, At(k, i));
    }
  }

  /** Every byte of every run is right after a coalesced write. */
  lemma CoalesceAgrees(m: Runs, k: Loc, data: Bytes, store: Store)
    requires data != [] && k !in m && AllAgree(m, store)
    requires forall j, i :: j in m && 0 <= i < |m[j]| ==> !Within(k, |data|, At(j, i))
    ensures AllAgree(Coalesce(m, k, data), Overlay(store, k, data))
  {
    OverlayAgrees(m, k, data, store);
    hide Overlay, Agrees, Predecessor;
    var store' := Overlay(store, k, data);
    var p := Predecessor(m, k);
    var succ := At(k, |data|);
    if p.Some? {
      assert At(p.value, |m[p.value]|) == k;
      JoinAgrees(p.value, m[p.value], data, store');
    } else if succ in m {
      JoinAgrees(k, data, m[succ], store');
    }
  }

  lemma JoinAgrees(k: Loc, a: Bytes, b: Bytes, store: Store)
    requires Agrees(k, a, store) && Agrees(At(k, |a|), b, store)
    ensures Agrees(k, a + b, store)
  {
    forall i | 0 <= i < |a + b|
      ensures At(k, i) in store && store[At(k, i)] == (a + b)[i]
    {
      if i >= |a| {
        assert At(k, i) == At(At(k, |a|), i - |a|);
      }
    }
  }

  /**
    A write that starts where a dirty run starts and is no longer than it replaces the run: the
    bytes of the run stay dirty exactly when the write is as long as the run.
  */
  lemma RewriteKeepsTail(m: Runs, k: Loc, data: Bytes)
    requires Disjoint(m) && k in m && 0 < |data| <= |m[k]|
    ensures (forall l :: RunAt(m, l) == Some(k) ==> RunAt(Coalesce(m, k, data), l) == Some(k)) <==> |data| == |m[k]|
  {
    hide RunAt, Coalesce, Disjoint, Floor;
    RewriteLookup(m, k, data);
    RunAtIs(m, k, At(k, |m[k]| - 1));
    forall l | RunAt(m, l) == Some(k)
      ensures Within(k, |m[k]|, l)
    {
      RunAtMeans(m, l);
    }
  }

  lemma RewriteLookup(m: Runs, k: Loc, data: Bytes)
    requires Disjoint(m) && k in m && 0 < |data| <= |m[k]|
    ensures forall l :: RunAt(Coalesce(m, k, data), l) == Rewritten(m, k, |data|, l)
  {
    hide RunAt, Disjoint, Floor;
    RemoveRun(m, k);
    AddRun(m - {k}, k, data);
    assert Coalesce(m, k, data) == (m - {k})[k := data];
  }

  /** What a read hits after the run at `k` has been replaced by one of length `len`. */
  function Rewritten(m: Runs, k: Loc, len: nat, l: Loc): Option<Loc>
    requires k in m
  {
    if Within(k, len, l) then Some(k) else if Within(k, |m[k]|, l) then None else RunAt(m, l)
  }

  lemma RunAtMeans(m: Runs, l: Loc)
    ensures RunAt(m, l).Some? ==> RunAt(m, l).value in m && Within(RunAt(m, l).value, |m[RunAt(m, l).value]|, l)
  {
  }
}
