/**
 * The Kademlia routing table (`src/dht.rs`): what every reachable table keeps,
 * what a newcomer can displace, and what `closest` returns.
 */
module Routing {
  import opened Common
  import opened NodeIds

  datatype Endpoint = V4(ip4: seq<bv8>, port4: nat) | V6(ip6: seq<bv8>, port6: nat)

  datatype Entry = Entry(id: Id, addr: Endpoint, lastSeen: nat, failed: nat)

  type Nodes = seq<Entry>
  type Table = seq<Nodes>

  const U32_MAX: nat := 0xFFFF_FFFF

  predicate Good(n: Entry, now: nat) {
    n.failed == 0 && Max(now - n.lastSeen, 0) < 15 * 60 * 1000
  }

  // ---------------------------------------------------------------------
  // One bucket
  // ---------------------------------------------------------------------

  /** The first node with this id. */
  function Find(nodes: Nodes, id: Id): (r: Option<nat>)
    ensures r.None? <==> forall n :: n in nodes ==> n.id != id
    ensures r.Some? ==> r.value < |nodes| && nodes[r.value].id == id
  {
    if nodes == [] then None
    else if nodes[0].id == id then Some(0)
    else match Find(nodes[1..], id)
      case None => None
      case Some(i) => Some(i + 1)
  }

  /** The first node that is not good. */
  function FindBad(nodes: Nodes, now: nat): (r: Option<nat>)
    ensures r.None? <==> forall n :: n in nodes ==> Good(n, now)
    ensures r.Some? ==> r.value < |nodes| && !Good(nodes[r.value], now)
  {
    if nodes == [] then None
    else if !Good(nodes[0], now) then Some(0)
    else match FindBad(nodes[1..], now)
      case None => None
      case Some(i) => Some(i + 1)
  }

  function RemoveAt(nodes: Nodes, i: nat): (r: Nodes)
    requires i < |nodes|
    ensures |r| == |nodes| - 1
  {
    nodes[..i] + nodes[i + 1..]
  }

  ghost predicate OnceEach(nodes: Nodes) {
    forall p, q :: 0 <= p < q < |nodes| ==> nodes[p].id != nodes[q].id
  }

  /** Removing one position keeps the others, shifted. */
  lemma RemoveAtShifts(nodes: Nodes, i: nat)
    requires i < |nodes|
    ensures var r := RemoveAt(nodes, i);
            && (forall p :: 0 <= p < i ==> r[p] == nodes[p])
            && (forall p :: i < p < |nodes| ==> r[p - 1] == nodes[p])
            && (forall p :: i <= p < |r| ==> r[p] == nodes[p + 1])
  {
  }

  lemma RemoveAtFacts(nodes: Nodes, i: nat)
    requires i < |nodes| && OnceEach(nodes)
    ensures OnceEach(RemoveAt(nodes, i))
    ensures forall n :: n in RemoveAt(nodes, i) <==> n in nodes && n.id != nodes[i].id
  {
    hide RemoveAt, OnceEach;
    RemoveAtOnce(nodes, i);
    forall n: Entry ensures n in RemoveAt(nodes, i) <==> n in nodes && n.id != nodes[i].id {
      RemoveAtMember(nodes, i, n);
    }
  }

  lemma RemoveAtOnce(nodes: Nodes, i: nat)
    requires i < |nodes| && OnceEach(nodes)
    ensures OnceEach(RemoveAt(nodes, i))
  {
  }

  lemma RemoveAtMember(nodes: Nodes, i: nat, n: Entry)
    requires i < |nodes| && OnceEach(nodes)
    ensures n in RemoveAt(nodes, i) <==> n in nodes && n.id != nodes[i].id
  {
    var r := RemoveAt(nodes, i);
    RemoveAtShifts(nodes, i);
    hide RemoveAt;
    if n in r {
      var p :| 0 <= p < |r| && r[p] == n;
      var q := if p < i then p else p + 1;
      assert n == nodes[q];
    }
    if n in nodes && n.id != nodes[i].id {
      var p :| 0 <= p < |nodes| && nodes[p] == n;
      assert n == r[if p < i then p else p - 1];
    }
  }

  lemma PushFacts(nodes: Nodes, e: Entry)
    requires OnceEach(nodes) && forall n :: n in nodes ==> n.id != e.id
    ensures OnceEach(nodes + [e])
    ensures forall n :: n in nodes + [e] <==> n in nodes || n == e
  {
  }

  function BucketInsert(nodes: Nodes, e: Entry, now: nat, k: nat): (Nodes, bool) {
    var at := Find(nodes, e.id);
    if at.Some? then
      (RemoveAt(nodes, at.value) + [nodes[at.value].(lastSeen := now, failed := 0, addr := e.addr)], true)
    else if |nodes| < k then (nodes + [e], true)
    else
      var bad := FindBad(nodes, now);
      if bad.Some? then (RemoveAt(nodes, bad.value) + [e], true) else (nodes, false)
  }

  /** The entry a successful insertion leaves for its id. */
  function Stored(nodes: Nodes, e: Entry, now: nat): Entry {
    if Find(nodes, e.id).Some? then Entry(e.id, e.addr, now, 0) else e
  }

  /** A bucket takes one newcomer in, and gives up only its own old entry or one node that is not good. */
  lemma BucketInsertFacts(nodes: Nodes, e: Entry, now: nat, k: nat)
    requires OnceEach(nodes) && |nodes| <= k
    ensures var (r, ok) := BucketInsert(nodes, e, now, k);
            && OnceEach(r) && |nodes| <= |r| <= k
            && (ok <==> Stored(nodes, e, now) in r)
            && (!ok ==> r == nodes && forall n :: n in nodes ==> n.id != e.id)
            && (forall n :: n in r ==> n == Stored(nodes, e, now) || (n in nodes && n.id != e.id))
            && (forall n :: n in nodes && n.id != e.id && (Good(n, now) || |nodes| < k) ==> n in r)
  {
    var at := Find(nodes, e.id);
    var kept := Stored(nodes, e, now);
    if at.Some? {
      RemoveAtFacts(nodes, at.value);
      PushFacts(RemoveAt(nodes, at.value), kept);
    } else if |nodes| < k {
      PushFacts(nodes, e);
    } else {
      var bad := FindBad(nodes, now);
      if bad.Some? {
        RemoveAtFacts(nodes, bad.value);
        PushFacts(RemoveAt(nodes, bad.value), e);
        assert forall n :: n in nodes && Good(n, now) ==> n.id != nodes[bad.value].id by {
          forall n | n in nodes && Good(n, now) ensures n.id != nodes[bad.value].id {
            var p :| 0 <= p < |nodes| && nodes[p] == n;
          }
        }
      }
    }
    hide Find, FindBad, RemoveAt, Good;
  }

  /** `retain`: the nodes at other endpoints, in order. */
  function Without(nodes: Nodes, addr: Endpoint): (r: Nodes)
    ensures |r| <= |nodes|
    ensures forall n :: n in r <==> n in nodes && n.addr != addr
    ensures OnceEach(nodes) ==> OnceEach(r)
  {
    if nodes == [] then []
    else
      var rest := Without(nodes[1..], addr);
      assert OnceEach(nodes) ==> OnceEach(nodes[1..]);
      assert OnceEach(nodes) ==> forall n :: n in rest ==> n.id != nodes[0].id;
      if nodes[0].addr != addr then [nodes[0]] + rest else rest
  }

  // ---------------------------------------------------------------------
  // The table
  // ---------------------------------------------------------------------

  ghost predicate Has(t: Table, n: Entry) {
    exists i :: 0 <= i < |t| && n in t[i]
  }

  ghost predicate BucketOk(own: Id, k: nat, i: nat, nodes: Nodes) {
    && |nodes| <= k
    && OnceEach(nodes)
    && forall n :: n in nodes ==> n.id != own && BucketIndex(own, n.id) == i
  }

  /** Real nodes under different ids answer at different endpoints. */
  ghost predicate Apart(t: Table) {
    forall a, b :: Has(t, a) && Has(t, b) && a.id != b.id && a.id != ZERO && b.id != ZERO ==> a.addr != b.addr
  }

  ghost predicate Kept(own: Id, k: nat, t: Table) {
    && |t| == 160
    && (forall i: nat :: i < 160 ==> BucketOk(own, k, i, t[i]))
    && Apart(t)
  }

  /** An id is in the table at most once, in its own bucket. */
  lemma OneEntryPerId(own: Id, k: nat, t: Table, a: Entry, b: Entry)
    requires Kept(own, k, t) && Has(t, a) && Has(t, b) && a.id == b.id
    ensures a == b && a in t[BucketIndex(own, a.id)]
  {
    hide BucketIndex, Apart;
    var i: nat :| i < 160 && a in t[i];
    var j: nat :| j < 160 && b in t[j];
    assert BucketOk(own, k, i, t[i]) && BucketOk(own, k, j, t[j]);
    var p :| 0 <= p < |t[i]| && t[i][p] == a;
    var q :| 0 <= q < |t[i]| && t[i][q] == b;
  }

  function DropEndpoint(t: Table, addr: Endpoint): (r: Table)
    ensures |r| == |t|
    ensures forall i :: 0 <= i < |t| ==> r[i] == Without(t[i], addr)
  {
    if t == [] then [] else [Without(t[0], addr)] + DropEndpoint(t[1..], addr)
  }

  /** The table after same-endpoint entries make room for a real node. */
  function Cleared(t: Table, e: Entry): (r: Table)
    ensures |r| == |t|
  {
    if e.id != ZERO then DropEndpoint(t, e.addr) else t
  }

  function Insert(own: Id, k: nat, t: Table, e: Entry, now: nat): (Table, bool)
    requires |t| == 160
  {
    if e.id == own then (t, false)
    else
      var c := Cleared(t, e);
      var i := BucketIndex(own, e.id);
      var (nodes, ok) := BucketInsert(c[i], e, now, k);
      (c[i := nodes], ok)
  }

  ghost predicate Displaced(e: Entry, n: Entry) {
    n.id == e.id || (e.id != ZERO && n.addr == e.addr)
  }

  lemma ClearedFacts(own: Id, k: nat, t: Table, e: Entry)
    requires Kept(own, k, t)
    ensures Kept(own, k, Cleared(t, e))
    ensures forall i, n :: 0 <= i < 160 ==> (n in Cleared(t, e)[i] <==> n in t[i] && (e.id == ZERO || n.addr != e.addr))
  {
    hide BucketIndex, Without;
    var c := Cleared(t, e);
    assert forall i, n :: 0 <= i < 160 ==> (n in c[i] <==> n in t[i] && (e.id == ZERO || n.addr != e.addr));
    assert forall n :: Has(c, n) ==> Has(t, n);
    forall i: nat | i < 160 ensures BucketOk(own, k, i, c[i]) {
      assert BucketOk(own, k, i, t[i]);
    }
  }

  /** What one insertion does to the bucket it concerns, seen from the table. */
  lemma InsertFacts(own: Id, k: nat, t: Table, e: Entry, now: nat)
    requires Kept(own, k, t) && e.id != own
    ensures var (r, ok) := Insert(own, k, t, e, now);
            var c := Cleared(t, e);
            var i := BucketIndex(own, e.id);
            && |r| == 160 && BucketOk(own, k, i, r[i]) && |r[i]| >= |c[i]|
            && (forall j: nat :: j < 160 && j != i ==> r[j] == c[j])
            && (ok <==> Stored(c[i], e, now) in r[i])
            && (!ok ==> r == c && forall n :: n in c[i] ==> n.id != e.id)
            && (forall n :: n in r[i] ==> n == Stored(c[i], e, now) || (n in c[i] && n.id != e.id))
            && (forall n :: n in c[i] && n.id != e.id && (Good(n, now) || |c[i]| < k) ==> n in r[i])
  {
    ClearedFacts(own, k, t, e);
    var c, i := Cleared(t, e), BucketIndex(own, e.id);
    assert BucketOk(own, k, i, c[i]);
    hide BucketIndex, Cleared, BucketInsert, Good, Apart, Find;
    BucketInsertFacts(c[i], e, now, k);
    assert c[i := c[i]] == c;
    assert Stored(c[i], e, now).id == e.id;
  }

  /** One more real entry, at an endpoint nobody else has, keeps endpoints apart. */
  lemma ApartGrows(c: Table, r: Table, e: Entry)
    requires Apart(c)
    requires forall n :: Has(r, n) ==> Has(c, n) || (n.id == e.id && n.addr == e.addr)
    requires e.id == ZERO || forall n :: Has(c, n) ==> n.addr != e.addr
    ensures Apart(r)
  {
    hide Has;
  }

  lemma InsertBrings(own: Id, k: nat, t: Table, e: Entry, now: nat)
    requires Kept(own, k, t) && e.id != own
    ensures var r := Insert(own, k, t, e, now).0;
            forall n :: Has(r, n) ==> Has(Cleared(t, e), n) || (n.id == e.id && n.addr == e.addr)
  {
    InsertFacts(own, k, t, e, now);
    var r, c, i := Insert(own, k, t, e, now).0, Cleared(t, e), BucketIndex(own, e.id);
    var kept := Stored(c[i], e, now);
    assert kept.id == e.id && kept.addr == e.addr;
    hide Insert, Cleared, BucketIndex, Stored, Good, BucketOk, Apart;
    forall n | Has(r, n) ensures Has(c, n) || n == kept {
      var j: nat :| j < 160 && n in r[j];
      assert n == kept || n in c[j];
    }
  }

  lemma ClearedAddrs(own: Id, k: nat, t: Table, e: Entry)
    requires Kept(own, k, t)
    ensures e.id == ZERO || forall n :: Has(Cleared(t, e), n) ==> n.addr != e.addr
  {
    hide Cleared, BucketIndex, BucketOk, Apart;
    ClearedFacts(own, k, t, e);
  }

  /** Insertion keeps the table in order, real endpoints apart included. */
  lemma InsertKeeps(own: Id, k: nat, t: Table, e: Entry, now: nat)
    requires Kept(own, k, t)
    ensures Kept(own, k, Insert(own, k, t, e, now).0)
  {
    if e.id != own {
      var r, c, i := Insert(own, k, t, e, now).0, Cleared(t, e), BucketIndex(own, e.id);
      InsertFacts(own, k, t, e, now);
      ClearedFacts(own, k, t, e);
      hide Insert, Cleared, BucketIndex, Stored, Good, Apart, Has;
      forall j: nat | j < 160 ensures BucketOk(own, k, j, r[j]) {
        assert BucketOk(own, k, j, c[j]);
      }
      InsertBrings(own, k, t, e, now);
      ClearedAddrs(own, k, t, e);
      ApartGrows(c, r, e);
    }
  }

  /**
   * An insertion reports success exactly when the id is in the table
   * afterwards; the only strangers it can cost are one node that is not good
   * and the entries at the newcomer's own endpoint.
   */
  lemma InsertIsGentle(own: Id, k: nat, t: Table, e: Entry, now: nat, n: Entry)
    requires Kept(own, k, t)
    ensures var (r, ok) := Insert(own, k, t, e, now);
            && (ok <==> exists m :: Has(r, m) && m.id == e.id)
            && (Has(r, n) && n.id != e.id ==> Has(t, n))
            && (Has(r, n) && n.id == e.id ==> n.addr == e.addr)
            && (Has(t, n) && Good(n, now) && !Displaced(e, n) ==> Has(r, n) || e.id == own)
  {
    if e.id == own {
      OwnIsAbsent(own, k, t);
    } else {
      InsertKeeps(own, k, t, e, now);
      InsertFacts(own, k, t, e, now);
      ClearedFacts(own, k, t, e);
      var (r, ok) := Insert(own, k, t, e, now);
      var c, i := Cleared(t, e), BucketIndex(own, e.id);
      var kept := Stored(c[i], e, now);
      assert kept.id == e.id && kept.addr == e.addr;
      hide Insert, Cleared, BucketIndex, Stored, Good, Apart;
      forall m | Has(r, m) && m.id == e.id ensures m == kept && ok {
        OneEntryPerId(own, k, r, m, m);
      }
      if ok {
        assert Has(r, kept);
      }
      if Has(r, n) {
        var j: nat :| j < 160 && n in r[j];
        assert n == kept || n in c[j];
      }
      if Has(t, n) && Good(n, now) && !Displaced(e, n) {
        var j: nat :| j < 160 && n in t[j];
        assert n in c[j];
        assert n in r[j];
      }
    }
  }

  lemma OwnIsAbsent(own: Id, k: nat, t: Table)
    requires Kept(own, k, t)
    ensures forall n :: Has(t, n) ==> n.id != own
  {
    hide BucketIndex, Apart;
    forall n | Has(t, n) ensures n.id != own {
      var i: nat :| i < 160 && n in t[i];
      assert BucketOk(own, k, i, t[i]);
    }
  }

  /** Not heard from for a quarter of an hour, or failing. */
  predicate Dispensable(n: Entry, now: nat) {
    n.failed > 0 || now - n.lastSeen >= 15 * 60 * 1000
  }

  /** A bucket takes a node in exactly when it knows it, has room, or holds a dispensable node; that one then makes way. */
  lemma BucketTakes(nodes: Nodes, e: Entry, now: nat, k: nat)
    requires OnceEach(nodes) && |nodes| <= k
    ensures var (r, ok) := BucketInsert(nodes, e, now, k);
            && (ok <==> |nodes| < k || exists n :: n in nodes && (n.id == e.id || Dispensable(n, now)))
            && (ok ==> exists n :: n in r && n.id == e.id && n.addr == e.addr)
            && (ok && |nodes| == k && (forall n :: n in nodes ==> n.id != e.id) ==>
                  exists gone :: gone in nodes && Dispensable(gone, now) && forall n :: n in nodes ==> (n in r <==> n != gone))
  {
    BucketInsertFacts(nodes, e, now, k);
    var (r, ok) := BucketInsert(nodes, e, now, k);
    var kept := Stored(nodes, e, now);
    assert kept.id == e.id && kept.addr == e.addr;
    assert forall n :: Good(n, now) <==> !Dispensable(n, now);
    if Find(nodes, e.id).None? && |nodes| == k && ok {
      var bad := FindBad(nodes, now).value;
      RemoveAtFacts(nodes, bad);
      PushFacts(RemoveAt(nodes, bad), e);
      var gone := nodes[bad];
      assert gone in nodes;
      forall n | n in nodes
        ensures n in r <==> n != gone
      {
        var p :| 0 <= p < |nodes| && nodes[p] == n;
      }
    }
    hide RemoveAt, Good;
  }

  /** The old entry of the newcomer, or the first dispensable node. */
  ghost predicate MakesWay(nodes: Nodes, p: nat, e: Entry, now: nat) {
    p < |nodes| &&
    (nodes[p].id == e.id || (Dispensable(nodes[p], now) && forall j :: 0 <= j < p ==> !Dispensable(nodes[j], now)))
  }

  lemma FirstBadMakesWay(nodes: Nodes, e: Entry, now: nat)
    ensures FindBad(nodes, now).Some? ==> MakesWay(nodes, FindBad(nodes, now).value, e, now)
  {
  }

  /** The newcomer goes last and the others keep their order; of the dispensable nodes the first one goes. */
  lemma BucketKeepsOrder(nodes: Nodes, e: Entry, now: nat, k: nat)
    ensures var (r, ok) := BucketInsert(nodes, e, now, k);
      ok && r != nodes + [e] ==>
        exists p: nat :: MakesWay(nodes, p, e, now) && r == nodes[..p] + nodes[p + 1..] + [Stored(nodes, e, now)]
  {
    FirstBadMakesWay(nodes, e, now);
    var at, bad := Find(nodes, e.id), FindBad(nodes, now);
    if at.Some? {
      assert MakesWay(nodes, at.value, e, now);
    }
    hide FindBad, Find, Dispensable, MakesWay;
    if at.None? && |nodes| >= k && bad.Some? {
      assert MakesWay(nodes, bad.value, e, now);
    }
  }

  /** The same for the table, after the entries at the newcomer's endpoint are dropped. */
  lemma InsertTakes(own: Id, k: nat, t: Table, e: Entry, now: nat)
    requires Kept(own, k, t)
    ensures var (r, ok) := Insert(own, k, t, e, now);
            var nodes := Cleared(t, e)[BucketIndex(own, e.id)];
            && (ok <==> e.id != own && (|nodes| < k || exists n :: n in nodes && (n.id == e.id || Dispensable(n, now))))
            && (ok ==> exists n :: Has(r, n) && n.id == e.id && n.addr == e.addr)
  {
    if e.id != own {
      ClearedFacts(own, k, t, e);
      var c, i := Cleared(t, e), BucketIndex(own, e.id);
      assert BucketOk(own, k, i, c[i]);
      hide BucketIndex, Cleared, Apart, Dispensable;
      BucketTakes(c[i], e, now, k);
      hide BucketInsert;
      var (r, ok) := Insert(own, k, t, e, now);
      if ok {
        var n :| n in r[i] && n.id == e.id && n.addr == e.addr;
        assert Has(r, n);
      }
    }
  }

  /** What is dropped first: the entries at the endpoint of a real newcomer, and nothing else. */
  lemma ClearedIs(own: Id, k: nat, t: Table, e: Entry, n: Entry)
    requires Kept(own, k, t)
    ensures Has(Cleared(t, e), n) <==> Has(t, n) && (e.id == ZERO || n.addr != e.addr)
  {
    hide Cleared, BucketIndex, Apart, BucketOk;
    ClearedFacts(own, k, t, e);
    if Has(t, n) && (e.id == ZERO || n.addr != e.addr) {
      var i :| 0 <= i < |t| && n in t[i];
      assert n in Cleared(t, e)[i];
    }
  }

  /** A new table takes any node but ourselves. */
  lemma EmptyTakes(own: Id, k: nat, e: Entry, now: nat)
    requires k > 0 && e.id != own
    ensures var (r, ok) := Insert(own, k, Empty(160), e, now);
            ok && Has(r, e)
  {
    var t := Empty(160);
    assert Kept(own, k, t);
    var c, i := Cleared(t, e), BucketIndex(own, e.id);
    assert c[i] == [];
    hide BucketIndex;
    assert e in Insert(own, k, t, e, now).0[i];
  }

  // ---------------------------------------------------------------------
  // Failures
  // ---------------------------------------------------------------------

  function Failing(n: Entry, now: nat): Entry {
    n.(failed := Min(n.failed + 1, U32_MAX), lastSeen := now)
  }

  function Failed(own: Id, t: Table, id: Id, now: nat): Table
    requires |t| == 160
  {
    var i := BucketIndex(own, id);
    var at := Find(t[i], id);
    if at.None? then t else t[i := FailedAt(t[i], at.value, now)]
  }

  /** One failure of the node at position p of a bucket. */
  function FailedAt(nodes: Nodes, p: nat, now: nat): Nodes
    requires p < |nodes|
  {
    var n := Failing(nodes[p], now);
    var marked := nodes[p := n];
    if n.failed > 3 then RemoveAt(marked, p) else marked
  }

  /** A failure touches the node it is about; the fourth one in a row evicts it. */
  lemma FailureKeeps(own: Id, k: nat, t: Table, id: Id, now: nat)
    requires Kept(own, k, t)
    ensures Kept(own, k, Failed(own, t, id, now))
    ensures forall n: Entry :: n.id != id ==> (Has(Failed(own, t, id, now), n) <==> Has(t, n))
    ensures forall n :: Has(t, n) && n.id == id ==>
              (Has(Failed(own, t, id, now), Failing(n, now)) <==> n.failed < 3)
    ensures forall n :: Has(Failed(own, t, id, now), n) && n.id == id ==>
              exists m :: Has(t, m) && m.id == id && n == Failing(m, now)
  {
    var r := Failed(own, t, id, now);
    var i := BucketIndex(own, id);
    var at := Find(t[i], id);
    assert BucketOk(own, k, i, t[i]);
    if at.None? {
      forall n | Has(t, n) ensures n.id != id {
        OneEntryPerId(own, k, t, n, n);
      }
    } else {
      FailureInBucket(t[i], at.value, now);
      FailureSpreads(own, k, t, id, now);
    }
  }

  lemma FailureInBucket(nodes: Nodes, p: nat, now: nat)
    requires p < |nodes| && OnceEach(nodes)
    ensures var n := Failing(nodes[p], now);
            var r := FailedAt(nodes, p, now);
            && OnceEach(r) && |r| <= |nodes|
            && (forall m :: m in r <==> (m in nodes && m.id != nodes[p].id) || (m == n && n.failed <= 3))
  {
    var n := Failing(nodes[p], now);
    var marked := nodes[p := n];
    assert OnceEach(marked);
    forall m ensures m in marked <==> (m in nodes && m.id != nodes[p].id) || m == n {
      if m in nodes && m.id != nodes[p].id {
        var q :| 0 <= q < |nodes| && nodes[q] == m;
        assert marked[q] == m;
      }
      if m == n {
        assert marked[p] == m;
      }
      if m in marked {
        var q :| 0 <= q < |marked| && marked[q] == m;
        assert q != p ==> nodes[q] == m;
      }
    }
    RemoveAtFacts(marked, p);
    hide RemoveAt, OnceEach;
  }

  /** What a failure does to the buckets. */
  lemma FailureInTable(own: Id, k: nat, t: Table, id: Id, now: nat, i: nat, was: Entry)
    requires Kept(own, k, t) && i == BucketIndex(own, id) && Find(t[i], id).Some?
    requires was == t[i][Find(t[i], id).value]
    ensures var r, kept := Failed(own, t, id, now), Failing(was, now);
            && |r| == 160 && BucketOk(own, k, i, r[i])
            && (forall j: nat :: j < 160 && j != i ==> r[j] == t[j])
            && (forall m :: m in r[i] <==> (m in t[i] && m.id != id) || (m == kept && kept.failed <= 3))
  {
    assert BucketOk(own, k, i, t[i]);
    FailureInBucket(t[i], Find(t[i], id).value, now);
    hide BucketIndex, Find, FailedAt, Apart, OnceEach, Failing;
    assert Failing(was, now).id == id by { FailingId(was, now); }
  }

  lemma FailingId(n: Entry, now: nat)
    ensures Failing(n, now).id == n.id && Failing(n, now).addr == n.addr
  {
  }

  lemma FailureMembers(own: Id, k: nat, t: Table, id: Id, now: nat, i: nat, was: Entry, n: Entry)
    requires Kept(own, k, t) && i == BucketIndex(own, id) && Find(t[i], id).Some?
    requires was == t[i][Find(t[i], id).value]
    ensures var kept := Failing(was, now);
            Has(Failed(own, t, id, now), n) <==> (Has(t, n) && n.id != id) || (n == kept && kept.failed <= 3)
  {
    FailureInTable(own, k, t, id, now, i, was);
    var r, kept := Failed(own, t, id, now), Failing(was, now);
    hide Failed, Find, BucketIndex, Apart;
    if Has(r, n) {
      var j: nat :| j < 160 && n in r[j];
      if j != i {
        assert n in t[j];
        assert BucketOk(own, k, j, t[j]);
      }
    }
    if Has(t, n) && n.id != id {
      var j: nat :| j < 160 && n in t[j];
      assert n in r[j];
    }
    if n == kept && kept.failed <= 3 {
      assert n in r[i];
    }
  }

  lemma FailureSpreads(own: Id, k: nat, t: Table, id: Id, now: nat)
    requires Kept(own, k, t) && Find(t[BucketIndex(own, id)], id).Some?
    ensures Kept(own, k, Failed(own, t, id, now))
    ensures forall n: Entry :: n.id != id ==> (Has(Failed(own, t, id, now), n) <==> Has(t, n))
    ensures forall n :: Has(t, n) && n.id == id ==>
              (Has(Failed(own, t, id, now), Failing(n, now)) <==> n.failed < 3)
    ensures forall n :: Has(Failed(own, t, id, now), n) && n.id == id ==>
              exists m :: Has(t, m) && m.id == id && n == Failing(m, now)
  {
    var r, i := Failed(own, t, id, now), BucketIndex(own, id);
    var was := t[i][Find(t[i], id).value];
    assert Has(t, was);
    FailureInTable(own, k, t, id, now, i, was);
    hide Failed, BucketIndex, Find, Apart, Has;
    forall j: nat | j < 160 ensures BucketOk(own, k, j, r[j]) {
      assert BucketOk(own, k, j, t[j]);
    }
    hide BucketOk;
    forall n: Entry
      ensures Has(r, n) <==> (Has(t, n) && n.id != id) || (n == Failing(was, now) && Failing(was, now).failed <= 3)
    {
      FailureMembers(own, k, t, id, now, i, was, n);
    }
    forall n | Has(t, n) && n.id == id ensures n == was {
      OneEntryPerId(own, k, t, n, was);
    }
    ApartStays(t, r, was);
  }

  lemma ApartStays(t: Table, r: Table, was: Entry)
    requires Apart(t) && Has(t, was)
    requires forall n :: Has(r, n) ==> Has(t, n) || (n.id == was.id && n.addr == was.addr)
    ensures Apart(r)
  {
    hide Has;
  }

  /** From a clean slate, three failures in a row leave a node in the table and the fourth removes it. */
  lemma FourthFailureEvicts(own: Id, k: nat, t: Table, n: Entry, a: nat, b: nat, c: nat, d: nat)
    requires Kept(own, k, t) && Has(t, n) && n.failed == 0
    ensures var t3 := Failed(own, Failed(own, Failed(own, t, n.id, a), n.id, b), n.id, c);
            && Has(t3, n.(failed := 3, lastSeen := c))
            && forall m :: Has(Failed(own, t3, n.id, d), m) ==> m.id != n.id
  {
    var n1, n2, n3 := n.(failed := 1, lastSeen := a), n.(failed := 2, lastSeen := b), n.(failed := 3, lastSeen := c);
    assert Failing(n, a) == n1 && Failing(n1, b) == n2 && Failing(n2, c) == n3;
    var t1 := Failed(own, t, n.id, a);
    FailureKeeps(own, k, t, n.id, a);
    var t2 := Failed(own, t1, n.id, b);
    hide Failed, Kept, Has;
    FailureKeeps(own, k, t1, n.id, b);
    var t3 := Failed(own, t2, n.id, c);
    FailureKeeps(own, k, t2, n.id, c);
    FailureKeeps(own, k, t3, n.id, d);
    forall w | Has(t3, w) && w.id == n.id
      ensures w == n3
    {
      OneEntryPerId(own, k, t3, w, n3);
    }
  }

  // ---------------------------------------------------------------------
  // Runs
  // ---------------------------------------------------------------------

  datatype Step = Seen(entry: Entry, at: nat) | Lost(id: Id, at: nat)

  function Empty(n: nat): (t: Table)
    ensures |t| == n && forall i :: 0 <= i < n ==> t[i] == []
  {
    if n == 0 then [] else Empty(n - 1) + [[]]
  }

  function After(own: Id, k: nat, t: Table, s: Step): (r: Table)
    requires |t| == 160
    ensures |r| == 160
  {
    match s
    case Seen(e, now) => Insert(own, k, t, e, now).0
    case Lost(id, now) => Failed(own, t, id, now)
  }

  function Run(own: Id, k: nat, t: Table, steps: seq<Step>): (r: Table)
    requires |t| == 160
    ensures |r| == 160
    decreases |steps|
  {
    if steps == [] then t else Run(own, k, After(own, k, t, steps[0]), steps[1..])
  }

  lemma {:induction false} RunKeeps(own: Id, k: nat, t: Table, steps: seq<Step>)
    requires Kept(own, k, t)
    ensures Kept(own, k, Run(own, k, t, steps))
    decreases |steps|
  {
    hide Insert, Failed, BucketOk, Apart;
    if steps != [] {
      match steps[0] {
        case Seen(e, now) => InsertKeeps(own, k, t, e, now);
        case Lost(id, now) => FailureKeeps(own, k, t, id, now);
      }
      RunKeeps(own, k, After(own, k, t, steps[0]), steps[1..]);
    }
  }

  /** Every table a run can reach is in order. */
  lemma ReachableIsKept(own: Id, k: nat, steps: seq<Step>)
    ensures Kept(own, k, Run(own, k, Empty(160), steps))
  {
    RunKeeps(own, k, Empty(160), steps);
  }

  // ---------------------------------------------------------------------
  // The closest nodes
  // ---------------------------------------------------------------------

  predicate Nearer(a: Entry, b: Entry, target: Id) {
    Before(Xor(a.id, target), Xor(b.id, target))
  }

  lemma NearerIsLess(a: Entry, b: Entry, target: Id)
    ensures Nearer(a, b, target) <==> Dist(a.id, target) < Dist(b.id, target)
  {
    LexIsNumeric(Xor(a.id, target), Xor(b.id, target));
    hide Before, Xor, Value;
  }

  ghost predicate Ordered(s: Nodes, target: Id) {
    forall p, q :: 0 <= p < q < |s| ==> Dist(s[p].id, target) <= Dist(s[q].id, target)
  }

  /** Put an entry before the first one it is nearer than, as a stable sort does. */
  function Place(e: Entry, s: Nodes, target: Id): (r: Nodes)
    ensures |r| == |s| + 1
    ensures forall n :: n in r <==> n in s || n == e
  {
    if s == [] || Nearer(e, s[0], target) then [e] + s else [s[0]] + Place(e, s[1..], target)
  }

  lemma {:induction false} PlaceIsOrdered(e: Entry, s: Nodes, target: Id)
    requires Ordered(s, target)
    ensures Ordered(Place(e, s, target), target)
  {
    hide Dist, Nearer;
    if s != [] {
      NearerIsLess(e, s[0], target);
      assert forall n :: n in s ==> Dist(s[0].id, target) <= Dist(n.id, target);
      if !Nearer(e, s[0], target) {
        PlaceIsOrdered(e, s[1..], target);
        var rest := Place(e, s[1..], target);
        assert forall n :: n in rest ==> Dist(s[0].id, target) <= Dist(n.id, target);
      }
    }
  }

  function Sorted(s: Nodes, target: Id): (r: Nodes)
    ensures |r| == |s|
    ensures forall n :: n in r <==> n in s
  {
    if s == [] then []
    else
      assert s == s[..|s| - 1] + [s[|s| - 1]];
      Place(s[|s| - 1], Sorted(s[..|s| - 1], target), target)
  }

  lemma {:induction false} SortedIsOrdered(s: Nodes, target: Id)
    ensures Ordered(Sorted(s, target), target)
  {
    if s != [] {
      SortedIsOrdered(s[..|s| - 1], target);
      PlaceIsOrdered(s[|s| - 1], Sorted(s[..|s| - 1], target), target);
    }
  }

  function Flat(t: Table): (r: Nodes)
    ensures forall n :: n in r <==> exists i :: 0 <= i < |t| && n in t[i]
  {
    if t == [] then []
    else
      assert t == t[..|t| - 1] + [t[|t| - 1]];
      Flat(t[..|t| - 1]) + t[|t| - 1]
  }

  ghost predicate Rising(s: Nodes, target: Id) {
    forall p, q :: 0 <= p < q < |s| ==> Dist(s[p].id, target) < Dist(s[q].id, target)
  }

  /** Exactly the n entries nearest to the target, nearest first. */
  ghost predicate IsClosest(t: Table, target: Id, n: nat, r: Nodes) {
    && |r| == Min(n, |Flat(t)|)
    && Rising(r, target)
    && (forall e :: e in r ==> Has(t, e))
    && (forall e, x :: Has(t, e) && e !in r && x in r ==> Dist(x.id, target) < Dist(e.id, target))
  }
}
