/**
  Anti-leech choke scoring and the selection of the peers to unchoke.

  Scores and penalties are integers; the saturating 64-bit operations of the source are spelled
  out, the other additions are taken not to overflow.
*/
module Unchoke {
  import opened Common

  type Id = nat

  const I64_MAX := 0x7fff_ffff_ffff_ffff
  const I64_MIN := -0x8000_0000_0000_0000
  const U32_MAX := 0xffff_ffff
  const U64_MAX := 0xffff_ffff_ffff_ffff

  datatype Source = Lsd | Internet
  datatype Class = Leech | Regular

  datatype View = View(id: Id, source: Source, client: Option<Class>, given: nat, taken: nat, rateUp: nat,
                       corrupt: nat, snubbed: bool, interested: bool, ageMs: nat, idleMs: nat, served: nat)

  datatype Config = Config(seedingSlots: nat, leechingSlots: nat, corruptBanThreshold: nat, corruptPenalty: int,
                           snubPenalty: int, leechUploadWeight: int, seedReciprocityWeight: int, nonrecipPenalty: int,
                           freeRidePenalty: int, minSharePermyriad: nat, freeRideFloor: nat, clientLeechPenalty: int,
                           blockLeechClients: bool, antiFlap: int, recipGraceMs: nat, maxReward: int,
                           idleSlotTimeoutMs: nat, idleSlotPenalty: int)

  // ----- scoring

  function Saturate(x: int): int {
    if x > I64_MAX then I64_MAX else if x < I64_MIN then I64_MIN else x
  }

  /** Division that rounds toward zero. */
  function TruncDiv(a: int, b: int): int
    requires b > 0
  {
    if a >= 0 then a / b else -((-a) / b)
  }

  function Permyriad(numer: nat, denom: nat): nat {
    if denom == 0 then U32_MAX else Min(Min(numer * 10_000, U64_MAX) / denom, U32_MAX)
  }

  /** The identity-based block: a known leech client, not local, past probation, without contribution. */
  predicate HardBlocked(cfg: Config, v: View) {
    && cfg.blockLeechClients
    && v.client == Some(Leech)
    && !v.source.Lsd?
    && v.ageMs >= cfg.recipGraceMs
    && v.given < cfg.freeRideFloor
  }

  function SeedReward(cfg: Config, v: View): int {
    var given := Saturate((v.given / 1024) * cfg.seedReciprocityWeight);
    Min(Saturate(given + TruncDiv(v.rateUp * cfg.seedReciprocityWeight, 1024)), cfg.maxReward)
  }

  function ChokeScore(cfg: Config, seeding: bool, v: View): int {
    if HardBlocked(cfg, v) then I64_MIN / 4
    else
      var pastGrace := v.ageMs >= cfg.recipGraceMs;
      var reward :=
        if seeding then SeedReward(cfg, v)
        else Min(TruncDiv(v.rateUp * cfg.leechUploadWeight, 1024), cfg.maxReward);
      var freeRide :=
        if seeding then
          (if pastGrace && v.taken >= cfg.freeRideFloor && Permyriad(v.given, v.taken) < cfg.minSharePermyriad
           then cfg.freeRidePenalty else 0)
        else
          (if pastGrace && v.taken >= cfg.freeRideFloor && v.given == 0 then cfg.nonrecipPenalty else 0);
      var idle :=
        if v.interested && pastGrace && v.served == 0 && v.idleMs >= cfg.idleSlotTimeoutMs
        then cfg.idleSlotPenalty else 0;
      var snub := if v.snubbed then cfg.snubPenalty else 0;
      var client := if v.client == Some(Leech) && !v.source.Lsd? then cfg.clientLeechPenalty else 0;
      reward - freeRide - idle - v.corrupt * cfg.corruptPenalty - snub - client
  }

  // ----- candidates

  datatype Cand = Cand(id: Id, score: int)

  predicate Eligible(cfg: Config, seeding: bool, v: View) {
    (v.interested || !seeding) && !HardBlocked(cfg, v)
  }

  function Candidates(views: seq<View>, seeding: bool, cfg: Config): seq<Cand> {
    if views == [] then []
    else
      var v := views[0];
      (if Eligible(cfg, seeding, v) then [Cand(v.id, ChokeScore(cfg, seeding, v))] else [])
      + Candidates(views[1..], seeding, cfg)
  }

  /** Higher score first; ties by id. */
  predicate Ahead(a: Cand, b: Cand) {
    a.score > b.score || (a.score == b.score && a.id <= b.id)
  }

  function Insert(c: Cand, s: seq<Cand>): (r: seq<Cand>)
    ensures multiset(r) == multiset(s) + multiset{c}
  {
    if s == [] then [c]
    else if Ahead(c, s[0]) then [c] + s
    else
      assert s == [s[0]] + s[1..];
      [s[0]] + Insert(c, s[1..])
  }

  function Sort(s: seq<Cand>): (r: seq<Cand>)
    ensures multiset(r) == multiset(s)
  {
    if s == [] then []
    else
      assert s == [s[0]] + s[1..];
      Insert(s[0], Sort(s[1..]))
  }

  predicate Ranked(s: seq<Cand>) {
    forall i, j :: 0 <= i < j < |s| ==> Ahead(s[i], s[j])
  }

  lemma {:induction false} InsertRanks(c: Cand, s: seq<Cand>)
    requires Ranked(s)
    ensures Ranked(Insert(c, s))
  {
    if s != [] && !Ahead(c, s[0]) {
      InsertRanks(c, s[1..]);
      var r := Insert(c, s[1..]);
      forall j | 0 <= j < |r|
        ensures Ahead(s[0], r[j])
      {
        assert r[j] in multiset(r);
        assert r[j] == c || r[j] in s[1..];
      }
    }
  }

  lemma {:induction false} SortRanks(s: seq<Cand>)
    ensures Ranked(Sort(s))
  {
    if s != [] {
      SortRanks(s[1..]);
      InsertRanks(s[0], Sort(s[1..]));
    }
  }

  // ----- selection

  /** Score of the first candidate with this id. */
  function ScoreOf(all: seq<Cand>, id: Id): Option<int> {
    if all == [] then None else if all[0].id == id then Some(all[0].score) else ScoreOf(all[1..], id)
  }

  function FirstView(views: seq<View>, id: Id): Option<View> {
    if views == [] then None else if views[0].id == id then Some(views[0]) else FirstView(views[1..], id)
  }

  /** The optimistic peer gets its slot when it is a candidate and behaves. */
  predicate OptimisticFits(views: seq<View>, cfg: Config, all: seq<Cand>, id: Id) {
    ScoreOf(all, id).Some? &&
    var v := FirstView(views, id);
    v.Some? && !v.value.snubbed && v.value.corrupt < cfg.corruptBanThreshold
  }

  datatype Policy = Policy(slots: nat, margin: int, unchoked: set<Id>, optimistic: Option<Id>)

  /** Unchoked peers keep their slots, best first. */
  function Keep(all: seq<Cand>, p: Policy, i: nat, acc: seq<Id>): seq<Id>
    requires i <= |all|
    decreases |all| - i
  {
    if i == |all| || |acc| >= p.slots then acc
    else
      var id := all[i].id;
      if id in p.unchoked && p.optimistic != Some(id) && id !in acc then Keep(all, p, i + 1, acc + [id])
      else Keep(all, p, i + 1, acc)
  }

  /** Score of the weakest member other than the optimistic one. */
  function Weakest(all: seq<Cand>, p: Policy, acc: seq<Id>): Option<int> {
    if acc == [] then None
    else
      var rest := Weakest(all, p, acc[1..]);
      var s := ScoreOf(all, acc[0]);
      if p.optimistic == Some(acc[0]) || s.None? then rest
      else if rest.None? || s.value <= rest.value then s
      else rest
  }

  /** First member other than the optimistic one with this score. */
  function Victim(all: seq<Cand>, p: Policy, acc: seq<Id>, w: int): Option<Id> {
    if acc == [] then None
    else if p.optimistic != Some(acc[0]) && ScoreOf(all, acc[0]) == Some(w) then Some(acc[0])
    else Victim(all, p, acc[1..], w)
  }

  function Without(acc: seq<Id>, id: Id): seq<Id> {
    if acc == [] then [] else (if acc[0] == id then [] else [acc[0]]) + Without(acc[1..], id)
  }

  predicate Beats(p: Policy, score: int, w: int) {
    if p.margin > 0 then score >= Saturate(w + p.margin) else score > w
  }

  /** What one newcomer does to the selection. */
  function Challenge(all: seq<Cand>, p: Policy, c: Cand, acc: seq<Id>): seq<Id> {
    if c.id in acc || c.id in p.unchoked then acc
    else if |acc| < p.slots then acc + [c.id]
    else
      var w := Weakest(all, p, acc);
      if w.None? || !Beats(p, c.score, w.value) then acc
      else
        var victim := Victim(all, p, acc, w.value);
        if victim.None? then acc else Without(acc, victim.value) + [c.id]
  }

  function Challenges(all: seq<Cand>, p: Policy, i: nat, acc: seq<Id>): seq<Id>
    requires i <= |all|
    decreases |all| - i
  {
    if i == |all| then acc else Challenges(all, p, i + 1, Challenge(all, p, all[i], acc))
  }

  function Opening(views: seq<View>, cfg: Config, all: seq<Cand>, optimistic: Option<Id>): seq<Id> {
    if optimistic.Some? && OptimisticFits(views, cfg, all, optimistic.value) then [optimistic.value] else []
  }

  function Ranking(views: seq<View>, seeding: bool, cfg: Config): seq<Cand> {
    Sort(Candidates(views, seeding, cfg))
  }

  function PolicyOf(seeding: bool, cfg: Config, unchoked: set<Id>, optimistic: Option<Id>): Policy {
    Policy(if seeding then cfg.seedingSlots else cfg.leechingSlots, cfg.antiFlap, unchoked, optimistic)
  }

  function Selection(views: seq<View>, seeding: bool, cfg: Config, unchoked: set<Id>, optimistic: Option<Id>): seq<Id> {
    var p := PolicyOf(seeding, cfg, unchoked, optimistic);
    var all := Ranking(views, seeding, cfg);
    if p.slots == 0 || views == [] then []
    else Challenges(all, p, 0, Keep(all, p, 0, Opening(views, cfg, all, optimistic)))
  }

  /** The selection as the scheduler runs it: three passes over one result list. */
  method SelectUnchokeSet(views: seq<View>, seeding: bool, cfg: Config, unchoked: set<Id>, optimistic: Option<Id>)
    returns (result: seq<Id>)
    ensures result == Selection(views, seeding, cfg, unchoked, optimistic)
  {
    hide Keep, Challenges, Challenge, ChokeScore, Eligible, Sort;
    var slots := if seeding then cfg.seedingSlots else cfg.leechingSlots;
    if slots == 0 || views == [] {
      return [];
    }
    var p := Policy(slots, cfg.antiFlap, unchoked, optimistic);
    var cands := CollectCandidates(views, seeding, cfg);
    cands := Sort(cands);
    result := [];
    if optimistic.Some? && OptimisticFits(views, cfg, cands, optimistic.value) {
      result := [optimistic.value];
    }
    result := KeepIncumbents(cands, p, result);
    result := HearNewcomers(cands, p, result);
  }

  method CollectCandidates(views: seq<View>, seeding: bool, cfg: Config) returns (cands: seq<Cand>)
    ensures cands == Candidates(views, seeding, cfg)
  {
    hide ChokeScore, Eligible;
    cands := [];
    var i := 0;
    assert views[0..] == views;
    while i < |views|
      invariant 0 <= i <= |views|
      invariant cands + Candidates(views[i..], seeding, cfg) == Candidates(views, seeding, cfg)
    {
      assert views[i..][1..] == views[i + 1..];
      if Eligible(cfg, seeding, views[i]) {
        cands := cands + [Cand(views[i].id, ChokeScore(cfg, seeding, views[i]))];
      }
      i := i + 1;
    }
  }

  method KeepIncumbents(cands: seq<Cand>, p: Policy, opening: seq<Id>) returns (result: seq<Id>)
    ensures result == Keep(cands, p, 0, opening)
  {
    result := opening;
    var i := 0;
    while i < |cands|
      invariant 0 <= i <= |cands|
      invariant Keep(cands, p, i, result) == Keep(cands, p, 0, opening)
    {
      if |result| >= p.slots {
        return;
      }
      var id := cands[i].id;
      if id in p.unchoked && p.optimistic != Some(id) && id !in result {
        result := result + [id];
      }
      i := i + 1;
    }
  }

  method HearNewcomers(cands: seq<Cand>, p: Policy, kept: seq<Id>) returns (result: seq<Id>)
    ensures result == Challenges(cands, p, 0, kept)
  {
    result := kept;
    var i := 0;
    while i < |cands|
      invariant 0 <= i <= |cands|
      invariant Challenges(cands, p, i, result) == Challenges(cands, p, 0, kept)
    {
      var c := cands[i];
      i := i + 1;
      if c.id in result || c.id in p.unchoked {
        continue;
      }
      if |result| < p.slots {
        result := result + [c.id];
        continue;
      }
      var weakest := Weakest(cands, p, result);
      if weakest.Some? && Beats(p, c.score, weakest.value) {
        var victim := Victim(cands, p, result, weakest.value);
        if victim.Some? {
          result := Without(result, victim.value) + [c.id];
        }
      }
    }
  }
}
