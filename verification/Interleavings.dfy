/** What every interleaving keeps, with the tail of a miss cut into its three critical sections
    and with a device that may fail. */
module Interleavings {
  import opened ZnTypes
  import opened Protocol
  import opened L = Lru
  import Promotional
  import opened Z = ZoneState
  import opened C = CacheMap
  import opened ZoneOwnership
  import opened FillOwnership

  predicate PlaceOk(cfg: Config, p: Phase) {
    p.Returned? || p.Listed? ==> p.loc.zone < cfg.numZones
  }

  /** Locations of finished writes are on the device. */
  ghost predicate PlacesOk(cfg: Config, th: map<Tid, Phase>) {
    forall t: Tid :: PlaceOk(cfg, At(th, t))
  }

  ghost predicate ZonesOk(cfg: Config, s: State) {
    && Z.Inv(cfg, s.zsm) && WritersOk(cfg, s.zsm, s.threads)
    && TokensOk(cfg, s.zsm, s.lru, s.threads) && Promotional.Tracks(s.lru, s.uses)
    && PlacesOk(cfg, s.threads)
  }

  ghost predicate MapOk(cfg: Config, s: State) {
    FillsOk(s.cm, s.threads) && ReadersOk(cfg, s.cm, s.threads) && IndexSound(s.cm)
  }

  ghost predicate FineInv(cfg: Config, s: State) {
    ZonesOk(cfg, s) && MapOk(cfg, s)
  }

  // ---------- Threads that only move ----------

  /** The thread's move changes nothing its zones depend on. */
  predicate SameZones(cfg: Config, p: Phase, q: Phase) {
    Holds(p) == Holds(q) && Token(cfg, p) == Token(cfg, q) && !q.Returned? && !q.Listed?
  }

  lemma ZonesMove(cfg: Config, s: State, s': State, t: Tid, p: Phase)
    requires ZonesOk(cfg, s)
    requires s'.zsm == s.zsm && s'.lru == s.lru && s'.uses == s.uses && s'.threads == s.threads[t := p]
    requires SameZones(cfg, At(s.threads, t), p)
    ensures ZonesOk(cfg, s')
  {
    WritersMove(cfg, s.zsm, s.threads, t, p);
    TokensMove(cfg, s.zsm, s.zsm, s.lru, s.lru, s.threads, t, p);
    PlacesMove(cfg, s.threads, t, p);
  }

  lemma PlacesMove(cfg: Config, th: map<Tid, Phase>, t: Tid, p: Phase)
    requires PlacesOk(cfg, th) && PlaceOk(cfg, p)
    ensures PlacesOk(cfg, th[t := p])
  {
    var th' := th[t := p];
    assert forall u: Tid :: At(th', u) == if u == t then p else At(th, u);
  }

  predicate SameCounts(p: Phase, q: Phase) {
    Fills(p) == Fills(q) && Counted(p) == Counted(q) && !p.Waiting? && !q.Waiting?
  }

  lemma MapMove(cfg: Config, s: State, s': State, t: Tid, p: Phase)
    requires MapOk(cfg, s)
    requires s'.cm == s.cm && s'.threads == s.threads[t := p] && SameCounts(At(s.threads, t), p)
    ensures MapOk(cfg, s')
  {
    FillerMove(s.cm, s.threads, t, p);
    WaitersMove(s.cm, s.threads, t, p);
    RefsMove(s.cm, s.threads, t, p);
    ReadersMove(cfg, s.cm, s.cm, s.threads, t, p);
  }

  lemma JustMove(cfg: Config, s: State, s': State, t: Tid, p: Phase)
    requires FineInv(cfg, s)
    requires s'.zsm == s.zsm && s'.lru == s.lru && s'.uses == s.uses && s'.cm == s.cm
    requires s'.threads == s.threads[t := p]
    requires SameZones(cfg, At(s.threads, t), p) && SameCounts(At(s.threads, t), p)
    ensures FineInv(cfg, s')
  {
    ZonesMove(cfg, s, s', t, p);
    MapMove(cfg, s, s', t, p);
  }

  // ---------- Lookups ----------

  lemma LookUpKeeps(cfg: Config, s: State, t: Tid, id: Id)
    requires FineInv(cfg, s) && At(s.threads, t) == Idle
    ensures LookupOk(s.cm, id) && FineInv(cfg, LookUp(s, t, id))
    ensures LookUp(s, t, id).threads == s.threads[t := At(LookUp(s, t, id).threads, t)]
  {
    LookupMap(cfg, s.cm, s.threads, t, id);
    var s' := LookUp(s, t, id);
    var p := At(s'.threads, t);
    assert FoundPhase(Lookup(s.cm, t, id).1, id, p);
    SameIndex(s.cm, s'.cm);
    ZonesMove(cfg, s, s', t, p);
  }

  /** What becomes of a thread that looks an identifier up. */
  ghost predicate FoundPhase(r: Found, id: Id, p: Phase) {
    match r
    case Hit(loc) => p.Reading? && p.loc == loc
    case Wait(c) => p == Waiting(id, c)
    case Fill => p == Allocating(id)
  }

  lemma LookupMap(cfg: Config, cm: CMap, th: map<Tid, Phase>, t: Tid, id: Id)
    requires FillsOk(cm, th) && ReadersOk(cfg, cm, th) && At(th, t) == Idle
    ensures LookupOk(cm, id)
    ensures forall p :: FoundPhase(Lookup(cm, t, id).1, id, p) ==>
              FillsOk(Lookup(cm, t, id).0, th[t := p]) && ReadersOk(cfg, Lookup(cm, t, id).0, th[t := p])
  {
    assert IsPending(cm, id) ==> cm.zoneMap[id].cond in cm.conds;
    var (cm', r) := Lookup(cm, t, id);
    forall p | FoundPhase(r, id, p)
      ensures FillsOk(cm', th[t := p]) && ReadersOk(cfg, cm', th[t := p])
    {
      match r {
        case Fill =>
          LookupFill(cm, th, t, id);
          ReadersMove(cfg, cm, cm', th, t, p);
        case Wait(_) =>
          LookupWait(cm, th, t, id);
          ReadersMove(cfg, cm, cm', th, t, p);
        case Hit(loc) =>
          LookupHit(cm, th, t, id, p);
          ReadersCount(cfg, cm, cm', th, t, p, loc.zone, true);
      }
    }
  }

  lemma LookupHit(cm: CMap, th: map<Tid, Phase>, t: Tid, id: Id, p: Phase)
    requires FillsOk(cm, th) && At(th, t) == Idle && p.Reading?
    requires LookupOk(cm, id) && id in cm.zoneMap && cm.zoneMap[id].Located?
    ensures FillsOk(Lookup(cm, t, id).0, th[t := p])
  {
    FillerMove(cm, th, t, p);
    WaitersMove(cm, th, t, p);
    RefsMove(cm, th, t, p);
    var cm', th' := Lookup(cm, t, id).0, th[t := p];
    assert forall i: Id :: IsPending(cm', i) <==> IsPending(cm, i);
    assert forall u: Tid, d: nat :: Asleep(cm', u, d) <==> Asleep(cm, u, d);
    assert forall d :: d in cm.conds ==> (Current(cm', d) <==> Current(cm, d));
  }

  /** Where the thread was before does not matter. */
  lemma LookUpForgets(s: State, t: Tid, id: Id)
    requires LookupOk(s.cm, id)
    ensures LookUp(s.(threads := s.threads[t := Idle]), t, id) == LookUp(s, t, id)
  {
    var p := At(LookUp(s, t, id).threads, t);
    assert s.threads[t := Idle][t := p] == s.threads[t := p];
  }

  lemma ReLookUpKeeps(cfg: Config, s: State, t: Tid, id: Id, c: nat)
    requires FineInv(cfg, s) && At(s.threads, t) == Waiting(id, c)
    requires c in s.cm.conds ==> t !in s.cm.conds[c].asleep
    ensures FineInv(cfg, ReLookUp(s, t, id, c))
    ensures !s.aborted ==> !ReLookUp(s, t, id, c).aborted
  {
    assert WaitsOn(s.threads, t, c);
    assert !Asleep(s.cm, t, c);
    ReleaseOne(s.cm, s.threads, t, id, c);
    var s1 := s.(cm := Release(s.cm, c));
    var s2 := s1.(threads := s.threads[t := Idle]);
    ReadersMove(cfg, s.cm, s1.cm, s.threads, t, Idle);
    ZonesMove(cfg, s, s2, t, Idle);
    SameIndex(s.cm, s1.cm);
    LookUpKeeps(cfg, s2, t, id);
    LookUpForgets(s1, t, id);
  }

  lemma WakeUpKeeps(cfg: Config, s: State, t: Tid, c: nat)
    requires FineInv(cfg, s) && WaitsOn(s.threads, t, c)
    ensures c in s.cm.conds && FineInv(cfg, WakeUp(s, t, c))
  {
    WakeOne(s.cm, s.threads, t, c);
    var s' := WakeUp(s, t, c);
    SameIndex(s.cm, s'.cm);
  }

  // ---------- The other steps ----------

  lemma PromoteKeeps(cfg: Config, s: State, t: Tid)
    requires FineInv(cfg, s) && At(s.threads, t).HaveRead?
    ensures Promotional.UpdateOk(s.lru, At(s.threads, t).loc, Read)
    ensures FineInv(cfg, PromoteZone(s, t, cfg, At(s.threads, t)))
  {
    var p := At(s.threads, t);
    var q := Promoted(p.id, p.loc, p.promised, p.read);
    Promotional.UpdateTracks(s.lru, s.uses, cfg.maxChunks, p.loc, Read);
    var s' := PromoteZone(s, t, cfg, p);
    MapMove(cfg, s, s', t, q);
    WritersMove(cfg, s.zsm, s.threads, t, q);
    TokensMove(cfg, s.zsm, s.zsm, s.lru, s'.lru, s.threads, t, q);
    PlacesMove(cfg, s.threads, t, q);
  }

  lemma DropKeeps(cfg: Config, s: State, t: Tid)
    requires FineInv(cfg, s) && At(s.threads, t).Promoted?
    ensures At(s.threads, t).loc.zone < |s.cm.readers|
    ensures FineInv(cfg, Drop(s, t, At(s.threads, t)))
  {
    var p := At(s.threads, t);
    assert ReadsIn(s.threads, t, p.loc.zone);
    var s' := Drop(s, t, p);
    ReadersCount(cfg, s.cm, s'.cm, s.threads, t, Idle, p.loc.zone, false);
    FillerMove(s.cm, s.threads, t, Idle);
    WaitersMove(s.cm, s.threads, t, Idle);
    RefsMove(s.cm, s.threads, t, Idle);
    SameFills(s.cm, s'.cm, s'.threads);
    SameIndex(s.cm, s'.cm);
    ZonesMove(cfg, s, s', t, Idle);
  }

  lemma SameFills(cm: CMap, cm': CMap, th: map<Tid, Phase>)
    requires FillsOk(cm, th)
    requires cm'.zoneMap == cm.zoneMap && cm'.conds == cm.conds && cm'.nextCond == cm.nextCond
    ensures FillsOk(cm', th)
  {
    assert forall i: Id :: IsPending(cm', i) <==> IsPending(cm, i);
    assert forall u: Tid, d: nat :: Asleep(cm', u, d) <==> Asleep(cm, u, d);
    assert forall d :: d in cm.conds ==> (Current(cm', d) <==> Current(cm, d));
  }

  lemma AllocateKeeps(cfg: Config, s: State, t: Tid, ok: bool)
    requires cfg.Valid() && FineInv(cfg, s) && At(s.threads, t).Allocating?
    ensures GetActiveOk(cfg, s.zsm)
    ensures FineInv(cfg, TryAllocate(cfg, s, t, At(s.threads, t).id, ok))
  {
    GetActiveInv(cfg, s.zsm, ok);
    var s' := TryAllocate(cfg, s, t, At(s.threads, t).id, ok);
    var q := At(s'.threads, t);
    WritersAllocate(cfg, s.zsm, s.threads, t, ok, q);
    AllocateSeals(cfg, s.zsm, ok);
    TokensMove(cfg, s.zsm, s'.zsm, s.lru, s.lru, s.threads, t, q);
    PlacesMove(cfg, s.threads, t, q);
    MapMove(cfg, s, s', t, q);
  }

  lemma AllocateSeals(cfg: Config, zsm: Zsm, ok: bool)
    requires cfg.Valid() && Z.Inv(cfg, zsm) && GetActiveOk(cfg, zsm)
    ensures forall y: nat :: Sealed(cfg, GetActive(cfg, zsm, ok).0, y) <==> Sealed(cfg, zsm, y)
  {
    assert zsm.active != [] ==> OffsetOk(cfg, zsm.zones[zsm.active[0]]);
  }

  lemma GiveBackKeeps(cfg: Config, s: State, t: Tid, ok: bool)
    requires FineInv(cfg, s) && At(s.threads, t).Written?
    ensures HandBackOk(cfg, s.zsm, At(s.threads, t).loc)
    ensures FineInv(cfg, GiveBack(cfg, s, t, At(s.threads, t), ok))
  {
    var p := At(s.threads, t);
    assert HoldsZone(s.threads, t, p.loc.zone);
    ReturnActiveInv(cfg, s.zsm, p.loc, ok);
    var s' := GiveBack(cfg, s, t, p, ok);
    var q := Returned(p.id, p.loc, p.data);
    WritersReturn(cfg, s.zsm, s.threads, t, ok, q);
    var z := p.loc.zone;
    assert InQueue(s.lru, z) ==> Sealed(cfg, s.zsm, z);
    TokensChange(cfg, s.zsm, s'.zsm, s.lru, s.lru, s.threads, t, q, z);
    PlacesMove(cfg, s.threads, t, q);
    MapMove(cfg, s, s', t, q);
  }

  lemma ListKeeps(cfg: Config, s: State, t: Tid)
    requires FineInv(cfg, s) && At(s.threads, t).Returned?
    ensures FineInv(cfg, List(cfg, s, t, At(s.threads, t)))
  {
    var p := At(s.threads, t);
    var z := p.loc.zone;
    var q := Listed(p.id, p.loc, p.data);
    assert PlaceOk(cfg, p);
    assert p.loc.chunk + 1 == cfg.maxChunks ==> HasToken(cfg, s.threads, t, z);
    Promotional.UpdateTracks(s.lru, s.uses, cfg.maxChunks, p.loc, Write);
    var s' := List(cfg, s, t, p);
    WritersMove(cfg, s.zsm, s.threads, t, q);
    if p.loc.chunk + 1 == cfg.maxChunks {
      TokensChange(cfg, s.zsm, s.zsm, s.lru, s'.lru, s.threads, t, q, z);
    } else {
      TokensMove(cfg, s.zsm, s.zsm, s.lru, s'.lru, s.threads, t, q);
    }
    PlacesMove(cfg, s.threads, t, q);
    MapMove(cfg, s, s', t, q);
  }

  /** The filler's entry is pending on a live condition, and its place exists. */
  lemma PublishFits(cfg: Config, s: State, t: Tid)
    requires FineInv(cfg, s) && At(s.threads, t).Listed?
    ensures InsertOk(s.cm, At(s.threads, t).id, At(s.threads, t).loc)
  {
    assert FillsId(s.threads, t, At(s.threads, t).id);
    assert PlaceOk(cfg, At(s.threads, t));
  }

  lemma PublishMaps(cfg: Config, s: State, t: Tid)
    requires FineInv(cfg, s) && At(s.threads, t).Listed?
    ensures InsertOk(s.cm, At(s.threads, t).id, At(s.threads, t).loc)
    ensures MapOk(cfg, Publish(s, t, At(s.threads, t)))
  {
    PublishFits(cfg, s, t);
    var p := At(s.threads, t);
    assert FillsId(s.threads, t, p.id);
    var cm', th' := Insert(s.cm, p.id, p.loc), s.threads[t := Idle];
    EndFill(s.cm, cm', s.threads, t, p.id, Idle);
    ReadersMove(cfg, s.cm, cm', s.threads, t, Idle);
    InsertKeepsSound(s.cm, p.id, p.loc);
  }

  lemma PublishKeeps(cfg: Config, s: State, t: Tid)
    requires FineInv(cfg, s) && At(s.threads, t).Listed?
    ensures InsertOk(s.cm, At(s.threads, t).id, At(s.threads, t).loc)
    ensures FineInv(cfg, Publish(s, t, At(s.threads, t)))
  {
    PublishMaps(cfg, s, t);
    ZonesMove(cfg, s, Publish(s, t, At(s.threads, t)), t, Idle);
  }

  lemma CommitStepKeeps(cfg: Config, s: State, t: Tid, ok: bool)
    requires FineInv(cfg, s) && At(s.threads, t).Written?
    ensures FineInv(cfg, CommitAll(cfg, s, t, At(s.threads, t), ok))
    ensures !s.aborted ==> !CommitAll(cfg, s, t, At(s.threads, t), ok).aborted
  {
    var p := At(s.threads, t);
    GiveBackKeeps(cfg, s, t, ok);
    var s1 := GiveBack(cfg, s, t, p, ok);
    ListKeeps(cfg, s1, t);
    var s2 := List(cfg, s1, t, At(s1.threads, t));
    PublishKeeps(cfg, s2, t);
  }

  lemma UndoStepKeeps(cfg: Config, s: State, t: Tid)
    requires FineInv(cfg, s) && At(s.threads, t).Undoing?
    ensures FailedOk(cfg, s.zsm, At(s.threads, t).loc)
    ensures FineInv(cfg, Undo(cfg, s, t, At(s.threads, t)))
  {
    var p := At(s.threads, t);
    assert HoldsZone(s.threads, t, p.loc.zone);
    FailedToWriteInv(cfg, s.zsm, p.loc);
    var s' := Undo(cfg, s, t, p);
    var q := Failing(p.id);
    WritersUndo(cfg, s.zsm, s.threads, t, q);
    TokensMove(cfg, s.zsm, s'.zsm, s.lru, s.lru, s.threads, t, q);
    PlacesMove(cfg, s.threads, t, q);
    MapMove(cfg, s, s', t, q);
  }

  lemma FailStepKeeps(cfg: Config, s: State, t: Tid)
    requires FineInv(cfg, s) && At(s.threads, t).Failing?
    ensures FailOk(s.cm, At(s.threads, t).id)
    ensures FineInv(cfg, FailFill(s, t, At(s.threads, t).id))
  {
    var id := At(s.threads, t).id;
    assert FillsId(s.threads, t, id);
    var s' := FailFill(s, t, id);
    EndFill(s.cm, s'.cm, s.threads, t, id, Idle);
    ReadersMove(cfg, s.cm, s'.cm, s.threads, t, Idle);
    SameIndex(s.cm, s'.cm);
    ZonesMove(cfg, s, s', t, Idle);
  }

  lemma PopKeeps(cfg: Config, s: State, t: Tid)
    requires FineInv(cfg, s) && At(s.threads, t).Evicting?
    ensures FineInv(cfg, Pop(s, t, At(s.threads, t).back))
  {
    var p := At(s.threads, t);
    var s' := Pop(s, t, p.back);
    if s.lru.queue == [] {
      JustMove(cfg, s, s', t, Resume(p.back));
    } else {
      var z := s.lru.queue[0].key;
      var q := Clearing(z, p.back);
      Promotional.PopTracks(s.lru, s.uses);
      WritersMove(cfg, s.zsm, s.threads, t, q);
      TokensChange(cfg, s.zsm, s.zsm, s.lru, s'.lru, s.threads, t, q, z);
      PlacesMove(cfg, s.threads, t, q);
      MapMove(cfg, s, s', t, q);
    }
  }

  lemma ClearKeeps(cfg: Config, s: State, t: Tid)
    requires FineInv(cfg, s) && At(s.threads, t).Clearing?
    ensures FineInv(cfg, Clear(s, t, At(s.threads, t).zone, At(s.threads, t).back))
  {
    var p := At(s.threads, t);
    var s' := Clear(s, t, p.zone, p.back);
    if ClearZoneOk(s.cm, p.zone) {
      var q := Draining(p.zone, p.back);
      ClearFills(s.cm, s.threads, p.zone);
      ClearZoneRemoves(s.cm, p.zone);
      FillerMove(s'.cm, s.threads, t, q);
      WaitersMove(s'.cm, s.threads, t, q);
      RefsMove(s'.cm, s.threads, t, q);
      ReadersMove(cfg, s.cm, s'.cm, s.threads, t, q);
      ZonesMove(cfg, s, s', t, q);
    }
  }

  lemma ResetKeeps(cfg: Config, s: State, t: Tid, ok: bool)
    requires FineInv(cfg, s) && At(s.threads, t).Resetting?
    ensures FineInv(cfg, Reset(cfg, s, t, At(s.threads, t).zone, At(s.threads, t).back, ok))
  {
    var p := At(s.threads, t);
    var s' := Reset(cfg, s, t, p.zone, p.back, ok);
    if EvictOk(cfg, s.zsm, p.zone, ok) {
      var q := Evicting(p.back);
      assert HasToken(cfg, s.threads, t, p.zone);
      EvictZoneInv(cfg, s.zsm, p.zone);
      WritersEvict(cfg, s.zsm, s.threads, t, p.zone, q);
      TokensChange(cfg, s.zsm, s'.zsm, s.lru, s.lru, s.threads, t, q, p.zone);
      PlacesMove(cfg, s.threads, t, q);
      MapMove(cfg, s, s', t, q);
    }
  }
}
