/** Identifiers in every interleaving: who fills one, who sleeps until it is filled, and who is
    counted as reading a zone. */
module FillOwnership {
  import opened ZnTypes
  import opened Protocol
  import opened C = CacheMap

  /** The identifier a thread has still to insert or give up. */
  function Fills(p: Phase): Option<Id> {
    match p
    case Allocating(id) => Some(id)
    case Allocated(id, _) => Some(id)
    case Writing(id, _, _) => Some(id)
    case Written(id, _, _) => Some(id)
    case Returned(id, _, _) => Some(id)
    case Listed(id, _, _) => Some(id)
    case Undoing(id, _) => Some(id)
    case Failing(id) => Some(id)
    case Evicting(back) => back
    case Clearing(_, back) => back
    case Draining(_, back) => back
    case Resetting(_, back) => back
    case _ => None
  }

  datatype Counter = OnCond(cond: nat) | OnZone(zone: nat)

  /** The reference count or reader count a thread is part of. */
  function Counted(p: Phase): Option<Counter> {
    match p
    case Waiting(_, c) => Some(OnCond(c))
    case Reading(_, loc, _) => Some(OnZone(loc.zone))
    case HaveRead(_, loc, _, _) => Some(OnZone(loc.zone))
    case Promoted(_, loc, _, _) => Some(OnZone(loc.zone))
    case _ => None
  }

  ghost function Holders(th: map<Tid, Phase>, k: Counter): set<Tid> {
    set t | t in th && Counted(th[t]) == Some(k)
  }

  /** Threads between the lookup that found a location in the zone and the decrement. */
  ghost function ReadersOf(th: map<Tid, Phase>, z: nat): set<Tid> {
    Holders(th, OnZone(z))
  }

  ghost function WaitersOn(th: map<Tid, Phase>, c: nat): set<Tid> {
    Holders(th, OnCond(c))
  }

  predicate FillsId(th: map<Tid, Phase>, t: Tid, id: Id) {
    Fills(At(th, t)) == Some(id)
  }

  /** The map's entry for the condition's identifier is the fill it was made for. */
  predicate Current(cm: CMap, c: nat)
    requires c in cm.conds
  {
    cm.conds[c].id in cm.zoneMap && cm.zoneMap[cm.conds[c].id] == Pending(c)
  }

  /** An identifier is pending exactly while one thread fills it, on a condition made by that
      thread. */
  ghost predicate OneFiller(cm: CMap, th: map<Tid, Phase>) {
    && (forall k :: k in cm.zoneMap ==> 0 <= k < WORD)
    && (forall t: Tid, id: Id :: FillsId(th, t, id) ==>
          IsPending(cm, id) && cm.zoneMap[id].cond in cm.conds && cm.conds[cm.zoneMap[id].cond].owner == t)
    && (forall id: Id :: IsPending(cm, id) ==>
          && cm.zoneMap[id].cond in cm.conds
          && cm.conds[cm.zoneMap[id].cond].id == id
          && FillsId(th, cm.conds[cm.zoneMap[id].cond].owner, id))
  }

  predicate WaitsOn(th: map<Tid, Phase>, t: Tid, c: nat) {
    At(th, t).Waiting? && At(th, t).cond == c
  }

  ghost predicate NobodyWaits(th: map<Tid, Phase>, c: nat) {
    forall t: Tid :: !WaitsOn(th, t, c)
  }

  predicate Asleep(cm: CMap, t: Tid, c: nat) {
    c in cm.conds && t in cm.conds[c].asleep
  }

  predicate ReadsIn(th: map<Tid, Phase>, t: Tid, z: nat) {
    Counted(At(th, t)) == Some(OnZone(z))
  }

  /** Waiters hold references on live conditions; the sleeping ones wait for the current fill. */
  ghost predicate WaitersOk(cm: CMap, th: map<Tid, Phase>) {
    && (forall c :: c in cm.conds ==> c < cm.nextCond)
    && (forall t: Tid, c: nat :: WaitsOn(th, t, c) ==> c in cm.conds && cm.conds[c].id == At(th, t).id)
    && (forall t: Tid, c: nat :: Asleep(cm, t, c) ==> Current(cm, c) && WaitsOn(th, t, c))
  }

  /** The count of a condition: its waiters, and the fill as long as it is under way. */
  ghost predicate RefsOk(cm: CMap, th: map<Tid, Phase>) {
    forall c :: c in cm.conds ==>
      cm.conds[c].refs == |WaitersOn(th, c)| + (if Current(cm, c) then 1 else 0) && cm.conds[c].refs >= 1
  }

  ghost predicate ReadersOk(cfg: Config, cm: CMap, th: map<Tid, Phase>) {
    && |cm.readers| == |cm.dataMap| == cfg.numZones
    && (forall z :: 0 <= z < cfg.numZones ==> cm.readers[z] == |ReadersOf(th, z)|)
    && (forall id: Id :: id in cm.zoneMap && cm.zoneMap[id].Located? ==> cm.zoneMap[id].loc.zone < cfg.numZones)
    && (forall t: Tid, z: nat :: ReadsIn(th, t, z) ==> z < cfg.numZones)
  }

  lemma CardWithout<T>(a: set<T>, t: T)
    ensures |a| == |a - {t}| + if t in a then 1 else 0
  {
    if t in a {
      assert a == (a - {t}) + {t};
    } else {
      assert a == a - {t};
    }
  }

  /** Moving one thread changes a count by that thread alone. */
  lemma HoldersMove(th: map<Tid, Phase>, t: Tid, p: Phase, k: Counter)
    ensures |Holders(th[t := p], k)| == |Holders(th, k)|
              - (if Counted(At(th, t)) == Some(k) then 1 else 0) + (if Counted(p) == Some(k) then 1 else 0)
  {
    var a, b := Holders(th, k), Holders(th[t := p], k);
    assert t in a <==> Counted(At(th, t)) == Some(k);
    assert t in b <==> Counted(p) == Some(k);
    assert b - {t} == a - {t};
    CardWithout(a, t);
    CardWithout(b, t);
  }

  lemma RefsMove(cm: CMap, th: map<Tid, Phase>, t: Tid, p: Phase)
    requires RefsOk(cm, th) && !p.Waiting? && !At(th, t).Waiting?
    ensures RefsOk(cm, th[t := p])
  {
    forall c | c in cm.conds
      ensures |WaitersOn(th[t := p], c)| == |WaitersOn(th, c)|
    {
      HoldersMove(th, t, p, OnCond(c));
    }
  }

  lemma FillerMove(cm: CMap, th: map<Tid, Phase>, t: Tid, p: Phase)
    requires OneFiller(cm, th) && Fills(p) == Fills(At(th, t))
    ensures OneFiller(cm, th[t := p])
  {
    var th' := th[t := p];
    assert forall u: Tid, id: Id :: FillsId(th', u, id) <==> FillsId(th, u, id);
  }

  lemma WaitersMove(cm: CMap, th: map<Tid, Phase>, t: Tid, p: Phase)
    requires WaitersOk(cm, th) && !p.Waiting? && !At(th, t).Waiting?
    ensures WaitersOk(cm, th[t := p])
  {
    var th' := th[t := p];
    assert forall u: Tid, c: nat :: WaitsOn(th', u, c) <==> WaitsOn(th, u, c);
  }

  lemma ReadersMove(cfg: Config, cm: CMap, cm': CMap, th: map<Tid, Phase>, t: Tid, p: Phase)
    requires ReadersOk(cfg, cm, th) && cm'.readers == cm.readers && |cm'.dataMap| == |cm.dataMap|
    requires forall id: Id :: id in cm'.zoneMap && cm'.zoneMap[id].Located? ==> cm'.zoneMap[id].loc.zone < cfg.numZones
    requires forall z :: Counted(p) == Some(OnZone(z)) <==> Counted(At(th, t)) == Some(OnZone(z))
    ensures ReadersOk(cfg, cm', th[t := p])
  {
    forall z | 0 <= z < cfg.numZones
      ensures |ReadersOf(th[t := p], z)| == |ReadersOf(th, z)|
    {
      HoldersMove(th, t, p, OnZone(z));
    }
    var th' := th[t := p];
    assert forall u: Tid, z: nat :: ReadsIn(th', u, z) <==> ReadsIn(th, u, z);
  }

  /** A reader enters (`more`) or leaves. */
  lemma ReadersCount(cfg: Config, cm: CMap, cm': CMap, th: map<Tid, Phase>, t: Tid, p: Phase, z: nat, more: bool)
    requires ReadersOk(cfg, cm, th) && z < cfg.numZones
    requires cm' == cm.(readers := cm.readers[z := cm.readers[z] + if more then 1 else -1])
    requires Counted(if more then p else At(th, t)) == Some(OnZone(z))
    requires Counted(if more then At(th, t) else p) == None
    ensures ReadersOk(cfg, cm', th[t := p])
  {
    forall y | 0 <= y < cfg.numZones
      ensures cm'.readers[y] == |ReadersOf(th[t := p], y)|
    {
      HoldersMove(th, t, p, OnZone(y));
    }
    var th' := th[t := p];
    assert forall u: Tid, y: nat :: ReadsIn(th', u, y) ==> ReadsIn(th, u, y) || y == z;
  }

  // ---------- The lookup ----------

  /** All three invariants about fills. */
  ghost predicate FillsOk(cm: CMap, th: map<Tid, Phase>) {
    OneFiller(cm, th) && WaitersOk(cm, th) && RefsOk(cm, th)
  }

  /** A thread that neither fills nor is counted looks up what nobody has. */
  lemma LookupFill(cm: CMap, th: map<Tid, Phase>, t: Tid, id: Id)
    requires FillsOk(cm, th)
    requires id !in cm.zoneMap && Fills(At(th, t)) == None && Counted(At(th, t)) == None
    ensures FillsOk(Lookup(cm, t, id).0, th[t := Allocating(id)])
  {
    LookupFillOne(cm, th, t, id);
    LookupFillWaiters(cm, th, t, id);
    LookupFillRefs(cm, th, t, id);
  }

  lemma LookupFillWaiters(cm: CMap, th: map<Tid, Phase>, t: Tid, id: Id)
    requires FillsOk(cm, th)
    requires id !in cm.zoneMap && Fills(At(th, t)) == None && Counted(At(th, t)) == None
    ensures WaitersOk(Lookup(cm, t, id).0, th[t := Allocating(id)])
  {
    var cm', th' := Lookup(cm, t, id).0, th[t := Allocating(id)];
    assert forall c :: c in cm.conds ==> cm'.conds[c] == cm.conds[c] && (Current(cm', c) <==> Current(cm, c));
    assert forall u: Tid, c: nat :: WaitsOn(th', u, c) <==> WaitsOn(th, u, c);
    assert forall u: Tid, c: nat :: Asleep(cm', u, c) <==> Asleep(cm, u, c);
  }

  lemma LookupFillRefs(cm: CMap, th: map<Tid, Phase>, t: Tid, id: Id)
    requires FillsOk(cm, th)
    requires id !in cm.zoneMap && Fills(At(th, t)) == None && Counted(At(th, t)) == None
    ensures RefsOk(Lookup(cm, t, id).0, th[t := Allocating(id)])
  {
    var cm', th' := Lookup(cm, t, id).0, th[t := Allocating(id)];
    assert forall c :: c in cm.conds ==> cm'.conds[c] == cm.conds[c] && (Current(cm', c) <==> Current(cm, c));
    assert WaitersOn(th, cm.nextCond) == {} by {
      assert forall u :: u in WaitersOn(th, cm.nextCond) ==> WaitsOn(th, u, cm.nextCond);
    }
    forall c | c in cm'.conds
      ensures |WaitersOn(th', c)| == |WaitersOn(th, c)|
    {
      HoldersMove(th, t, Allocating(id), OnCond(c));
    }
  }

  lemma LookupFillOne(cm: CMap, th: map<Tid, Phase>, t: Tid, id: Id)
    requires FillsOk(cm, th) && id !in cm.zoneMap && Fills(At(th, t)) == None
    ensures OneFiller(Lookup(cm, t, id).0, th[t := Allocating(id)])
  {
    var cm', th' := Lookup(cm, t, id).0, th[t := Allocating(id)];
    assert forall u: Tid, i: Id :: FillsId(th', u, i) <==> (if u == t then i == id else FillsId(th, u, i));
    assert forall i: Id :: i != id ==> (IsPending(cm', i) <==> IsPending(cm, i));
  }

  lemma LookupWait(cm: CMap, th: map<Tid, Phase>, t: Tid, id: Id)
    requires FillsOk(cm, th)
    requires IsPending(cm, id) && Fills(At(th, t)) == None && Counted(At(th, t)) == None
    ensures LookupOk(cm, id)
    ensures FillsOk(Lookup(cm, t, id).0, th[t := Waiting(id, cm.zoneMap[id].cond)])
  {
    var c := cm.zoneMap[id].cond;
    var p := Waiting(id, c);
    var cm', th' := Lookup(cm, t, id).0, th[t := p];
    assert forall d :: d in cm.conds ==> (Current(cm', d) <==> Current(cm, d));
    assert OneFiller(cm', th') by {
      assert forall u: Tid, i: Id :: FillsId(th', u, i) <==> FillsId(th, u, i);
      assert forall i: Id :: IsPending(cm', i) <==> IsPending(cm, i);
    }
    assert WaitersOk(cm', th') by {
      assert forall u: Tid, d: nat :: WaitsOn(th', u, d) <==> if u == t then d == c else WaitsOn(th, u, d);
      assert forall u: Tid, d: nat :: Asleep(cm', u, d) <==> Asleep(cm, u, d) || (u == t && d == c);
      assert forall d: nat :: Asleep(cm, t, d) ==> WaitsOn(th, t, d);
    }
    forall d | d in cm'.conds
      ensures |WaitersOn(th', d)| == |WaitersOn(th, d)| + if d == c then 1 else 0
    {
      HoldersMove(th, t, p, OnCond(d));
    }
  }

  /** A waiter that is no longer asleep gives up its reference. */
  lemma ReleaseOne(cm: CMap, th: map<Tid, Phase>, t: Tid, id: Id, c: nat)
    requires FillsOk(cm, th)
    requires At(th, t) == Waiting(id, c) && !Asleep(cm, t, c)
    ensures c in cm.conds && FillsOk(Release(cm, c), th[t := Idle])
  {
    assert WaitsOn(th, t, c);
    ReleaseCounts(cm, th, t, id, c);
    ReleaseFiller(cm, th, t, id, c);
    ReleaseWaiters(cm, th, t, id, c);
  }

  lemma ReleaseWaiters(cm: CMap, th: map<Tid, Phase>, t: Tid, id: Id, c: nat)
    requires WaitersOk(cm, th) && c in cm.conds && At(th, t) == Waiting(id, c) && !Asleep(cm, t, c)
    requires cm.conds[c].refs == 1 ==> !Current(cm, c) && NobodyWaits(th[t := Idle], c)
    ensures WaitersOk(Release(cm, c), th[t := Idle])
  {
    var cm', th' := Release(cm, c), th[t := Idle];
    assert forall d :: d in cm'.conds ==> d in cm.conds && cm'.conds[d].id == cm.conds[d].id;
    assert forall u: Tid, d: nat :: WaitsOn(th', u, d) <==> u != t && WaitsOn(th, u, d);
    assert forall d: nat :: Asleep(cm, t, d) ==> WaitsOn(th, t, d) && d == c;
    assert forall u: Tid, d: nat :: Asleep(cm', u, d) ==> Asleep(cm, u, d);
    assert forall d: nat :: !Asleep(cm', t, d);
  }

  lemma ReleaseFiller(cm: CMap, th: map<Tid, Phase>, t: Tid, id: Id, c: nat)
    requires OneFiller(cm, th) && c in cm.conds && At(th, t) == Waiting(id, c)
    requires cm.conds[c].refs == 1 ==> !Current(cm, c)
    ensures OneFiller(Release(cm, c), th[t := Idle])
  {
    var cm', th' := Release(cm, c), th[t := Idle];
    assert forall u: Tid, i: Id :: FillsId(th', u, i) <==> FillsId(th, u, i);
    assert forall i: Id :: IsPending(cm', i) <==> IsPending(cm, i);
    assert forall i: Id :: IsPending(cm, i) ==> Current(cm, cm.zoneMap[i].cond);
  }

  lemma ReleaseCounts(cm: CMap, th: map<Tid, Phase>, t: Tid, id: Id, c: nat)
    requires RefsOk(cm, th) && c in cm.conds && At(th, t) == Waiting(id, c)
    ensures RefsOk(Release(cm, c), th[t := Idle])
    ensures cm.conds[c].refs == 1 ==> !Current(cm, c) && NobodyWaits(th[t := Idle], c)
  {
    var cm', th' := Release(cm, c), th[t := Idle];
    forall d | d in cm.conds
      ensures |WaitersOn(th', d)| == |WaitersOn(th, d)| - if d == c then 1 else 0
    {
      HoldersMove(th, t, Idle, OnCond(d));
    }
    assert forall d :: d in cm'.conds ==> d in cm.conds && (Current(cm', d) <==> Current(cm, d));
    assert forall u: Tid :: WaitsOn(th', u, c) ==> u in WaitersOn(th', c);
  }

  lemma WakeOne(cm: CMap, th: map<Tid, Phase>, t: Tid, c: nat)
    requires FillsOk(cm, th) && c in cm.conds
    ensures var v := cm.conds[c];
            FillsOk(cm.(conds := cm.conds[c := v.(asleep := v.asleep - {t})]), th)
  {
    var v := cm.conds[c];
    var cm' := cm.(conds := cm.conds[c := v.(asleep := v.asleep - {t})]);
    assert forall d :: d in cm.conds ==> (Current(cm', d) <==> Current(cm, d));
    assert forall u: Tid, d: nat :: Asleep(cm', u, d) ==> Asleep(cm, u, d);
    assert forall i: Id :: IsPending(cm', i) <==> IsPending(cm, i);
  }

  // ---------- The end of a fill ----------

  /** The entry of `id` stops being pending and the condition it was pending on loses the
      filler's reference and wakes everyone. */
  ghost predicate FillEnds(cm: CMap, cm': CMap, id: Id) {
    && FailOk(cm, id) && !IsPending(cm', id)
    && cm'.conds == Release(Broadcast(cm, cm.zoneMap[id].cond), cm.zoneMap[id].cond).conds
    && cm'.nextCond == cm.nextCond
    && (forall k :: k != id ==> (k in cm'.zoneMap <==> k in cm.zoneMap))
    && (forall k :: k != id && k in cm.zoneMap ==> cm'.zoneMap[k] == cm.zoneMap[k])
  }

  lemma EndFill(cm: CMap, cm': CMap, th: map<Tid, Phase>, t: Tid, id: Id, p: Phase)
    requires FillsOk(cm, th) && FillEnds(cm, cm', id)
    requires FillsId(th, t, id) && Counted(At(th, t)) == None
    requires Fills(p) == None && Counted(p) == None
    ensures FillsOk(cm', th[t := p])
  {
    var c, th' := cm.zoneMap[id].cond, th[t := p];
    assert forall d :: d in cm.conds && d != c ==> d in cm'.conds && cm'.conds[d] == cm.conds[d];
    assert forall d :: d in cm'.conds ==> d in cm.conds && (Current(cm', d) <==> d != c && Current(cm, d));
    EndCounts(cm, cm', th, t, id, p);
    EndFiller(cm, cm', th, t, id, p);
    assert WaitersOk(cm', th') by {
      assert forall u: Tid, d: nat :: WaitsOn(th', u, d) <==> WaitsOn(th, u, d);
      assert forall u: Tid, d: nat :: Asleep(cm', u, d) ==> d != c && Asleep(cm, u, d);
    }
  }

  lemma EndCounts(cm: CMap, cm': CMap, th: map<Tid, Phase>, t: Tid, id: Id, p: Phase)
    requires FillsOk(cm, th) && FillEnds(cm, cm', id)
    requires Counted(At(th, t)) == None && Counted(p) == None
    ensures RefsOk(cm', th[t := p])
    ensures cm.zoneMap[id].cond !in cm'.conds ==> NobodyWaits(th[t := p], cm.zoneMap[id].cond)
  {
    var c, th' := cm.zoneMap[id].cond, th[t := p];
    assert Current(cm, c);
    forall d | d in cm.conds
      ensures |WaitersOn(th', d)| == |WaitersOn(th, d)|
    {
      HoldersMove(th, t, p, OnCond(d));
    }
    assert forall d :: d in cm'.conds ==> d in cm.conds && (Current(cm', d) <==> d != c && Current(cm, d));
    assert forall u: Tid :: WaitsOn(th', u, c) ==> u in WaitersOn(th', c);
  }

  lemma EndFiller(cm: CMap, cm': CMap, th: map<Tid, Phase>, t: Tid, id: Id, p: Phase)
    requires OneFiller(cm, th) && FillEnds(cm, cm', id) && FillsId(th, t, id) && Fills(p) == None
    ensures OneFiller(cm', th[t := p])
  {
    var c, th' := cm.zoneMap[id].cond, th[t := p];
    forall u: Tid, i: Id
      ensures FillsId(th', u, i) <==> FillsId(th, u, i) && i != id
    {
      assert FillsId(th, u, i) && i == id ==> u == t;
    }
    assert forall i: Id :: IsPending(cm', i) <==> IsPending(cm, i) && i != id;
    assert forall i: Id :: IsPending(cm, i) && i != id ==> cm.zoneMap[i].cond != c;
  }

  /** Clearing a zone touches no fill under way. */
  lemma ClearFills(cm: CMap, th: map<Tid, Phase>, z: nat)
    requires FillsOk(cm, th) && ClearZoneOk(cm, z)
    ensures FillsOk(C.ClearZone(cm, z), th)
  {
    var cm' := C.ClearZone(cm, z);
    forall k | k in cm.zoneMap && cm.zoneMap[k].Pending?
      ensures k in cm'.zoneMap
    {
      forall c | c in cm.dataMap[z]
        ensures SignedKey(cm.dataMap[z][c]) != k
      {
        assert ClearableAt(cm, z, c);
      }
    }
    assert forall id: Id :: IsPending(cm', id) <==> IsPending(cm, id);
    assert forall d :: d in cm.conds ==> (Current(cm', d) <==> Current(cm, d));
    assert forall u: Tid, d: nat :: Asleep(cm', u, d) <==> Asleep(cm, u, d);
  }
}
