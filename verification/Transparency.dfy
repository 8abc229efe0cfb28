/** What holds when the tail of a miss is taken in one step: a hit returns the bytes last generated
    for its identifier, and no zone is reset under a reader. */
module Transparency {
  import opened ZnTypes
  import opened Protocol
  import opened StepEffects
  import opened Z = ZoneState
  import opened C = CacheMap
  import opened ZoneOwnership
  import opened FillOwnership
  import opened Interleavings
  import opened FineRuns

  predicate IsCleared(th: map<Tid, Phase>, t: Tid, z: nat) {
    (At(th, t).Draining? || At(th, t).Resetting?) && At(th, t).zone == z
  }

  predicate IsResetting(th: map<Tid, Phase>, t: Tid, z: nat) {
    At(th, t).Resetting? && At(th, t).zone == z
  }

  /** The chunk holds finished data. */
  predicate HasData(cfg: Config, zsm: Zsm, loc: Loc) {
    loc.zone < |zsm.zones| && loc.chunk < Z.Written(cfg, zsm, loc.zone)
  }

  /** Both directions of the map agree, list only chunks that were written, and list nothing of a
      zone between its clearing and its reset. */
  ghost predicate IndexOk(cfg: Config, zsm: Zsm, cm: CMap, th: map<Tid, Phase>) {
    && Mirror(cm)
    && (forall loc, id :: Indexed(cm, loc, id) ==> HasData(cfg, zsm, loc))
    && (forall t: Tid, z: nat, c, id :: IsCleared(th, t, z) ==> !Indexed(cm, Loc(z, c), id))
  }

  /** The bytes are the last ones generated for the identifier. */
  predicate LastIs(lastGen: map<Id, Data>, id: Id, data: Data) {
    id in lastGen && lastGen[id] == data
  }

  /** What a thread remembers is what the disk holds. */
  predicate PhaseOk(cfg: Config, zsm: Zsm, disk: map<Loc, Data>, lastGen: map<Id, Data>, p: Phase) {
    match p
    case Reading(_, loc, promised) => HasData(cfg, zsm, loc) && Peek(disk, loc) == promised
    case HaveRead(_, loc, promised, read) =>
      HasData(cfg, zsm, loc) && Peek(disk, loc) == promised && (read.Some? ==> read.value == promised)
    case Promoted(_, loc, promised, read) =>
      HasData(cfg, zsm, loc) && Peek(disk, loc) == promised && (read.Some? ==> read.value == promised)
    case Writing(id, _, data) => LastIs(lastGen, id, data)
    case Written(id, loc, data) => LastIs(lastGen, id, data) && Peek(disk, loc) == data
    case Returned(id, _, data) => LastIs(lastGen, id, data)
    case Listed(id, _, data) => LastIs(lastGen, id, data)
    case _ => true
  }

  ghost predicate LocatedOk(cm: CMap, disk: map<Loc, Data>, lastGen: map<Id, Data>) {
    forall id, loc :: IsLocated(cm, id, loc) ==> LastIs(lastGen, id, Peek(disk, loc))
  }

  ghost predicate PhasesOk(cfg: Config, s: State) {
    forall t: Tid :: PhaseOk(cfg, s.zsm, s.disk, s.lastGen, At(s.threads, t))
  }

  /** No thread reads a zone that another is about to reset. */
  ghost predicate NoReset(th: map<Tid, Phase>) {
    forall t, u: Tid, z: nat :: IsResetting(th, t, z) ==> !ReadsIn(th, u, z)
  }

  ghost predicate HitsOk(hits: seq<HitRecord>) {
    forall i :: 0 <= i < |hits| ==> hits[i].data == hits[i].promised
  }

  ghost predicate ContentsOk(cfg: Config, s: State) {
    LocatedOk(s.cm, s.disk, s.lastGen) && PhasesOk(cfg, s) && NoReset(s.threads) && HitsOk(s.hits)
  }

  ghost predicate DataInv(cfg: Config, s: State) {
    IndexOk(cfg, s.zsm, s.cm, s.threads) && ContentsOk(cfg, s)
  }

  // ---------- Steps that leave the map and the zones' contents alone ----------

  predicate SameData(cfg: Config, zsm: Zsm, zsm': Zsm) {
    |zsm'.zones| == |zsm.zones| &&
    forall z :: 0 <= z < |zsm.zones| ==> Z.Written(cfg, zsm', z) == Z.Written(cfg, zsm, z)
  }

  /** The located part of the map is the same. */
  ghost predicate SameLocated(cm: CMap, cm': CMap) {
    cm'.dataMap == cm.dataMap &&
    forall k, loc ::
      (k in cm'.zoneMap && cm'.zoneMap[k] == Located(loc)) <==> (k in cm.zoneMap && cm.zoneMap[k] == Located(loc))
  }

  lemma IndexMove(cfg: Config, zsm: Zsm, zsm': Zsm, cm: CMap, cm': CMap, th: map<Tid, Phase>, t: Tid, p: Phase)
    requires IndexOk(cfg, zsm, cm, th) && SameData(cfg, zsm, zsm') && SameLocated(cm, cm')
    requires forall z: nat :: IsCleared(map[t := p], t, z) ==> IsCleared(th, t, z)
    ensures IndexOk(cfg, zsm', cm', th[t := p])
  {
    var th' := th[t := p];
    assert forall loc, id :: Indexed(cm', loc, id) <==> Indexed(cm, loc, id);
    assert forall loc, id: Id :: IsLocated(cm', id, loc) <==> IsLocated(cm, id, loc);
    assert forall u: Tid, z: nat :: IsCleared(th', u, z) ==> IsCleared(th, u, z);
  }

  lemma PhasesMove(cfg: Config, s: State, s': State, t: Tid, p: Phase)
    requires PhasesOk(cfg, s) && SameData(cfg, s.zsm, s'.zsm)
    requires s'.disk == s.disk && s'.lastGen == s.lastGen && s'.threads == s.threads[t := p]
    requires PhaseOk(cfg, s'.zsm, s'.disk, s'.lastGen, p)
    ensures PhasesOk(cfg, s')
  {
    var th' := s'.threads;
    assert forall u: Tid :: At(th', u) == if u == t then p else At(s.threads, u);
    assert forall loc: Loc :: HasData(cfg, s'.zsm, loc) <==> HasData(cfg, s.zsm, loc);
  }

  lemma NoResetMove(th: map<Tid, Phase>, t: Tid, p: Phase)
    requires NoReset(th) && !p.Resetting?
    requires forall z: nat :: Counted(p) == Some(OnZone(z)) ==>
               ReadsIn(th, t, z) || forall u: Tid :: !IsResetting(th, u, z)
    ensures NoReset(th[t := p])
  {
    var th' := th[t := p];
    assert forall u: Tid, z: nat :: IsResetting(th', u, z) ==> IsResetting(th, u, z);
    assert forall u: Tid, z: nat :: ReadsIn(th', u, z) ==>
      (u == t && Counted(p) == Some(OnZone(z))) || ReadsIn(th, u, z);
  }

  lemma LocatedMove(cm: CMap, cm': CMap, disk: map<Loc, Data>, lastGen: map<Id, Data>)
    requires LocatedOk(cm, disk, lastGen) && SameLocated(cm, cm')
    ensures LocatedOk(cm', disk, lastGen)
  {
    assert forall loc, id: Id :: IsLocated(cm', id, loc) <==> IsLocated(cm, id, loc);
  }

  /** The common case: one thread moves, and neither the located entries, the written chunks nor
      the disk change. */
  lemma QuietStep(cfg: Config, s: State, s': State, t: Tid, p: Phase)
    requires DataInv(cfg, s)
    requires SameData(cfg, s.zsm, s'.zsm) && SameLocated(s.cm, s'.cm)
    requires s'.disk == s.disk && s'.lastGen == s.lastGen && s'.threads == s.threads[t := p] && HitsOk(s'.hits)
    requires !p.Resetting?
    requires p.Draining? ==> IsCleared(s.threads, t, p.zone)
    requires PhaseOk(cfg, s'.zsm, s'.disk, s'.lastGen, p)
    requires forall z: nat :: Counted(p) == Some(OnZone(z)) ==>
               ReadsIn(s.threads, t, z) || forall u: Tid :: !IsResetting(s.threads, u, z)
    ensures DataInv(cfg, s')
  {
    IndexMove(cfg, s.zsm, s'.zsm, s.cm, s'.cm, s.threads, t, p);
    PhasesMove(cfg, s, s', t, p);
    NoResetMove(s.threads, t, p);
    LocatedMove(s.cm, s'.cm, s.disk, s.lastGen);
  }

  // ---------- Readers ----------

  lemma LookUpData(cfg: Config, s: State, t: Tid, id: Id)
    requires FineInv(cfg, s) && DataInv(cfg, s) && At(s.threads, t).Idle?
    ensures DataInv(cfg, LookUp(s, t, id))
  {
    LookUpKeeps(cfg, s, t, id);
    LookUpQuiet(cfg, s, t, id);
  }

  lemma LookUpQuiet(cfg: Config, s: State, t: Tid, id: Id)
    requires DataInv(cfg, s) && LookupOk(s.cm, id)
    requires LookUp(s, t, id).threads == s.threads[t := At(LookUp(s, t, id).threads, t)]
    ensures DataInv(cfg, LookUp(s, t, id))
  {
    var s' := LookUp(s, t, id);
    var p := At(s'.threads, t);
    if p.Reading? {
      assert IsLocated(s.cm, id, p.loc);
      assert Indexed(s.cm, Loc(p.loc.zone, p.loc.chunk), id);
      forall u: Tid
        ensures !IsResetting(s.threads, u, p.loc.zone)
      {
        assert IsResetting(s.threads, u, p.loc.zone) ==> IsCleared(s.threads, u, p.loc.zone);
      }
    }
    QuietStep(cfg, s, s', t, p);
  }

  lemma ReLookUpData(cfg: Config, s: State, t: Tid, id: Id, c: nat)
    requires FineInv(cfg, s) && DataInv(cfg, s) && At(s.threads, t) == Waiting(id, c)
    requires c in s.cm.conds ==> t !in s.cm.conds[c].asleep
    ensures DataInv(cfg, ReLookUp(s, t, id, c))
  {
    if c in s.cm.conds {
      var s1 := s.(cm := Release(s.cm, c));
      LocatedMove(s.cm, s1.cm, s.disk, s.lastGen);
      assert s.threads[t := At(s.threads, t)] == s.threads;
      IndexMove(cfg, s.zsm, s.zsm, s.cm, s1.cm, s.threads, t, At(s.threads, t));
      if LookupOk(s1.cm, id) {
        LookUpQuiet(cfg, s1, t, id);
      }
    }
  }

  // ---------- Writers ----------

  /** Nobody reads, and no entry locates, the chunk a thread is writing. */
  lemma TargetIsPrivate(cfg: Config, s: State, t: Tid, loc: Loc)
    requires FineInv(cfg, s) && Holds(At(s.threads, t)) == Some(loc)
    ensures IsBeingWritten(cfg, s.zsm, loc.zone) && s.zsm.zones[loc.zone].offset == loc.chunk
    ensures !HasData(cfg, s.zsm, loc)
    ensures forall u: Tid :: u != t ==> Holds(At(s.threads, u)) != Some(loc)
  {
    assert HoldsZone(s.threads, t, loc.zone);
    assert forall u: Tid :: Holds(At(s.threads, u)) == Some(loc) ==> HoldsZone(s.threads, u, loc.zone);
  }

  /** Writing there disturbs nothing anyone relies on. */
  lemma WriteData(cfg: Config, s: State, s': State, t: Tid, p: Phase, bytes: Data)
    requires FineInv(cfg, s) && DataInv(cfg, s) && At(s.threads, t).Writing?
    requires || p == At(s.threads, t)
             || (p == Protocol.Written(At(s.threads, t).id, At(s.threads, t).loc, bytes) &&
                 bytes == At(s.threads, t).data)
    requires s' == s.(disk := s.disk[At(s.threads, t).loc := bytes], threads := s.threads[t := p])
    ensures DataInv(cfg, s')
  {
    var loc := At(s.threads, t).loc;
    TargetIsPrivate(cfg, s, t, loc);
    IndexMove(cfg, s.zsm, s.zsm, s.cm, s.cm, s.threads, t, p);
    NoResetMove(s.threads, t, p);
    forall l, id | IsLocated(s.cm, id, l)
      ensures LastIs(s.lastGen, id, Peek(s'.disk, l))
    {
      assert Indexed(s.cm, l, id);
      assert HasData(cfg, s.zsm, l);
    }
    forall u: Tid
      ensures PhaseOk(cfg, s'.zsm, s'.disk, s'.lastGen, At(s'.threads, u))
    {
      assert PhaseOk(cfg, s.zsm, s.disk, s.lastGen, At(s.threads, u));
      assert PhaseOk(cfg, s.zsm, s.disk, s.lastGen, At(s.threads, t));
    }
  }

  /** New bytes are generated only for an identifier nobody locates or is about to publish. */
  lemma GenerateData(cfg: Config, s: State, t: Tid, data: Data)
    requires FineInv(cfg, s) && DataInv(cfg, s) && At(s.threads, t).Allocated?
    ensures DataInv(cfg, NewBytes(s, t, At(s.threads, t), data))
  {
    var p := At(s.threads, t);
    var q := Writing(p.id, p.loc, data);
    var s' := NewBytes(s, t, p, data);
    assert FillsId(s.threads, t, p.id);
    IndexMove(cfg, s.zsm, s.zsm, s.cm, s.cm, s.threads, t, q);
    NoResetMove(s.threads, t, q);
    forall u: Tid
      ensures PhaseOk(cfg, s'.zsm, s'.disk, s'.lastGen, At(s'.threads, u))
    {
      assert PhaseOk(cfg, s.zsm, s.disk, s.lastGen, At(s.threads, u));
      assert u != t ==> !FillsId(s.threads, u, p.id);
    }
  }

  lemma AllocateData(cfg: Config, s: State, t: Tid, ok: bool)
    requires cfg.Valid() && FineInv(cfg, s) && DataInv(cfg, s) && At(s.threads, t).Allocating?
    ensures DataInv(cfg, TryAllocate(cfg, s, t, At(s.threads, t).id, ok))
  {
    GetActiveInv(cfg, s.zsm, ok);
    AllocateWrites(cfg, s.zsm, ok);
    var s' := TryAllocate(cfg, s, t, At(s.threads, t).id, ok);
    QuietStep(cfg, s, s', t, At(s'.threads, t));
  }

  lemma AllocateWrites(cfg: Config, zsm: Zsm, ok: bool)
    requires Z.Inv(cfg, zsm) && GetActiveOk(cfg, zsm)
    ensures SameData(cfg, zsm, GetActive(cfg, zsm, ok).0)
  {
    if CanOpen(cfg, zsm) {
      assert OffsetOk(cfg, zsm.zones[zsm.free[0]]);
    }
  }

  lemma UndoData(cfg: Config, s: State, t: Tid)
    requires FineInv(cfg, s) && DataInv(cfg, s) && At(s.threads, t).Undoing?
    ensures DataInv(cfg, Undo(cfg, s, t, At(s.threads, t)))
  {
    UndoStepKeeps(cfg, s, t);
    var s' := Undo(cfg, s, t, At(s.threads, t));
    QuietStep(cfg, s, s', t, At(s'.threads, t));
  }

  lemma FailData(cfg: Config, s: State, t: Tid)
    requires FineInv(cfg, s) && DataInv(cfg, s) && At(s.threads, t).Failing?
    ensures DataInv(cfg, FailFill(s, t, At(s.threads, t).id))
  {
    FailStepKeeps(cfg, s, t);
    var s' := FailFill(s, t, At(s.threads, t).id);
    QuietStep(cfg, s, s', t, Idle);
  }

  /** The effect of the whole tail. */
  lemma CommitEffect(cfg: Config, s: State, t: Tid, p: Phase, ok: bool)
    requires !s.aborted && p.Written? && HandBackOk(cfg, s.zsm, p.loc) && InsertOk(s.cm, p.id, p.loc)
    ensures var s' := CommitAll(cfg, s, t, p, ok);
            && s'.zsm == ReturnActive(cfg, s.zsm, p.loc, ok) && s'.cm == C.Insert(s.cm, p.id, p.loc)
            && s'.threads == s.threads[t := Idle]
            && s'.disk == s.disk && s'.lastGen == s.lastGen && s'.hits == s.hits
  {
    var th1: map<Tid, Phase> := s.threads[t := Returned(p.id, p.loc, p.data)];
    var th2: map<Tid, Phase> := th1[t := Listed(p.id, p.loc, p.data)];
    assert th2[t := Idle] == s.threads[t := Idle];
  }

  /** A zone being cleared or reset is sealed. */
  lemma ClearedIsSealed(cfg: Config, s: State)
    requires FineInv(cfg, s)
    ensures forall u: Tid, z: nat :: IsCleared(s.threads, u, z) ==> Sealed(cfg, s.zsm, z)
  {
    assert forall u: Tid, z: nat :: IsCleared(s.threads, u, z) ==> HasToken(cfg, s.threads, u, z);
  }

  lemma CommitData(cfg: Config, s: State, t: Tid, ok: bool)
    requires FineInv(cfg, s) && DataInv(cfg, s) && !s.aborted && At(s.threads, t).Written?
    ensures DataInv(cfg, CommitAll(cfg, s, t, At(s.threads, t), ok))
  {
    var p := At(s.threads, t);
    GiveBackKeeps(cfg, s, t, ok);
    assert FillsId(s.threads, t, p.id);
    CommitEffect(cfg, s, t, p, ok);
    TargetIsPrivate(cfg, s, t, p.loc);
    ClearedIsSealed(cfg, s);
    CommitIndex(cfg, s.zsm, s.cm, s.threads, t, p.id, p.loc, ok);
    assert PhaseOk(cfg, s.zsm, s.disk, s.lastGen, p);
    CommitContents(cfg, s, CommitAll(cfg, s, t, p, ok), t, p);
  }

  lemma CommitContents(cfg: Config, s: State, s': State, t: Tid, p: Phase)
    requires ContentsOk(cfg, s) && p.Written? && PhaseOk(cfg, s.zsm, s.disk, s.lastGen, p)
    requires InsertOk(s.cm, p.id, p.loc) && s'.cm == C.Insert(s.cm, p.id, p.loc)
    requires s'.threads == s.threads[t := Idle]
    requires s'.disk == s.disk && s'.lastGen == s.lastGen && s'.hits == s.hits
    requires forall loc :: HasData(cfg, s.zsm, loc) ==> HasData(cfg, s'.zsm, loc)
    ensures ContentsOk(cfg, s')
  {
    NoResetMove(s.threads, t, Idle);
    var cm', th' := s'.cm, s'.threads;
    assert forall l, id: Id :: IsLocated(cm', id, l) ==> IsLocated(s.cm, id, l) || (id == p.id && l == p.loc);
    assert forall u: Tid :: At(th', u) == if u == t then Idle else At(s.threads, u);
  }

  lemma CommitIndex(cfg: Config, zsm: Zsm, cm: CMap, th: map<Tid, Phase>, t: Tid, id: Id, loc: Loc, ok: bool)
    requires IndexOk(cfg, zsm, cm, th) && HandBackOk(cfg, zsm, loc) && InsertOk(cm, id, loc)
    requires IsBeingWritten(cfg, zsm, loc.zone)
    requires forall u: Tid, z: nat :: IsCleared(th, u, z) ==> Sealed(cfg, zsm, z)
    ensures IndexOk(cfg, ReturnActive(cfg, zsm, loc, ok), C.Insert(cm, id, loc), th[t := Idle])
    ensures forall l :: HasData(cfg, zsm, l) ==> HasData(cfg, ReturnActive(cfg, zsm, loc, ok), l)
  {
    var zsm', cm', th' := ReturnActive(cfg, zsm, loc, ok), C.Insert(cm, id, loc), th[t := Idle];
    assert loc.chunk !in cm.dataMap[loc.zone] by {
      if loc.chunk in cm.dataMap[loc.zone] {
        assert Indexed(cm, loc, cm.dataMap[loc.zone][loc.chunk]);
      }
    }
    InsertKeepsMirror(cm, id, loc);
    assert forall l, i :: Indexed(cm', l, i) ==> l == loc || Indexed(cm, l, i);
    assert forall u: Tid, z: nat :: IsCleared(th', u, z) ==> IsCleared(th, u, z);
    assert !Sealed(cfg, zsm, loc.zone);
    assert forall u: Tid :: At(th', u) == if u == t then Idle else At(th, u);
  }

  /** The tail's first part alone. */
  /** Handing back makes one more chunk hold data and no zone cleared. */
  lemma GiveBackEffect(cfg: Config, s: State, t: Tid, ok: bool)
    requires FineInv(cfg, s) && At(s.threads, t).Written?
    ensures var p, s' := At(s.threads, t), GiveBack(cfg, s, t, At(s.threads, t), ok);
            && s' == s.(zsm := s'.zsm, threads := s.threads[t := Returned(p.id, p.loc, p.data)])
            && forall l :: HasData(cfg, s.zsm, l) ==> HasData(cfg, s'.zsm, l)
  {
    GiveBackKeeps(cfg, s, t, ok);
    TargetIsPrivate(cfg, s, t, At(s.threads, t).loc);
  }

  lemma GiveBackData(cfg: Config, s: State, t: Tid, ok: bool)
    requires FineInv(cfg, s) && DataInv(cfg, s) && At(s.threads, t).Written?
    ensures DataInv(cfg, GiveBack(cfg, s, t, At(s.threads, t), ok))
  {
    var p, s' := At(s.threads, t), GiveBack(cfg, s, t, At(s.threads, t), ok);
    GiveBackEffect(cfg, s, t, ok);
    assert PhaseOk(cfg, s.zsm, s.disk, s.lastGen, p);
    var q := Returned(p.id, p.loc, p.data);
    NoResetMove(s.threads, t, q);
    assert forall u: Tid, z: nat :: IsCleared(s'.threads, u, z) ==> IsCleared(s.threads, u, z);
    assert forall u: Tid :: At(s'.threads, u) == if u == t then q else At(s.threads, u);
  }

  lemma ListData(cfg: Config, s: State, t: Tid)
    requires DataInv(cfg, s) && At(s.threads, t).Returned?
    ensures DataInv(cfg, List(cfg, s, t, At(s.threads, t)))
  {
    var p := At(s.threads, t);
    assert PhaseOk(cfg, s.zsm, s.disk, s.lastGen, p);
    QuietStep(cfg, s, List(cfg, s, t, p), t, Listed(p.id, p.loc, p.data));
  }

  /** The chunk a thread is about to publish still holds its bytes: its zone was not cleared or
      reset, nor the chunk given to someone else, since it was written. */
  predicate Intact(cfg: Config, s: State, p: Phase)
    requires p.Returned? || p.Listed?
  {
    && HasData(cfg, s.zsm, p.loc) && Peek(s.disk, p.loc) == p.data
    && p.loc.zone < |s.cm.dataMap| && p.loc.chunk !in s.cm.dataMap[p.loc.zone]
    && forall t :: t in s.threads ==> !IsCleared(s.threads, t, p.loc.zone)
  }

  /** Publishing keeps the map truthful exactly when the chunk is intact. */
  lemma PublishExactly(cfg: Config, s: State, t: Tid)
    requires FineInv(cfg, s) && DataInv(cfg, s) && At(s.threads, t).Listed?
    ensures DataInv(cfg, Publish(s, t, At(s.threads, t))) <==> Intact(cfg, s, At(s.threads, t))
  {
    var p := At(s.threads, t);
    PublishKeeps(cfg, s, t);
    assert PhaseOk(cfg, s.zsm, s.disk, s.lastGen, p);
    var s' := Publish(s, t, p);
    if Intact(cfg, s, p) {
      PublishData(cfg, s, t);
    } else {
      PublishLies(cfg, s, t);
    }
  }

  lemma PublishData(cfg: Config, s: State, t: Tid)
    requires DataInv(cfg, s) && At(s.threads, t).Listed? && Intact(cfg, s, At(s.threads, t))
    requires InsertOk(s.cm, At(s.threads, t).id, At(s.threads, t).loc)
    ensures DataInv(cfg, Publish(s, t, At(s.threads, t)))
  {
    var p := At(s.threads, t);
    assert PhaseOk(cfg, s.zsm, s.disk, s.lastGen, p);
    InsertKeepsMirror(s.cm, p.id, p.loc);
    NoResetMove(s.threads, t, Idle);
    var cm', th' := C.Insert(s.cm, p.id, p.loc), s.threads[t := Idle];
    assert forall l, i :: Indexed(cm', l, i) ==> l == p.loc || Indexed(s.cm, l, i);
    assert forall l, i: Id :: IsLocated(cm', i, l) ==> IsLocated(s.cm, i, l) || (i == p.id && l == p.loc);
    assert forall u: Tid, z: nat :: IsCleared(th', u, z) ==> IsCleared(s.threads, u, z) && u in s.threads;
    assert forall u: Tid :: At(th', u) == if u == t then Idle else At(s.threads, u);
  }

  lemma PublishLies(cfg: Config, s: State, t: Tid)
    requires DataInv(cfg, s) && At(s.threads, t).Listed? && !Intact(cfg, s, At(s.threads, t))
    requires InsertOk(s.cm, At(s.threads, t).id, At(s.threads, t).loc)
    ensures !DataInv(cfg, Publish(s, t, At(s.threads, t)))
  {
    var p := At(s.threads, t);
    var s' := Publish(s, t, p);
    assert PhaseOk(cfg, s.zsm, s.disk, s.lastGen, p);
    assert IsLocated(s'.cm, p.id, p.loc) && Indexed(s'.cm, Loc(p.loc.zone, p.loc.chunk), p.id);
    if u :| u in s.threads && IsCleared(s.threads, u, p.loc.zone) {
      assert IsCleared(s'.threads, u, p.loc.zone);
    } else if p.loc.chunk in s.cm.dataMap[p.loc.zone] {
      var other := s.cm.dataMap[p.loc.zone][p.loc.chunk];
      assert Indexed(s.cm, p.loc, other) && IsLocated(s.cm, other, p.loc);
      assert IsLocated(s'.cm, other, p.loc);
    }
  }

  // ---------- Evictors ----------

  lemma ClearData(cfg: Config, s: State, t: Tid)
    requires FineInv(cfg, s) && DataInv(cfg, s) && At(s.threads, t).Clearing?
    ensures DataInv(cfg, Clear(s, t, At(s.threads, t).zone, At(s.threads, t).back))
  {
    var p := At(s.threads, t);
    var s' := Clear(s, t, p.zone, p.back);
    if ClearZoneOk(s.cm, p.zone) {
      var q := Draining(p.zone, p.back);
      ClearIndex(cfg, s.zsm, s.cm, s.threads, t, q);
      PhasesMove(cfg, s, s', t, q);
      NoResetMove(s.threads, t, q);
      var cm' := s'.cm;
      assert forall l, id: Id :: IsLocated(cm', id, l) ==> IsLocated(s.cm, id, l);
    }
  }

  lemma ClearIndex(cfg: Config, zsm: Zsm, cm: CMap, th: map<Tid, Phase>, t: Tid, q: Phase)
    requires IndexOk(cfg, zsm, cm, th) && q.Draining? && ClearZoneOk(cm, q.zone)
    requires forall k :: k in cm.zoneMap ==> 0 <= k < WORD
    ensures IndexOk(cfg, zsm, C.ClearZone(cm, q.zone), th[t := q])
  {
    ClearZoneRemoves(cm, q.zone);
    var cm', th' := C.ClearZone(cm, q.zone), th[t := q];
    assert forall l, id :: Indexed(cm', l, id) ==> Indexed(cm, l, id) && l.zone != q.zone;
    assert forall u: Tid, z: nat :: IsCleared(th', u, z) ==> IsCleared(th, u, z) || z == q.zone;
    assert forall u: Tid :: At(th', u) == if u == t then q else At(th, u);
  }

  lemma DrainData(cfg: Config, s: State, t: Tid)
    requires FineInv(cfg, s) && DataInv(cfg, s) && At(s.threads, t).Draining?
    requires At(s.threads, t).zone < |s.cm.readers| && s.cm.readers[At(s.threads, t).zone] <= 0
    ensures DataInv(cfg, SetPhase(s, t, Resetting(At(s.threads, t).zone, At(s.threads, t).back)))
  {
    var p := At(s.threads, t);
    var q := Resetting(p.zone, p.back);
    assert ReadersOf(s.threads, p.zone) == {};
    assert forall u: Tid :: ReadsIn(s.threads, u, p.zone) ==> u in ReadersOf(s.threads, p.zone);
    var th' := s.threads[t := q];
    assert forall u: Tid, z: nat :: ReadsIn(th', u, z) ==> ReadsIn(s.threads, u, z);
    assert forall u: Tid, z: nat :: IsResetting(th', u, z) ==> IsResetting(s.threads, u, z) || z == p.zone;
    IndexMove(cfg, s.zsm, s.zsm, s.cm, s.cm, s.threads, t, q);
    PhasesMove(cfg, s, SetPhase(s, t, q), t, q);
  }

  lemma ResetData(cfg: Config, s: State, t: Tid, ok: bool)
    requires FineInv(cfg, s) && DataInv(cfg, s) && At(s.threads, t).Resetting?
    ensures DataInv(cfg, Reset(cfg, s, t, At(s.threads, t).zone, At(s.threads, t).back, ok))
  {
    var p := At(s.threads, t);
    var z := p.zone;
    var s' := Reset(cfg, s, t, z, p.back, ok);
    if EvictOk(cfg, s.zsm, z, ok) {
      var q := Evicting(p.back);
      assert IsResetting(s.threads, t, z) && IsCleared(s.threads, t, z);
      NoResetMove(s.threads, t, q);
      var th' := s'.threads;
      assert forall u: Tid, y: nat :: IsCleared(th', u, y) ==> IsCleared(s.threads, u, y);
      assert forall u: Tid :: At(th', u) == if u == t then q else At(s.threads, u);
      forall l, id | Indexed(s.cm, l, id)
        ensures l.zone != z && HasData(cfg, s'.zsm, l)
      {
        assert l.zone == z ==> Indexed(s.cm, Loc(z, l.chunk), id);
        assert HasData(cfg, s.zsm, l);
      }
      assert forall id: Id, l :: IsLocated(s.cm, id, l) ==> Indexed(s.cm, l, id);
      ResetPhases(cfg, s, t, ok);
    }
  }

  lemma ResetPhases(cfg: Config, s: State, t: Tid, ok: bool)
    requires FineInv(cfg, s) && PhasesOk(cfg, s) && NoReset(s.threads) && At(s.threads, t).Resetting?
    requires EvictOk(cfg, s.zsm, At(s.threads, t).zone, ok)
    ensures PhasesOk(cfg, Reset(cfg, s, t, At(s.threads, t).zone, At(s.threads, t).back, ok))
  {
    var p := At(s.threads, t);
    var z := p.zone;
    var s' := Reset(cfg, s, t, z, p.back, ok);
    assert IsResetting(s.threads, t, z);
    forall u: Tid
      ensures PhaseOk(cfg, s'.zsm, s'.disk, s'.lastGen, At(s'.threads, u))
    {
      var q := At(s.threads, u);
      assert PhaseOk(cfg, s.zsm, s.disk, s.lastGen, q);
      assert Counted(q) == Some(OnZone(z)) ==> ReadsIn(s.threads, u, z);
      assert q.Written? ==> HoldsZone(s.threads, u, q.loc.zone);
    }
  }

  // ---------- Runs ----------

  lemma InitData(cfg: Config)
    ensures DataInv(cfg, Protocol.Init(cfg))
  {
  }

  /** The step publishes, if anything, an intact chunk. */
  predicate PublishesIntact(cfg: Config, s: State, step: Step) {
    step.InsertEntry? && At(s.threads, step.t).Listed? ==> Intact(cfg, s, At(s.threads, step.t))
  }

  /** Runs in which no thread publishes a chunk that was taken from it in the middle of its tail. */
  ghost predicate IntactRun(cfg: Config, steps: seq<Step>) {
    forall i :: 0 <= i < |steps| ==> PublishesIntact(cfg, Exec(cfg, steps[..i]), steps[i])
  }

  lemma IntactPrefix(cfg: Config, steps: seq<Step>)
    requires IntactRun(cfg, steps) && steps != []
    ensures IntactRun(cfg, steps[..|steps| - 1])
  {
    var before := steps[..|steps| - 1];
    forall i | 0 <= i < |before|
      ensures PublishesIntact(cfg, Exec(cfg, before[..i]), before[i])
    {
      assert before[..i] == steps[..i];
    }
  }

  /** Among them are all runs whose tails are taken in one step. */
  lemma AtomicRunsAreIntact(cfg: Config, steps: seq<Step>)
    requires AtomicRun(steps)
    ensures IntactRun(cfg, steps)
  {
    assert forall i :: 0 <= i < |steps| ==> AtomicStep(steps[i]);
  }

  lemma ReaderKeepsData(cfg: Config, s: State, step: Step)
    requires cfg.Valid() && FineInv(cfg, s) && DataInv(cfg, s) && !s.aborted && ReaderStep(step)
    ensures DataInv(cfg, Apply(cfg, s, step))
  {
    var p := At(s.threads, step.t);
    match step {
      case LookupStep(t, id) => if p.Idle? { LookUpData(cfg, s, t, id); }
      case SpuriousWake(t) => if p.Waiting? { WakeData(cfg, s, t); }
      case Recheck(t) => if Apply(cfg, s, step) != s { ReLookUpData(cfg, s, t, p.id, p.cond); }
      case Promote(t) => if p.HaveRead? { PromoteData(cfg, s, t); }
      case DropReader(t) => if p.Promoted? { DropData(cfg, s, t); }
      case PopVictim(t) => if p.Evicting? { PopData(cfg, s, t); }
    }
  }

  lemma WriterKeepsData(cfg: Config, s: State, step: Step)
    requires cfg.Valid() && FineInv(cfg, s) && DataInv(cfg, s) && !s.aborted
    requires WriterStep(step) && PublishesIntact(cfg, s, step)
    ensures DataInv(cfg, Apply(cfg, s, step))
  {
    var p := At(s.threads, step.t);
    assert PhaseOk(cfg, s.zsm, s.disk, s.lastGen, p);
    match step {
      case Allocate(t, ok) => if p.Allocating? { AllocateData(cfg, s, t, ok); }
      case Commit(t, ok) => if p.Written? { CommitData(cfg, s, t, ok); }
      case ReturnZone(t, ok) => if p.Written? { GiveBackData(cfg, s, t, ok); }
      case ListZone(t) => if p.Returned? { ListData(cfg, s, t); }
      case InsertEntry(t) => if p.Listed? { PublishExactly(cfg, s, t); }
      case UndoZone(t) => if p.Undoing? { UndoData(cfg, s, t); }
      case FailEntry(t) => if p.Failing? { FailData(cfg, s, t); }
    }
  }

  lemma WakeData(cfg: Config, s: State, t: Tid)
    requires DataInv(cfg, s) && At(s.threads, t).Waiting?
    ensures DataInv(cfg, WakeUp(s, t, At(s.threads, t).cond))
  {
    var s' := WakeUp(s, t, At(s.threads, t).cond);
    assert s.threads[t := At(s.threads, t)] == s.threads;
    QuietStep(cfg, s, s', t, At(s.threads, t));
  }

  lemma PromoteData(cfg: Config, s: State, t: Tid)
    requires FineInv(cfg, s) && DataInv(cfg, s) && At(s.threads, t).HaveRead?
    ensures DataInv(cfg, PromoteZone(s, t, cfg, At(s.threads, t)))
  {
    PromoteKeeps(cfg, s, t);
    var p, s' := At(s.threads, t), PromoteZone(s, t, cfg, At(s.threads, t));
    assert PhaseOk(cfg, s.zsm, s.disk, s.lastGen, p) && ReadsIn(s.threads, t, p.loc.zone);
    QuietStep(cfg, s, s', t, At(s'.threads, t));
  }

  lemma DropData(cfg: Config, s: State, t: Tid)
    requires FineInv(cfg, s) && DataInv(cfg, s) && At(s.threads, t).Promoted?
    ensures DataInv(cfg, Drop(s, t, At(s.threads, t)))
  {
    DropKeeps(cfg, s, t);
    assert PhaseOk(cfg, s.zsm, s.disk, s.lastGen, At(s.threads, t));
    QuietStep(cfg, s, Drop(s, t, At(s.threads, t)), t, Idle);
  }

  lemma PopData(cfg: Config, s: State, t: Tid)
    requires DataInv(cfg, s) && At(s.threads, t).Evicting?
    ensures DataInv(cfg, Pop(s, t, At(s.threads, t).back))
  {
    var s' := Pop(s, t, At(s.threads, t).back);
    QuietStep(cfg, s, s', t, At(s'.threads, t));
  }

  lemma MoverKeepsData(cfg: Config, s: State, step: Step)
    requires FineInv(cfg, s) && DataInv(cfg, s) && !s.aborted && MoverStep(step)
    ensures DataInv(cfg, Apply(cfg, s, step))
  {
    var s' := Apply(cfg, s, step);
    var t, p := step.t, At(s.threads, step.t);
    assert PhaseOk(cfg, s.zsm, s.disk, s.lastGen, p);
    if s' == s {
    } else if step.Generate? {
      GenerateData(cfg, s, t, At(s'.threads, t).data);
    } else if step.Scribble? {
      assert s.threads[t := p] == s.threads;
      WriteData(cfg, s, s', t, p, step.junk);
    } else if step.WriteDisk? && step.ok {
      WriteData(cfg, s, s', t, At(s'.threads, t), p.data);
    } else if step.PassDrain? {
      DrainData(cfg, s, t);
    } else {
      assert p.Reading? ==> ReadsIn(s.threads, t, p.loc.zone);
      QuietStep(cfg, s, s', t, At(s'.threads, t));
    }
  }

  lemma StepKeepsData(cfg: Config, s: State, step: Step)
    requires cfg.Valid() && FineInv(cfg, s) && DataInv(cfg, s) && PublishesIntact(cfg, s, step)
    ensures DataInv(cfg, Apply(cfg, s, step))
  {
    var p := At(s.threads, step.t);
    if s.aborted {
    } else if ReaderStep(step) {
      ReaderKeepsData(cfg, s, step);
    } else if WriterStep(step) {
      WriterKeepsData(cfg, s, step);
    } else if MoverStep(step) {
      MoverKeepsData(cfg, s, step);
    } else if step.ClearZone? && p.Clearing? {
      ClearData(cfg, s, step.t);
    } else if step.ResetZone? && p.Resetting? {
      ResetData(cfg, s, step.t, step.ok);
    }
  }

  lemma {:induction false} IntactRunKeepsData(cfg: Config, steps: seq<Step>)
    requires cfg.Valid() && IntactRun(cfg, steps)
    ensures DataInv(cfg, Exec(cfg, steps))
  {
    if steps == [] {
      InitData(cfg);
    } else {
      var before := steps[..|steps| - 1];
      IntactPrefix(cfg, steps);
      IntactRunKeepsData(cfg, before);
      FineRun(cfg, before);
      StepKeepsData(cfg, Exec(cfg, before), steps[|steps| - 1]);
    }
  }

  /** In every run that publishes only intact chunks, with any number of readers, writers and evictors
      and whatever the device does, every request answered from the cache returned the bytes last
      generated for its identifier when it was looked up. */
  lemma HitsReturnLastGenerated(cfg: Config, steps: seq<Step>, i: nat)
    requires cfg.Valid() && IntactRun(cfg, steps) && i < |Exec(cfg, steps).hits|
    ensures Exec(cfg, steps).hits[i].data == Exec(cfg, steps).hits[i].promised
  {
    IntactRunKeepsData(cfg, steps);
  }

  /** In such a run, from the lookup to the decrement the reader's chunk holds what it was promised,
      also when its zone has been cleared meanwhile, so a read that takes several commands is not torn. */
  lemma ReaderSeesPromise(cfg: Config, steps: seq<Step>, t: Tid)
    requires cfg.Valid() && IntactRun(cfg, steps)
    requires var p := At(Exec(cfg, steps).threads, t); p.Reading? || p.HaveRead? || p.Promoted?
    ensures var s := Exec(cfg, steps);
            Peek(s.disk, At(s.threads, t).loc) == At(s.threads, t).promised
  {
    IntactRunKeepsData(cfg, steps);
    var s := Exec(cfg, steps);
    assert PhaseOk(cfg, s.zsm, s.disk, s.lastGen, At(s.threads, t));
  }

  /** In such a run what the map locates is on the disk as it was last generated. */
  lemma MapTellsTheTruth(cfg: Config, steps: seq<Step>, id: Id, loc: Loc)
    requires cfg.Valid() && IntactRun(cfg, steps) && IsLocated(Exec(cfg, steps).cm, id, loc)
    ensures var s := Exec(cfg, steps);
            LastIs(s.lastGen, id, Peek(s.disk, loc)) && HasData(cfg, s.zsm, loc) && Indexed(s.cm, loc, id)
  {
    IntactRunKeepsData(cfg, steps);
    assert Indexed(Exec(cfg, steps).cm, loc, id);
  }

  /** The reader count of a zone is the number of threads between lookup and decrement on it. */
  lemma ReadersAreCounted(cfg: Config, steps: seq<Step>, z: nat)
    requires cfg.Valid() && z < cfg.numZones
    ensures var s := Exec(cfg, steps);
            z < |s.cm.readers| && s.cm.readers[z] == |ReadersOf(s.threads, z)|
  {
    FineRun(cfg, steps);
  }

  /** In such a run nothing is located in a zone between its clearing and its reset, and no thread
      becomes a reader of it. */
  lemma ClearedStaysCleared(cfg: Config, steps: seq<Step>, step: Step, t: Tid, z: nat)
    requires cfg.Valid() && IntactRun(cfg, steps)
    requires IsCleared(Exec(cfg, steps).threads, t, z)
    ensures forall id: Id, c: nat :: !IsLocated(Exec(cfg, steps).cm, id, Loc(z, c))
    ensures ReadersOf(Apply(cfg, Exec(cfg, steps), step).threads, z) <= ReadersOf(Exec(cfg, steps).threads, z)
  {
    IntactRunKeepsData(cfg, steps);
    var s := Exec(cfg, steps);
    assert forall id: Id, c: nat :: IsLocated(s.cm, id, Loc(z, c)) ==> Indexed(s.cm, Loc(z, c), id);
    NewReaderFoundEntry(cfg, s, step, z);
  }

  /** A thread becomes a reader of a zone only by finding an entry located in it. */
  lemma NewReaderFoundEntry(cfg: Config, s: State, step: Step, z: nat)
    requires forall id: Id, c: nat :: !IsLocated(s.cm, id, Loc(z, c))
    ensures ReadersOf(Apply(cfg, s, step).threads, z) <= ReadersOf(s.threads, z)
  {
    var s' := Apply(cfg, s, step);
    var t, p := step.t, At(s.threads, step.t);
    if step.LookupStep? && p.Idle? && !s.aborted {
      LookUpReads(s, t, step.id, z);
    } else if step.Recheck? && p.Waiting? && p.cond in s.cm.conds && !s.aborted {
      var s1 := s.(cm := Release(s.cm, p.cond));
      assert forall id: Id, c: nat :: IsLocated(s1.cm, id, Loc(z, c)) ==> IsLocated(s.cm, id, Loc(z, c));
      LookUpReads(s1, t, p.id, z);
    } else {
      OthersFindNothing(cfg, s, step);
    }
  }

  lemma LookUpReads(s: State, t: Tid, id: Id, z: nat)
    requires forall i: Id, c: nat :: !IsLocated(s.cm, i, Loc(z, c))
    ensures ReadersOf(LookUp(s, t, id).threads, z) <= ReadersOf(s.threads, z)
  {
    var s' := LookUp(s, t, id);
    if id in s.cm.zoneMap && s.cm.zoneMap[id].Located? {
      var loc := s.cm.zoneMap[id].loc;
      assert IsLocated(s.cm, id, Loc(loc.zone, loc.chunk));
    }
  }

  lemma OthersFindNothing(cfg: Config, s: State, step: Step)
    requires !(step.LookupStep? && At(s.threads, step.t).Idle? && !s.aborted)
    requires !(step.Recheck? && At(s.threads, step.t).Waiting? && At(s.threads, step.t).cond in s.cm.conds &&
               !s.aborted)
    ensures forall z: nat :: ReadersOf(Apply(cfg, s, step).threads, z) <= ReadersOf(s.threads, z)
  {
    var s' := Apply(cfg, s, step);
    OneMoves(cfg, s, step);
    forall z: nat, u | u in ReadersOf(s'.threads, z)
      ensures u in ReadersOf(s.threads, z)
    {
      assert ReadsIn(s'.threads, u, z);
      assert ReadsIn(s.threads, u, z);
    }
  }

  /** Apart from the lookup, a step counts its thread where it was counted before, or nowhere. */
  predicate CountedFalls(p: Phase, p': Phase) {
    Counted(p') == Counted(p) || Counted(p') == None
  }

  lemma OneMoves(cfg: Config, s: State, step: Step)
    requires !(step.LookupStep? && At(s.threads, step.t).Idle? && !s.aborted)
    requires !(step.Recheck? && At(s.threads, step.t).Waiting? && At(s.threads, step.t).cond in s.cm.conds &&
               !s.aborted)
    ensures var s' := Apply(cfg, s, step);
            && (forall u: Tid :: u != step.t ==> At(s'.threads, u) == At(s.threads, u))
            && CountedFalls(At(s.threads, step.t), At(s'.threads, step.t))
  {
    OthersStayPut(cfg, s, step);
    if StartingStep(step) || WriteStep(step) {
      StartingUncounts(cfg, s, step);
    } else if HandBackStep(step) {
      HandBackUncounts(cfg, s, step);
    } else if EndingStep(step) {
      EndingUncounts(cfg, s, step);
    } else if EvictorStep(step) {
      EvictorUncounts(cfg, s, step);
    }
  }

  lemma StartingUncounts(cfg: Config, s: State, step: Step)
    requires StartingStep(step) || WriteStep(step)
    ensures CountedFalls(At(s.threads, step.t), At(Apply(cfg, s, step).threads, step.t))
  {
  }

  lemma HandBackUncounts(cfg: Config, s: State, step: Step)
    requires HandBackStep(step)
    ensures CountedFalls(At(s.threads, step.t), At(Apply(cfg, s, step).threads, step.t))
  {
  }

  lemma EndingUncounts(cfg: Config, s: State, step: Step)
    requires EndingStep(step)
    ensures CountedFalls(At(s.threads, step.t), At(Apply(cfg, s, step).threads, step.t))
  {
  }

  lemma EvictorUncounts(cfg: Config, s: State, step: Step)
    requires EvictorStep(step)
    ensures CountedFalls(At(s.threads, step.t), At(Apply(cfg, s, step).threads, step.t))
  {
  }

  /** In such a run no thread reads a zone when it is reset, and nothing is located in it. */
  lemma ResetFindsNoReader(cfg: Config, steps: seq<Step>, t: Tid)
    requires cfg.Valid() && IntactRun(cfg, steps) && At(Exec(cfg, steps).threads, t).Resetting?
    ensures var s := Exec(cfg, steps);
            var z := At(s.threads, t).zone;
            && ReadersOf(s.threads, z) == {} && z < |s.cm.readers| && s.cm.readers[z] == 0
            && forall id: Id, c: nat :: !IsLocated(s.cm, id, Loc(z, c))
  {
    var z := At(Exec(cfg, steps).threads, t).zone;
    ResettingInRange(cfg, steps, t);
    ReadersAreCounted(cfg, steps, z);
    IntactRunKeepsData(cfg, steps);
    NoReaderAtReset(Exec(cfg, steps).threads, t);
    ClearedStaysCleared(cfg, steps, StartEvict(t), t, z);
  }

  lemma ResettingInRange(cfg: Config, steps: seq<Step>, t: Tid)
    requires cfg.Valid() && At(Exec(cfg, steps).threads, t).Resetting?
    ensures At(Exec(cfg, steps).threads, t).zone < cfg.numZones
  {
    FineRun(cfg, steps);
    assert HasToken(cfg, Exec(cfg, steps).threads, t, At(Exec(cfg, steps).threads, t).zone);
  }

  lemma NoReaderAtReset(th: map<Tid, Phase>, t: Tid)
    requires NoReset(th) && At(th, t).Resetting?
    ensures ReadersOf(th, At(th, t).zone) == {}
  {
    var z := At(th, t).zone;
    assert IsResetting(th, t, z);
    assert forall u: Tid :: u in ReadersOf(th, z) ==> ReadsIn(th, u, z);
  }
}
