/** Theorems about every run, however its steps interleave: the tail of a miss may be cut into its
    three critical sections and, unless a theorem says otherwise, the device may fail. */
module FineRuns {
  import opened ZnTypes
  import opened Protocol
  import opened L = Lru
  import opened Z = ZoneState
  import opened C = CacheMap
  import opened ZoneOwnership
  import opened FillOwnership
  import opened Interleavings

  lemma InitFine(cfg: Config)
    ensures FineInv(cfg, Protocol.Init(cfg))
  {
    var s := Protocol.Init(cfg);
    InitInv(cfg);
    assert forall z: nat :: !IsBeingWritten(cfg, s.zsm, z) && !Sealed(cfg, s.zsm, z);
    assert forall z: nat :: Holders(map[], OnZone(z)) == {};
  }

  /** Steps that change the lookup side of the map or the order of the zones. */
  predicate ReaderStep(step: Step) {
    step.LookupStep? || step.SpuriousWake? || step.Recheck? || step.Promote? || step.DropReader? || step.PopVictim?
  }

  /** Steps of a fill that change more than where its thread is. */
  predicate WriterStep(step: Step) {
    step.Allocate? || step.UndoZone? || step.FailEntry? ||
    step.Commit? || step.ReturnZone? || step.ListZone? || step.InsertEntry?
  }

  predicate VictimStep(step: Step) {
    step.ClearZone? || step.ResetZone?
  }

  lemma ReaderKeeps(cfg: Config, s: State, step: Step)
    requires FineInv(cfg, s) && !s.aborted && ReaderStep(step)
    ensures FineInv(cfg, Apply(cfg, s, step)) && !Apply(cfg, s, step).aborted
  {
    var p := At(s.threads, step.t);
    match step {
      case LookupStep(t, id) => if p.Idle? { LookUpKeeps(cfg, s, t, id); }
      case SpuriousWake(t) => if p.Waiting? { WakeUpKeeps(cfg, s, t, p.cond); }
      case Recheck(t) => if Apply(cfg, s, step) != s { ReLookUpKeeps(cfg, s, t, p.id, p.cond); }
      case Promote(t) => if p.HaveRead? { PromoteKeeps(cfg, s, t); }
      case DropReader(t) => if p.Promoted? { DropKeeps(cfg, s, t); }
      case PopVictim(t) => if p.Evicting? { PopKeeps(cfg, s, t); }
    }
  }

  lemma WriterKeeps(cfg: Config, s: State, step: Step)
    requires cfg.Valid() && FineInv(cfg, s) && !s.aborted && WriterStep(step)
    ensures FineInv(cfg, Apply(cfg, s, step)) && !Apply(cfg, s, step).aborted
  {
    var p := At(s.threads, step.t);
    match step {
      case Allocate(t, ok) => if p.Allocating? { AllocateKeeps(cfg, s, t, ok); }
      case Commit(t, ok) => if p.Written? { CommitStepKeeps(cfg, s, t, ok); }
      case ReturnZone(t, ok) => if p.Written? { GiveBackKeeps(cfg, s, t, ok); }
      case ListZone(t) => if p.Returned? { ListKeeps(cfg, s, t); }
      case InsertEntry(t) => if p.Listed? { PublishKeeps(cfg, s, t); }
      case UndoZone(t) => if p.Undoing? { UndoStepKeeps(cfg, s, t); }
      case FailEntry(t) => if p.Failing? { FailStepKeeps(cfg, s, t); }
    }
  }

  lemma ClearStepKeeps(cfg: Config, s: State, step: Step)
    requires FineInv(cfg, s) && !s.aborted && step.ClearZone?
    ensures FineInv(cfg, Apply(cfg, s, step)) && (SmallMap(s) ==> !Apply(cfg, s, step).aborted)
  {
    if At(s.threads, step.t).Clearing? {
      ClearKeeps(cfg, s, step.t);
      ClearableZone(cfg, s, step.t);
    }
  }

  lemma ResetStepKeeps(cfg: Config, s: State, step: Step)
    requires FineInv(cfg, s) && !s.aborted && step.ResetZone?
    ensures FineInv(cfg, Apply(cfg, s, step))
  {
    if At(s.threads, step.t).Resetting? {
      ResetKeeps(cfg, s, step.t, step.ok);
    }
  }

  lemma ResetPasses(cfg: Config, s: State, step: Step)
    requires FineInv(cfg, s) && !s.aborted && step.ResetZone? && DeviceStep(cfg, step) && NoneLost(cfg, s.zsm)
    ensures !Apply(cfg, s, step).aborted
  {
    if At(s.threads, step.t).Resetting? {
      VictimIsFull(cfg, s, step.t);
    }
  }

  lemma VictimKeeps(cfg: Config, s: State, step: Step)
    requires FineInv(cfg, s) && !s.aborted && VictimStep(step)
    ensures FineInv(cfg, Apply(cfg, s, step))
    ensures DeviceStep(cfg, step) && NoneLost(cfg, s.zsm) && SmallMap(s) ==> !Apply(cfg, s, step).aborted
  {
    match step {
      case ClearZone(_) => ClearStepKeeps(cfg, s, step);
      case ResetZone(_, _) =>
        ResetStepKeeps(cfg, s, step);
        if DeviceStep(cfg, step) && NoneLost(cfg, s.zsm) {
          ResetPasses(cfg, s, step);
        }
    }
  }

  predicate MoverStep(step: Step) {
    !ReaderStep(step) && !WriterStep(step) && !VictimStep(step)
  }

  /** The remaining steps at most move their thread and touch the disk or the run's records. */
  lemma MoverMoves(cfg: Config, s: State, step: Step)
    requires !s.aborted && MoverStep(step)
    ensures var s' := Apply(cfg, s, step);
            && !s'.aborted && s'.zsm == s.zsm && s'.lru == s.lru && s'.uses == s.uses && s'.cm == s.cm
            && (s'.threads != s.threads ==> s'.threads == s.threads[step.t := At(s'.threads, step.t)])
  {
  }

  lemma MoverHolds(cfg: Config, s: State, step: Step)
    requires !s.aborted && MoverStep(step)
    ensures var p, p' := At(s.threads, step.t), At(Apply(cfg, s, step).threads, step.t);
            Apply(cfg, s, step).threads != s.threads ==> SameZones(cfg, p, p') && SameCounts(p, p')
  {
  }

  lemma MoverKeeps(cfg: Config, s: State, step: Step)
    requires FineInv(cfg, s) && !s.aborted && MoverStep(step)
    ensures FineInv(cfg, Apply(cfg, s, step)) && !Apply(cfg, s, step).aborted
  {
    MoverMoves(cfg, s, step);
    MoverHolds(cfg, s, step);
    var s' := Apply(cfg, s, step);
    if s'.threads != s.threads {
      JustMove(cfg, s, s', step.t, At(s'.threads, step.t));
    }
  }

  /** Every identifier in the map fits in an `int`. */
  ghost predicate SmallMap(s: State) {
    && (forall k :: k in s.cm.zoneMap ==> k < HALF_WORD)
    && (forall t: Tid :: SmallWait(At(s.threads, t)))
  }

  predicate SmallWait(p: Phase) {
    p.Waiting? ==> p.id < HALF_WORD
  }

  /** With small identifiers the assertions of clearing a zone hold. */
  lemma ClearableZone(cfg: Config, s: State, t: Tid)
    requires FineInv(cfg, s) && At(s.threads, t).Clearing?
    ensures SmallMap(s) ==> ClearZoneOk(s.cm, At(s.threads, t).zone)
  {
    var z := At(s.threads, t).zone;
    assert HasToken(cfg, s.threads, t, z);
    forall c | c in s.cm.dataMap[z] && SmallMap(s)
      ensures ClearableAt(s.cm, z, c)
    {
      assert IsLocated(s.cm, s.cm.dataMap[z][c], Loc(z, c)) by {
        assert Indexed(s.cm, Loc(z, c), s.cm.dataMap[z][c]);
      }
    }
  }

  /** The zone an evictor answers for is full, unless the device failed to finish it. */
  lemma VictimIsFull(cfg: Config, s: State, t: Tid)
    requires FineInv(cfg, s) && Token(cfg, At(s.threads, t)).Some?
    ensures NoneLost(cfg, s.zsm) ==> HasCond(s.zsm, Token(cfg, At(s.threads, t)).value, Full)
  {
    var z := Token(cfg, At(s.threads, t)).value;
    assert HasToken(cfg, s.threads, t, z);
    AtMostOnePlace(cfg, s.zsm, z);
  }

  lemma StepKeepsFine(cfg: Config, s: State, step: Step)
    requires cfg.Valid() && FineInv(cfg, s)
    ensures FineInv(cfg, Apply(cfg, s, step))
    ensures !s.aborted && DeviceStep(cfg, step) && NoneLost(cfg, s.zsm) && SmallMap(s) ==>
              !Apply(cfg, s, step).aborted
  {
    if !s.aborted {
      if ReaderStep(step) { ReaderKeeps(cfg, s, step); }
      else if WriterStep(step) { WriterKeeps(cfg, s, step); }
      else if VictimStep(step) { VictimKeeps(cfg, s, step); }
      else { MoverKeeps(cfg, s, step); }
    }
  }

  lemma {:induction false} FineRun(cfg: Config, steps: seq<Step>)
    requires cfg.Valid()
    ensures FineInv(cfg, Exec(cfg, steps))
  {
    if steps == [] {
      InitFine(cfg);
    } else {
      FineRun(cfg, steps[..|steps| - 1]);
      StepKeepsFine(cfg, Exec(cfg, steps[..|steps| - 1]), steps[|steps| - 1]);
    }
  }

  // ---------- Identifiers ----------

  /** An identifier is pending exactly while one thread has its fill to finish. */
  lemma OneFillerPerId(cfg: Config, steps: seq<Step>, id: Id)
    requires cfg.Valid()
    ensures var s := Exec(cfg, steps);
            && (IsPending(s.cm, id) <==> exists t :: FillsId(s.threads, t, id))
            && (forall t, u :: FillsId(s.threads, t, id) && FillsId(s.threads, u, id) ==> t == u)
  {
    FineRun(cfg, steps);
    var s := Exec(cfg, steps);
    if IsPending(s.cm, id) {
      assert FillsId(s.threads, s.cm.conds[s.cm.zoneMap[id].cond].owner, id);
    }
  }

  /** A sleeper waits for a fill that is under way, in another thread that will wake it. */
  lemma NoLostWakeup(cfg: Config, steps: seq<Step>, t: Tid, c: nat)
    requires cfg.Valid()
    requires Asleep(Exec(cfg, steps).cm, t, c)
    ensures var s := Exec(cfg, steps);
            && At(s.threads, t).Waiting? && At(s.threads, t).cond == c
            && IsPending(s.cm, At(s.threads, t).id) && s.cm.zoneMap[At(s.threads, t).id].cond == c
            && exists u :: u != t && FillsId(s.threads, u, At(s.threads, t).id)
  {
    FineRun(cfg, steps);
    var s := Exec(cfg, steps);
    assert Current(s.cm, c) && WaitsOn(s.threads, t, c);
    assert FillsId(s.threads, s.cm.conds[c].owner, At(s.threads, t).id);
  }

  /** A condition variable exists exactly while a thread waits on it or a fill is pending on it,
      and its count is the number of those. */
  lemma ConditionLifetime(cfg: Config, steps: seq<Step>, c: nat)
    requires cfg.Valid()
    ensures var s := Exec(cfg, steps);
            && (c in s.cm.conds ==>
                  s.cm.conds[c].refs == |WaitersOn(s.threads, c)| + if Current(s.cm, c) then 1 else 0)
            && (c in s.cm.conds <==>
                  WaitersOn(s.threads, c) != {} || exists id: Id :: IsPending(s.cm, id) && s.cm.zoneMap[id].cond == c)
  {
    FineRun(cfg, steps);
    var s := Exec(cfg, steps);
    if t :| t in WaitersOn(s.threads, c) {
      assert WaitsOn(s.threads, t, c);
    }
    if c in s.cm.conds && Current(s.cm, c) {
      assert IsPending(s.cm, s.cm.conds[c].id);
    }
  }

  predicate MapStep(step: Step) {
    step.LookupStep? || step.SpuriousWake? || step.Recheck? || step.DropReader? || step.Commit? ||
    step.InsertEntry? || step.FailEntry? || step.ClearZone?
  }

  lemma OtherStepsKeepMap(cfg: Config, s: State, step: Step)
    requires !MapStep(step)
    ensures Apply(cfg, s, step).cm == s.cm
  {
  }

  /** No step brings back a condition variable that was freed. */
  lemma StepMakesNewConds(cfg: Config, s: State, step: Step, c: nat)
    requires c < s.cm.nextCond && c !in s.cm.conds
    ensures c < Apply(cfg, s, step).cm.nextCond && c !in Apply(cfg, s, step).cm.conds
  {
    if step.LookupStep? || step.SpuriousWake? {
      FindingMakesNewConds(cfg, s, step, c);
    } else if step.Recheck? {
      RecheckMakesNewConds(cfg, s, step, c);
    } else if MapStep(step) {
      EndingMakesNewConds(cfg, s, step, c);
    } else {
      OtherStepsKeepMap(cfg, s, step);
    }
  }

  lemma FindingMakesNewConds(cfg: Config, s: State, step: Step, c: nat)
    requires (step.LookupStep? || step.SpuriousWake?) && c < s.cm.nextCond && c !in s.cm.conds
    ensures c < Apply(cfg, s, step).cm.nextCond && c !in Apply(cfg, s, step).cm.conds
  {
  }

  lemma RecheckMakesNewConds(cfg: Config, s: State, step: Step, c: nat)
    requires step.Recheck? && c < s.cm.nextCond && c !in s.cm.conds
    ensures c < Apply(cfg, s, step).cm.nextCond && c !in Apply(cfg, s, step).cm.conds
  {
  }

  lemma EndingMakesNewConds(cfg: Config, s: State, step: Step, c: nat)
    requires step.DropReader? || step.Commit? || step.InsertEntry? || step.FailEntry? || step.ClearZone?
    requires c < s.cm.nextCond && c !in s.cm.conds
    ensures c < Apply(cfg, s, step).cm.nextCond && c !in Apply(cfg, s, step).cm.conds
  {
    if step.Commit? {
      CommitMakesNewConds(cfg, s, step, c);
    } else if step.InsertEntry? || step.FailEntry? {
      LeavingMakesNewConds(cfg, s, step, c);
    }
  }

  lemma CommitMakesNewConds(cfg: Config, s: State, step: Step, c: nat)
    requires step.Commit? && c < s.cm.nextCond && c !in s.cm.conds
    ensures c < Apply(cfg, s, step).cm.nextCond && c !in Apply(cfg, s, step).cm.conds
  {
  }

  lemma LeavingMakesNewConds(cfg: Config, s: State, step: Step, c: nat)
    requires (step.InsertEntry? || step.FailEntry?) && c < s.cm.nextCond && c !in s.cm.conds
    ensures c < Apply(cfg, s, step).cm.nextCond && c !in Apply(cfg, s, step).cm.conds
  {
  }

  lemma {:induction false} FreedForGood(cfg: Config, steps: seq<Step>, more: seq<Step>, c: nat)
    requires c < Exec(cfg, steps).cm.nextCond && c !in Exec(cfg, steps).cm.conds
    ensures c < Exec(cfg, steps + more).cm.nextCond && c !in Exec(cfg, steps + more).cm.conds
  {
    if more == [] {
      assert steps + more == steps;
    } else {
      var before := more[..|more| - 1];
      FreedForGood(cfg, steps, before, c);
      assert (steps + more)[..|steps + more| - 1] == steps + before;
      StepMakesNewConds(cfg, Exec(cfg, steps + before), more[|more| - 1], c);
    }
  }

  /** The step waits on the condition variable, takes or gives up a reference to it, or signals it. */
  predicate Touches(s: State, step: Step, c: nat) {
    var p := At(s.threads, step.t);
    || (p.Waiting? && p.cond == c)
    || (step.LookupStep? && LeadsTo(s.cm, step.id, c))
    || (Fills(p).Some? && LeadsTo(s.cm, Fills(p).value, c))
  }

  predicate LeadsTo(cm: CMap, id: Id, c: nat) {
    id in cm.zoneMap && cm.zoneMap[id] == Pending(c)
  }

  /** In no continuation of a run does a step wait on, signal or release a condition variable that
      was freed. */
  lemma NoUseAfterFree(cfg: Config, steps: seq<Step>, more: seq<Step>, step: Step, c: nat)
    requires cfg.Valid() && c < Exec(cfg, steps).cm.nextCond && c !in Exec(cfg, steps).cm.conds
    ensures !Touches(Exec(cfg, steps + more), step, c)
  {
    FreedForGood(cfg, steps, more, c);
    FineRun(cfg, steps + more);
    GoneUntouched(cfg, Exec(cfg, steps + more), step, c);
  }

  lemma GoneUntouched(cfg: Config, s: State, step: Step, c: nat)
    requires FineInv(cfg, s) && c !in s.cm.conds
    ensures !Touches(s, step, c)
  {
    assert WaitsOn(s.threads, step.t, c) ==> c in s.cm.conds;
    assert forall id: Id :: LeadsTo(s.cm, id, c) ==> IsPending(s.cm, id);
  }

  // ---------- Zones ----------

  /** The queues list the zones in their condition, the cap on open zones holds, and a zone being
      written belongs to one thread. */
  lemma ZonePartition(cfg: Config, steps: seq<Step>, z: nat)
    requires cfg.Valid()
    ensures var s := Exec(cfg, steps);
            && |s.zsm.active| + s.zsm.writes <= cfg.maxActive
            && (z in s.zsm.active <==> HasCond(s.zsm, z, Active))
            && (z in s.zsm.free ==> HasCond(s.zsm, z, Free))
            && NoDup(s.zsm.active) && NoDup(s.zsm.free)
            && (IsBeingWritten(cfg, s.zsm, z) <==> exists t :: HoldsZone(s.threads, t, z))
            && (forall t, u :: HoldsZone(s.threads, t, z) && HoldsZone(s.threads, u, z) ==> t == u)
  {
    FineRun(cfg, steps);
  }

  /** Steps that call the zone state manager. */
  predicate ZoneStep(step: Step) {
    step.Allocate? || step.Commit? || step.ReturnZone? || step.UndoZone? || step.ResetZone?
  }

  lemma OtherStepsKeepZones(cfg: Config, s: State, step: Step)
    requires !ZoneStep(step)
    ensures Apply(cfg, s, step).zsm == s.zsm
  {
  }

  lemma StepKeepsZones(cfg: Config, s: State, step: Step)
    requires cfg.Valid() && FineInv(cfg, s) && NoneLost(cfg, s.zsm) && DeviceStep(cfg, step)
    ensures NoneLost(cfg, Apply(cfg, s, step).zsm)
  {
    var t, p := step.t, At(s.threads, step.t);
    if Holds(p).Some? {
      assert HoldsZone(s.threads, t, Holds(p).value.zone);
    }
    if !ZoneStep(step) {
      OtherStepsKeepZones(cfg, s, step);
    } else if step.Allocate? {
      GetActiveInv(cfg, s.zsm, step.ok);
    } else if (step.Commit? || step.ReturnZone?) && p.Written? {
      ReturnActiveInv(cfg, s.zsm, p.loc, step.ok);
    } else if step.UndoZone? && p.Undoing? {
      FailedToWriteInv(cfg, s.zsm, p.loc);
    } else if step.ResetZone? && p.Resetting? && HasCond(s.zsm, p.zone, Full) {
      EvictZoneInv(cfg, s.zsm, p.zone);
    }
  }

  lemma {:induction false} DeviceRun(cfg: Config, steps: seq<Step>)
    requires cfg.Valid() && DeviceSucceeds(cfg, steps)
    ensures NoneLost(cfg, Exec(cfg, steps).zsm)
  {
    if steps == [] {
      InitInv(cfg);
    } else {
      FineRun(cfg, steps[..|steps| - 1]);
      DeviceRun(cfg, steps[..|steps| - 1]);
      StepKeepsZones(cfg, Exec(cfg, steps[..|steps| - 1]), steps[|steps| - 1]);
    }
  }

  /** While zone commands succeed every zone is in exactly one place, and a full one is either in
      the policy's queue or with one thread that will put it there or reset it. */
  lemma NoZoneLost(cfg: Config, steps: seq<Step>, z: nat)
    requires cfg.Valid() && DeviceSucceeds(cfg, steps) && z < cfg.numZones
    ensures var s := Exec(cfg, steps);
            multiset{z in s.zsm.free, z in s.zsm.active, exists t :: HoldsZone(s.threads, t, z),
                     InQueue(s.lru, z), exists t :: HasToken(cfg, s.threads, t, z)}[true] == 1
  {
    FineRun(cfg, steps);
    DeviceRun(cfg, steps);
    var s := Exec(cfg, steps);
    AtMostOnePlace(cfg, s.zsm, z);
    assert IsBeingWritten(cfg, s.zsm, z) <==> exists t :: HoldsZone(s.threads, t, z);
  }

  /** While zone commands succeed the policy's queue names full zones only, and none of them twice. */
  lemma QueuedZonesAreFull(cfg: Config, steps: seq<Step>)
    requires cfg.Valid() && DeviceSucceeds(cfg, steps)
    ensures var s := Exec(cfg, steps);
            && (forall z: nat :: InQueue(s.lru, z) ==> HasCond(s.zsm, z, Full))
            && NoDup(Keys(s.lru))
  {
    FineRun(cfg, steps);
    DeviceRun(cfg, steps);
    var s := Exec(cfg, steps);
    forall z: nat | InQueue(s.lru, z)
      ensures HasCond(s.zsm, z, Full)
    {
      AtMostOnePlace(cfg, s.zsm, z);
    }
  }

  /** A zone handed to an evictor and not yet reset is full, out of the queue, and that evictor's
      alone, however many evictors run. */
  lemma VictimOwnership(cfg: Config, steps: seq<Step>, t: Tid, z: nat)
    requires cfg.Valid() && DeviceSucceeds(cfg, steps)
    requires HasToken(cfg, Exec(cfg, steps).threads, t, z)
    ensures var s := Exec(cfg, steps);
            && HasCond(s.zsm, z, Full) && !InQueue(s.lru, z)
            && forall u :: HasToken(cfg, s.threads, u, z) ==> u == t
  {
    FineRun(cfg, steps);
    DeviceRun(cfg, steps);
    VictimIsFull(cfg, Exec(cfg, steps), t);
  }

  // ---------- Zones the device fails to open or to finish ----------

  /** All chunks are written, but the zone was not finished. */
  predicate Unfinished(cfg: Config, zsm: Zsm, z: nat) {
    z < |zsm.zones| && zsm.zones[z] == Zone(WriteOccurring, cfg.maxChunks)
  }

  /** The zone is free but in no queue. */
  predicate Gone(zsm: Zsm, z: nat) {
    HasCond(zsm, z, Free) && z !in zsm.free
  }

  predicate IsLastOf(cfg: Config, loc: Loc, z: nat) {
    loc.zone == z && loc.chunk + 1 == cfg.maxChunks
  }

  /** The step hands back the zone's last chunk, and the device fails to finish the zone. */
  predicate FailsToFinish(cfg: Config, s: State, step: Step, z: nat) {
    && !s.aborted && (step.Commit? || step.ReturnZone?) && !cfg.DeviceOk(step.ok)
    && At(s.threads, step.t).Written? && IsLastOf(cfg, At(s.threads, step.t).loc, z)
  }

  /** The step takes the zone from the free queue, and the device fails to open it. */
  predicate FailsToOpen(cfg: Config, s: State, step: Step, z: nat) {
    && !s.aborted && step.Allocate? && !cfg.DeviceOk(step.ok) && At(s.threads, step.t).Allocating?
    && CanOpen(cfg, s.zsm) && s.zsm.free[0] == z
  }

  ghost predicate FinishFailed(cfg: Config, steps: seq<Step>, z: nat) {
    exists i: nat :: FinishFailsAt(cfg, steps, i, z)
  }

  ghost predicate FinishFailsAt(cfg: Config, steps: seq<Step>, i: nat, z: nat) {
    i < |steps| && FailsToFinish(cfg, Exec(cfg, steps[..i]), steps[i], z)
  }

  ghost predicate OpenFailed(cfg: Config, steps: seq<Step>, z: nat) {
    exists i: nat :: OpenFailsAt(cfg, steps, i, z)
  }

  ghost predicate OpenFailsAt(cfg: Config, steps: seq<Step>, i: nat, z: nat) {
    i < |steps| && FailsToOpen(cfg, Exec(cfg, steps[..i]), steps[i], z)
  }

  /** An allocation loses exactly the free zone it fails to open. */
  lemma AllocateFailures(cfg: Config, zsm: Zsm, ok: bool, z: nat)
    requires cfg.Valid() && Z.Inv(cfg, zsm)
    ensures GetActiveOk(cfg, zsm)
    ensures var zsm' := GetActive(cfg, zsm, ok).0;
            && (Unfinished(cfg, zsm', z) <==> Unfinished(cfg, zsm, z))
            && (Gone(zsm', z) <==> Gone(zsm, z) || (CanOpen(cfg, zsm) && !cfg.DeviceOk(ok) && zsm.free[0] == z))
  {
    GetActiveInv(cfg, zsm, ok);
    assert zsm.active != [] ==> zsm.active[0] in zsm.active;
    assert zsm.free != [] ==> zsm.free[0] in zsm.free;
    if zsm.free != [] {
      PopNoDup(zsm.free);
    }
    assert z < |zsm.zones| ==> OffsetOk(cfg, zsm.zones[z]);
  }

  lemma ReturnFailures(cfg: Config, s: State, t: Tid, ok: bool, z: nat)
    requires FineInv(cfg, s) && At(s.threads, t).Written?
    ensures var loc := At(s.threads, t).loc;
            && HandBackOk(cfg, s.zsm, loc)
            && (Unfinished(cfg, ReturnActive(cfg, s.zsm, loc, ok), z) <==>
                Unfinished(cfg, s.zsm, z) || (IsLastOf(cfg, loc, z) && !cfg.DeviceOk(ok)))
            && (Gone(ReturnActive(cfg, s.zsm, loc, ok), z) <==> Gone(s.zsm, z))
  {
    var loc := At(s.threads, t).loc;
    assert HoldsZone(s.threads, t, loc.zone);
    ReturnActiveInv(cfg, s.zsm, loc, ok);
  }

  lemma HandBackFailures(cfg: Config, s: State, step: Step, z: nat)
    requires FineInv(cfg, s) && (step.Commit? || step.ReturnZone?)
    ensures Unfinished(cfg, Apply(cfg, s, step).zsm, z) <==>
              Unfinished(cfg, s.zsm, z) || FailsToFinish(cfg, s, step, z)
    ensures Gone(Apply(cfg, s, step).zsm, z) <==> Gone(s.zsm, z)
  {
    if At(s.threads, step.t).Written? && !s.aborted {
      ReturnFailures(cfg, s, step.t, step.ok, z);
    }
  }

  lemma UndoFailures(cfg: Config, s: State, step: Step, z: nat)
    requires FineInv(cfg, s) && step.UndoZone?
    ensures Unfinished(cfg, Apply(cfg, s, step).zsm, z) <==> Unfinished(cfg, s.zsm, z)
    ensures Gone(Apply(cfg, s, step).zsm, z) <==> Gone(s.zsm, z)
  {
    var p := At(s.threads, step.t);
    if p.Undoing? {
      assert HoldsZone(s.threads, step.t, p.loc.zone);
    }
  }

  lemma ResetFailures(cfg: Config, s: State, step: Step, z: nat)
    requires FineInv(cfg, s) && step.ResetZone?
    ensures Unfinished(cfg, Apply(cfg, s, step).zsm, z) <==> Unfinished(cfg, s.zsm, z)
    ensures Gone(Apply(cfg, s, step).zsm, z) <==> Gone(s.zsm, z)
  {
  }

  lemma StepFailures(cfg: Config, s: State, step: Step, z: nat)
    requires cfg.Valid() && FineInv(cfg, s)
    ensures var zsm' := Apply(cfg, s, step).zsm;
            && (Unfinished(cfg, zsm', z) <==> Unfinished(cfg, s.zsm, z) || FailsToFinish(cfg, s, step, z))
            && (Gone(zsm', z) <==> Gone(s.zsm, z) || FailsToOpen(cfg, s, step, z))
  {
    if step.Allocate? {
      AllocateFailures(cfg, s.zsm, step.ok, z);
    } else if step.Commit? || step.ReturnZone? {
      HandBackFailures(cfg, s, step, z);
    } else if step.UndoZone? {
      UndoFailures(cfg, s, step, z);
    } else if step.ResetZone? {
      ResetFailures(cfg, s, step, z);
    } else {
      OtherStepsKeepZones(cfg, s, step);
    }
  }

  /** In any run, a zone is unfinished exactly if the device failed to finish it, and in no place at
      all exactly if the device failed to open it. */
  lemma {:induction false} FailuresExactly(cfg: Config, steps: seq<Step>, z: nat)
    requires cfg.Valid() && z < cfg.numZones
    ensures Unfinished(cfg, Exec(cfg, steps).zsm, z) <==> FinishFailed(cfg, steps, z)
    ensures Gone(Exec(cfg, steps).zsm, z) <==> OpenFailed(cfg, steps, z)
  {
    if steps == [] {
      InitInv(cfg);
      assert Exec(cfg, steps).zsm.free[z] == z;
    } else {
      var before, last := steps[..|steps| - 1], steps[|steps| - 1];
      FailuresExactly(cfg, before, z);
      FineRun(cfg, before);
      StepFailures(cfg, Exec(cfg, before), last, z);
      FinishFailedBefore(cfg, steps, z);
      OpenFailedBefore(cfg, steps, z);
    }
  }

  lemma FinishFailedBefore(cfg: Config, steps: seq<Step>, z: nat)
    requires steps != []
    ensures var before, last := steps[..|steps| - 1], steps[|steps| - 1];
            FinishFailed(cfg, steps, z) <==>
              FinishFailed(cfg, before, z) || FailsToFinish(cfg, Exec(cfg, before), last, z)
  {
    var before, n := steps[..|steps| - 1], |steps| - 1;
    forall i: nat
      ensures FinishFailsAt(cfg, steps, i, z) <==>
                FinishFailsAt(cfg, before, i, z) || (i == n && FailsToFinish(cfg, Exec(cfg, before), steps[n], z))
    {
      assert i < n ==> before[..i] == steps[..i];
    }
    if FailsToFinish(cfg, Exec(cfg, before), steps[n], z) {
      assert FinishFailsAt(cfg, steps, n, z);
    }
  }

  lemma OpenFailedBefore(cfg: Config, steps: seq<Step>, z: nat)
    requires steps != []
    ensures var before, last := steps[..|steps| - 1], steps[|steps| - 1];
            OpenFailed(cfg, steps, z) <==> OpenFailed(cfg, before, z) || FailsToOpen(cfg, Exec(cfg, before), last, z)
  {
    var before, n := steps[..|steps| - 1], |steps| - 1;
    forall i: nat
      ensures OpenFailsAt(cfg, steps, i, z) <==>
                OpenFailsAt(cfg, before, i, z) || (i == n && FailsToOpen(cfg, Exec(cfg, before), steps[n], z))
    {
      assert i < n ==> before[..i] == steps[..i];
    }
    if FailsToOpen(cfg, Exec(cfg, before), steps[n], z) {
      assert OpenFailsAt(cfg, steps, n, z);
    }
  }

  /** A zone an evictor is about to reset is full exactly if the device did not fail to finish it. */
  lemma VictimIsFullExactly(cfg: Config, steps: seq<Step>, t: Tid)
    requires cfg.Valid() && At(Exec(cfg, steps).threads, t).Resetting?
    ensures var z := At(Exec(cfg, steps).threads, t).zone;
            HasCond(Exec(cfg, steps).zsm, z, Full) <==> !FinishFailed(cfg, steps, z)
  {
    var z := At(Exec(cfg, steps).threads, t).zone;
    FineRun(cfg, steps);
    assert HasToken(cfg, Exec(cfg, steps).threads, t, z);
    FailuresExactly(cfg, steps, z);
  }

  // ---------- Assertions ----------

  lemma LookUpKeepsSmall(s: State, t: Tid, id: Id)
    requires SmallMap(s) && id < HALF_WORD
    ensures SmallMap(LookUp(s, t, id))
  {
    var s' := LookUp(s, t, id);
    assert forall u: Tid :: At(s'.threads, u) == At(s.threads, u) || (u == t && SmallWait(At(s'.threads, u)));
  }

  lemma StepKeepsSmall(cfg: Config, s: State, step: Step)
    requires SmallMap(s) && SmallIdStep(step)
    ensures SmallMap(Apply(cfg, s, step))
  {
    var t, s' := step.t, Apply(cfg, s, step);
    var p := At(s.threads, t);
    assert SmallWait(p);
    if step.LookupStep? && p.Idle? {
      LookUpKeepsSmall(s, t, step.id);
    } else if step.Recheck? && p.Waiting? && p.cond in s.cm.conds {
      LookUpKeepsSmall(s.(cm := Release(s.cm, p.cond)), t, p.id);
    } else {
      OtherStepsAddNoId(cfg, s, step);
    }
  }

  lemma OtherStepsAddNoId(cfg: Config, s: State, step: Step)
    requires !(step.LookupStep? && At(s.threads, step.t).Idle?)
    requires !(step.Recheck? && At(s.threads, step.t).Waiting? && At(s.threads, step.t).cond in s.cm.conds)
    ensures var s' := Apply(cfg, s, step);
            && (forall k :: k in s'.cm.zoneMap ==> k in s.cm.zoneMap)
            && (forall u: Tid :: u != step.t ==> At(s'.threads, u) == At(s.threads, u))
            && (At(s'.threads, step.t).Waiting? ==> At(s'.threads, step.t) == At(s.threads, step.t))
  {
    if MapStep(step) {
      MapStepsAddNoId(cfg, s, step);
    } else {
      OtherStepsKeepMap(cfg, s, step);
      OtherStepsDoNotWait(cfg, s, step);
    }
  }

  lemma MapStepsAddNoId(cfg: Config, s: State, step: Step)
    requires MapStep(step)
    requires !(step.LookupStep? && At(s.threads, step.t).Idle?)
    requires !(step.Recheck? && At(s.threads, step.t).Waiting? && At(s.threads, step.t).cond in s.cm.conds)
    ensures var s' := Apply(cfg, s, step);
            && (forall k :: k in s'.cm.zoneMap ==> k in s.cm.zoneMap)
            && (forall u: Tid :: u != step.t ==> At(s'.threads, u) == At(s.threads, u))
            && (At(s'.threads, step.t).Waiting? ==> At(s'.threads, step.t) == At(s.threads, step.t))
  {
    if step.Commit? || step.InsertEntry? {
      InsertsAddNoId(cfg, s, step);
    } else {
      RestAddsNoId(cfg, s, step);
    }
  }

  lemma InsertsAddNoId(cfg: Config, s: State, step: Step)
    requires step.Commit? || step.InsertEntry?
    ensures var s' := Apply(cfg, s, step);
            && (forall k :: k in s'.cm.zoneMap ==> k in s.cm.zoneMap)
            && (forall u: Tid :: u != step.t ==> At(s'.threads, u) == At(s.threads, u))
            && (At(s'.threads, step.t).Waiting? ==> At(s'.threads, step.t) == At(s.threads, step.t))
  {
  }

  lemma RestAddsNoId(cfg: Config, s: State, step: Step)
    requires MapStep(step) && !step.Commit? && !step.InsertEntry?
    requires !(step.LookupStep? && At(s.threads, step.t).Idle?)
    requires !(step.Recheck? && At(s.threads, step.t).Waiting? && At(s.threads, step.t).cond in s.cm.conds)
    ensures var s' := Apply(cfg, s, step);
            && (forall k :: k in s'.cm.zoneMap ==> k in s.cm.zoneMap)
            && (forall u: Tid :: u != step.t ==> At(s'.threads, u) == At(s.threads, u))
            && (At(s'.threads, step.t).Waiting? ==> At(s'.threads, step.t) == At(s.threads, step.t))
  {
  }

  lemma OtherStepsDoNotWait(cfg: Config, s: State, step: Step)
    requires !MapStep(step)
    ensures var s' := Apply(cfg, s, step);
            && (forall u: Tid :: u != step.t ==> At(s'.threads, u) == At(s.threads, u))
            && (At(s'.threads, step.t).Waiting? ==> At(s'.threads, step.t) == At(s.threads, step.t))
  {
  }

  lemma {:induction false} SmallRun(cfg: Config, steps: seq<Step>)
    requires SmallIds(steps)
    ensures SmallMap(Exec(cfg, steps))
  {
    if steps != [] {
      SmallRun(cfg, steps[..|steps| - 1]);
      StepKeepsSmall(cfg, Exec(cfg, steps[..|steps| - 1]), steps[|steps| - 1]);
    }
  }

  /** No assertion of the program fails while zone commands succeed and identifiers fit in an
      `int`. */
  lemma {:induction false} NoAssertionFails(cfg: Config, steps: seq<Step>)
    requires cfg.Valid() && DeviceSucceeds(cfg, steps) && SmallIds(steps)
    ensures !Exec(cfg, steps).aborted
  {
    if steps != [] {
      var before := steps[..|steps| - 1];
      NoAssertionFails(cfg, before);
      FineRun(cfg, before);
      DeviceRun(cfg, before);
      SmallRun(cfg, before);
      StepKeepsFine(cfg, Exec(cfg, before), steps[|steps| - 1]);
    }
  }

  /** In any run at all, exactly two steps fail an assertion: clearing a zone that holds an identifier
      in the upper half of the word, and resetting a zone that the device failed to finish in an
      earlier step or fails to reset now. */
  lemma AssertionsThatFail(cfg: Config, steps: seq<Step>, step: Step)
    requires cfg.Valid() && !Exec(cfg, steps).aborted
    ensures var s := Exec(cfg, steps);
            var p := At(s.threads, step.t);
            Apply(cfg, s, step).aborted <==>
              || (step.ClearZone? && p.Clearing? &&
                   exists c, id: Id :: Indexed(s.cm, Loc(p.zone, c), id) && id >= HALF_WORD)
              || (step.ResetZone? && p.Resetting? && (!cfg.DeviceOk(step.ok) || FinishFailed(cfg, steps, p.zone)))
  {
    FineRun(cfg, steps);
    var s := Exec(cfg, steps);
    var p := At(s.threads, step.t);
    if step.ResetZone? && p.Resetting? {
      VictimIsFullExactly(cfg, steps, step.t);
    } else if step.ClearZone? {
      if p.Clearing? {
        ClearFailsExactly(cfg, s, step.t);
      }
    } else if ReaderStep(step) {
      ReaderKeeps(cfg, s, step);
    } else if WriterStep(step) {
      WriterKeeps(cfg, s, step);
    } else if MoverStep(step) {
      MoverKeeps(cfg, s, step);
    }
  }

  lemma ClearFailsExactly(cfg: Config, s: State, t: Tid)
    requires FineInv(cfg, s) && At(s.threads, t).Clearing?
    ensures ClearZoneOk(s.cm, At(s.threads, t).zone) <==>
              !exists c, id: Id :: Indexed(s.cm, Loc(At(s.threads, t).zone, c), id) && id >= HALF_WORD
  {
    var z := At(s.threads, t).zone;
    assert HasToken(cfg, s.threads, t, z);
    forall c, id: Id | Indexed(s.cm, Loc(z, c), id)
      ensures c in s.cm.dataMap[z] && (ClearableAt(s.cm, z, c) <==> id < HALF_WORD)
    {
      KeySurvivesClearing(s.cm, Loc(z, c), id);
    }
    assert forall c :: c in s.cm.dataMap[z] ==> Indexed(s.cm, Loc(z, c), s.cm.dataMap[z][c]);
  }
}
