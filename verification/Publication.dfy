/** When the split tail of a miss is harmless, said of the schedule: a thread publishes an intact
    chunk exactly if no evictor cleared the chunk's zone since the thread handed it back. */
module Publication {
  import opened ZnTypes
  import opened Protocol
  import opened StepEffects
  import opened Buffers
  import opened Z = ZoneState
  import opened C = CacheMap
  import opened ZoneOwnership
  import opened FillOwnership
  import opened Interleavings
  import opened FineRuns
  import opened Transparency

  /** Between handing the zone back and publishing the location. */
  predicate InTail(p: Phase) {
    p.Returned? || p.Listed?
  }

  /** The step takes everything located in the zone out of the map. */
  predicate Clears(s: State, step: Step, z: nat) {
    && !s.aborted && step.ClearZone? && At(s.threads, step.t).Clearing?
    && At(s.threads, step.t).zone == z && ClearZoneOk(s.cm, z)
  }

  /** The zone of the chunk that thread `t` wrote was cleared after `t` handed it back. */
  ghost predicate ClearedSince(cfg: Config, steps: seq<Step>, t: Tid) {
    steps != [] &&
    var before, last := steps[..|steps| - 1], steps[|steps| - 1];
    var p := At(Exec(cfg, before).threads, t);
    && InTail(p) && InTail(At(Exec(cfg, steps).threads, t))
    && (ClearedSince(cfg, before, t) || Clears(Exec(cfg, before), last, p.loc.zone))
  }

  predicate ZoneCleared(th: map<Tid, Phase>, z: nat) {
    exists u :: u in th && IsCleared(th, u, z)
  }

  /** The chunk is gone, or is being taken, or holds something else. */
  predicate Spoiled(cfg: Config, s: State, p: Phase)
    requires InTail(p)
  {
    ZoneCleared(s.threads, p.loc.zone) || !HasData(cfg, s.zsm, p.loc) || Peek(s.disk, p.loc) != p.data
  }

  /** Bytes on their way to the disk start with their identifier. */
  predicate Marked(p: Phase) {
    p.Writing? || p.Written? || p.Returned? || p.Listed? ==>
      |p.data| >= ID_BYTES && p.data[..ID_BYTES] == IdBytes(p.id)
  }

  ghost predicate AllMarked(th: map<Tid, Phase>) {
    forall t: Tid :: Marked(At(th, t))
  }

  /** Everything the two conditions depend on is as it was. */
  predicate SameGround(cfg: Config, s: State, s': State, loc: Loc) {
    && (HasData(cfg, s'.zsm, loc) <==> HasData(cfg, s.zsm, loc)) && Peek(s'.disk, loc) == Peek(s.disk, loc)
    && s'.cm.dataMap == s.cm.dataMap
    && (ZoneCleared(s'.threads, loc.zone) <==> ZoneCleared(s.threads, loc.zone))
  }

  lemma IntactIsNotSpoiled(cfg: Config, s: State, p: Phase)
    requires InTail(p) && Intact(cfg, s, p)
    ensures !Spoiled(cfg, s, p)
  {
  }

  lemma SameGroundKeeps(cfg: Config, s: State, s': State, p: Phase)
    requires InTail(p) && SameGround(cfg, s, s', p.loc)
    ensures Intact(cfg, s, p) ==> Intact(cfg, s', p)
    ensures Spoiled(cfg, s, p) ==> Spoiled(cfg, s', p)
  {
    if Intact(cfg, s, p) {
      assert !ZoneCleared(s.threads, p.loc.zone);
      assert !ZoneCleared(s'.threads, p.loc.zone);
    }
  }

  // ---------- Steps of other threads ----------

  /** Which zones are cleared depends on the thread that moves. */
  lemma ClearedMove(th: map<Tid, Phase>, th': map<Tid, Phase>, t: Tid, z: nat)
    requires OthersStay(th, th', t) && (IsCleared(th', t, z) <==> IsCleared(th, t, z))
    ensures ZoneCleared(th', z) <==> ZoneCleared(th, z)
  {
    SameOthers(th, th', t);
    if u :| u in th && IsCleared(th, u, z) {
      assert u in th' && IsCleared(th', u, z);
    }
    if u :| u in th' && IsCleared(th', u, z) {
      assert u in th && IsCleared(th, u, z);
    }
  }

  predicate FillingStep(step: Step) {
    step.Generate? || step.ListZone? || step.FailEntry?
  }

  predicate EvictorMove(step: Step) {
    step.StartEvict? || step.PopVictim? || step.PassDrain? || step.StopEvict?
  }

  predicate ZoneTaking(step: Step) {
    step.Allocate? || step.UndoZone?
  }

  /** The step at most moves its thread, among phases that answer for no cleared zone, and touches
      neither the disk nor an index. */
  predicate Moves(s: State, s': State, t: Tid) {
    && s'.disk == s.disk && s'.cm.dataMap == s.cm.dataMap
    && ClearedBy(At(s'.threads, t)) == ClearedBy(At(s.threads, t))
  }

  /** The zone that a thread in this phase has cleared and not yet reset. */
  function ClearedBy(p: Phase): Option<nat> {
    if p.Draining? || p.Resetting? then Some(p.zone) else None
  }

  lemma LookUpMoves(s: State, t: Tid, id: Id)
    requires ClearedBy(At(s.threads, t)) == None
    ensures LookUp(s, t, id).zsm == s.zsm && Moves(s, LookUp(s, t, id), t)
  {
  }

  lemma LookingMoves(cfg: Config, s: State, step: Step)
    requires LookingStep(step)
    ensures var s' := Apply(cfg, s, step); s'.zsm == s.zsm && Moves(s, s', step.t)
  {
    var t, p := step.t, At(s.threads, step.t);
    if step.LookupStep? && p.Idle? {
      LookUpMoves(s, t, step.id);
    } else if step.Recheck? && p.Waiting? && p.cond in s.cm.conds {
      LookUpMoves(s.(cm := Release(s.cm, p.cond)), t, p.id);
    }
  }

  lemma AnsweringMoves(cfg: Config, s: State, step: Step)
    requires AnsweringStep(step)
    ensures var s' := Apply(cfg, s, step); s'.zsm == s.zsm && Moves(s, s', step.t)
  {
  }

  lemma FillingMoves(cfg: Config, s: State, step: Step)
    requires FillingStep(step)
    ensures var s' := Apply(cfg, s, step); s'.zsm == s.zsm && Moves(s, s', step.t)
  {
  }

  lemma EvictorMoves(cfg: Config, s: State, step: Step)
    requires EvictorMove(step)
    ensures var s' := Apply(cfg, s, step); s'.zsm == s.zsm && Moves(s, s', step.t)
  {
  }

  lemma AllocateMoves(cfg: Config, s: State, step: Step)
    requires cfg.Valid() && FineInv(cfg, s) && step.Allocate?
    ensures var s' := Apply(cfg, s, step); SameData(cfg, s.zsm, s'.zsm) && Moves(s, s', step.t)
  {
    GetActiveInv(cfg, s.zsm, step.ok);
    AllocateWrites(cfg, s.zsm, step.ok);
  }

  lemma UndoMoves(cfg: Config, s: State, step: Step)
    requires step.UndoZone?
    ensures var s' := Apply(cfg, s, step); SameData(cfg, s.zsm, s'.zsm) && Moves(s, s', step.t)
  {
  }

  predicate NoTailStep(step: Step) {
    LookingStep(step) || AnsweringStep(step) || FillingStep(step) || EvictorMove(step) || ZoneTaking(step)
  }

  /** Most steps leave the ground of every chunk alone. */
  lemma NoTailStepMoves(cfg: Config, s: State, step: Step)
    requires cfg.Valid() && FineInv(cfg, s) && NoTailStep(step)
    ensures var s' := Apply(cfg, s, step); SameData(cfg, s.zsm, s'.zsm) && Moves(s, s', step.t)
  {
    if LookingStep(step) {
      LookingMoves(cfg, s, step);
    } else if AnsweringStep(step) {
      AnsweringMoves(cfg, s, step);
    } else if FillingStep(step) {
      FillingMoves(cfg, s, step);
    } else if EvictorMove(step) {
      EvictorMoves(cfg, s, step);
    } else if step.Allocate? {
      AllocateMoves(cfg, s, step);
    } else {
      UndoMoves(cfg, s, step);
    }
  }

  lemma MovesKeepGround(cfg: Config, s: State, s': State, t: Tid, loc: Loc)
    requires SameData(cfg, s.zsm, s'.zsm) && Moves(s, s', t) && OthersStay(s.threads, s'.threads, t)
    ensures SameGround(cfg, s, s', loc)
  {
    ClearedMove(s.threads, s'.threads, t, loc.zone);
  }

  /** Two threads that write or have written the same bytes are the same thread. */
  lemma OwnBytes(cfg: Config, s: State, t: Tid, u: Tid)
    requires FineInv(cfg, s) && AllMarked(s.threads)
    requires var p, q := At(s.threads, t), At(s.threads, u);
             (p.Written? || InTail(p)) && (q.Written? || InTail(q)) && p.data == q.data
    ensures t == u
  {
    var p, q := At(s.threads, t), At(s.threads, u);
    assert Marked(p) && Marked(q);
    IdRoundTrip(p.id);
    IdRoundTrip(q.id);
    assert FillsId(s.threads, t, p.id) && FillsId(s.threads, u, q.id);
  }

  /** What a step of another thread does to a thread in its tail: an intact chunk stays intact unless
      its zone is cleared, and a spoiled one stays spoiled. */
  ghost predicate TailKept(cfg: Config, s: State, s': State, step: Step, p: Phase)
    requires InTail(p)
  {
    && (Intact(cfg, s, p) && !Clears(s, step, p.loc.zone) ==> Intact(cfg, s', p))
    && (Spoiled(cfg, s, p) || Clears(s, step, p.loc.zone) ==> Spoiled(cfg, s', p))
  }

  lemma WriteKeepsTail(cfg: Config, s: State, step: Step, p: Phase)
    requires FineInv(cfg, s) && !s.aborted && WriteStep(step) && InTail(p)
    ensures TailKept(cfg, s, Apply(cfg, s, step), step, p)
  {
    var s', t, x := Apply(cfg, s, step), step.t, At(s.threads, step.t);
    WriteEffect(cfg, s, step);
    if x.Writing? {
      TargetIsPrivate(cfg, s, t, x.loc);
    }
    OthersStayPut(cfg, s, step);
    ClearedMove(s.threads, s'.threads, t, p.loc.zone);
    if Intact(cfg, s, p) {
      assert !ZoneCleared(s.threads, p.loc.zone);
    }
  }

  lemma WriteEffect(cfg: Config, s: State, step: Step)
    requires WriteStep(step)
    ensures var s', x := Apply(cfg, s, step), At(s.threads, step.t);
            && s'.zsm == s.zsm && s'.cm == s.cm
            && ClearedBy(At(s'.threads, step.t)) == ClearedBy(x)
            && (forall l :: !(x.Writing? && l == x.loc) ==> Peek(s'.disk, l) == Peek(s.disk, l))
  {
  }

  lemma NewData(cfg: Config, s: State, t: Tid, ok: bool)
    requires FineInv(cfg, s) && !s.aborted && At(s.threads, t).Written?
    ensures var x := At(s.threads, t);
            && HandBackOk(cfg, s.zsm, x.loc) && InsertOk(s.cm, x.id, x.loc) && !HasData(cfg, s.zsm, x.loc)
            && forall l :: HasData(cfg, ReturnActive(cfg, s.zsm, x.loc, ok), l) <==>
                           HasData(cfg, s.zsm, l) || l == x.loc
  {
    var x := At(s.threads, t);
    GiveBackKeeps(cfg, s, t, ok);
    TargetIsPrivate(cfg, s, t, x.loc);
    assert FillsId(s.threads, t, x.id);
    assert HoldsZone(s.threads, t, x.loc.zone);
  }

  /** Exactly the chunk written comes to hold data. */
  lemma HandBackEffect(cfg: Config, s: State, step: Step)
    requires FineInv(cfg, s) && !s.aborted && HandBackStep(step) && At(s.threads, step.t).Written?
    ensures var s', x := Apply(cfg, s, step), At(s.threads, step.t);
            && !HasData(cfg, s.zsm, x.loc)
            && (forall l :: HasData(cfg, s'.zsm, l) <==> HasData(cfg, s.zsm, l) || l == x.loc)
            && s'.disk == s.disk && ClearedBy(At(s'.threads, step.t)) == None
            && InsertOk(s.cm, x.id, x.loc)
            && s'.cm.dataMap == if step.ReturnZone? then s.cm.dataMap else C.Insert(s.cm, x.id, x.loc).dataMap
  {
    NewData(cfg, s, step.t, step.ok);
    if step.Commit? {
      CommitEffect(cfg, s, step.t, At(s.threads, step.t), step.ok);
    }
  }

  /** The chunk of a thread in its tail may be written again, but with other bytes. */
  lemma HandBackHere(cfg: Config, s: State, step: Step, u: Tid)
    requires FineInv(cfg, s) && DataInv(cfg, s) && AllMarked(s.threads) && !s.aborted
    requires HandBackStep(step) && At(s.threads, step.t).Written? && u != step.t && InTail(At(s.threads, u))
    requires At(s.threads, u).loc == At(s.threads, step.t).loc
    ensures var p := At(s.threads, u); Spoiled(cfg, Apply(cfg, s, step), p) && !Intact(cfg, s, p)
  {
    var x, p := At(s.threads, step.t), At(s.threads, u);
    HandBackEffect(cfg, s, step);
    assert PhaseOk(cfg, s.zsm, s.disk, s.lastGen, x);
    if p.data == x.data {
      OwnBytes(cfg, s, step.t, u);
    }
  }

  lemma HandBackElsewhere(cfg: Config, s: State, step: Step, p: Phase)
    requires FineInv(cfg, s) && !s.aborted && HandBackStep(step) && At(s.threads, step.t).Written?
    requires InTail(p) && p.loc != At(s.threads, step.t).loc
    ensures TailKept(cfg, s, Apply(cfg, s, step), step, p)
  {
    var s' := Apply(cfg, s, step);
    HandBackEffect(cfg, s, step);
    OthersStayPut(cfg, s, step);
    ClearedMove(s.threads, s'.threads, step.t, p.loc.zone);
    KeptElsewhere(cfg, s, s', step, p);
  }

  /** With the same bytes, and data and a mapping exactly if there were any, a chunk stays what it was. */
  lemma KeptElsewhere(cfg: Config, s: State, s': State, step: Step, p: Phase)
    requires InTail(p) && !step.ClearZone? && s'.disk == s.disk
    requires HasData(cfg, s'.zsm, p.loc) <==> HasData(cfg, s.zsm, p.loc)
    requires |s'.cm.dataMap| == |s.cm.dataMap| && (p.loc.zone < |s.cm.dataMap| ==>
               (p.loc.chunk in s'.cm.dataMap[p.loc.zone] <==> p.loc.chunk in s.cm.dataMap[p.loc.zone]))
    requires ZoneCleared(s'.threads, p.loc.zone) <==> ZoneCleared(s.threads, p.loc.zone)
    ensures TailKept(cfg, s, s', step, p)
  {
    if Intact(cfg, s, p) {
      assert !ZoneCleared(s.threads, p.loc.zone);
    }
  }

  lemma HandBackKeepsTail(cfg: Config, s: State, step: Step, u: Tid)
    requires FineInv(cfg, s) && DataInv(cfg, s) && AllMarked(s.threads) && !s.aborted && HandBackStep(step)
    requires Apply(cfg, s, step) != s && u != step.t && InTail(At(s.threads, u))
    ensures TailKept(cfg, s, Apply(cfg, s, step), step, At(s.threads, u))
  {
    if At(s.threads, u).loc == At(s.threads, step.t).loc {
      HandBackHere(cfg, s, step, u);
    } else {
      HandBackElsewhere(cfg, s, step, At(s.threads, u));
    }
  }

  /** An insert changes only the map and its thread's phase. */
  lemma InsertEffect(cfg: Config, s: State, step: Step)
    requires FineInv(cfg, s) && !s.aborted && step.InsertEntry? && At(s.threads, step.t).Listed?
    ensures var s', x := Apply(cfg, s, step), At(s.threads, step.t);
            && InsertOk(s.cm, x.id, x.loc) && s'.cm == C.Insert(s.cm, x.id, x.loc)
            && s'.threads == s.threads[step.t := Idle]
            && s'.zsm == s.zsm && s'.disk == s.disk && s'.aborted == s.aborted
  {
    PublishFits(cfg, s, step.t);
  }

  lemma InsertKeepsTail(cfg: Config, s: State, step: Step, u: Tid)
    requires FineInv(cfg, s) && AllMarked(s.threads) && !s.aborted && PublishesIntact(cfg, s, step)
    requires step.InsertEntry? && At(s.threads, step.t).Listed? && u != step.t && InTail(At(s.threads, u))
    ensures TailKept(cfg, s, Apply(cfg, s, step), step, At(s.threads, u))
  {
    var p := At(s.threads, u);
    OthersStayPut(cfg, s, step);
    InsertEffect(cfg, s, step);
    ClearedMove(s.threads, Apply(cfg, s, step).threads, step.t, p.loc.zone);
    if Intact(cfg, s, p) {
      assert !ZoneCleared(s.threads, p.loc.zone);
      if p.loc == At(s.threads, step.t).loc {
        OwnBytes(cfg, s, step.t, u);
      }
    }
  }

  lemma ClearKeepsTail(cfg: Config, s: State, step: Step, p: Phase)
    requires !s.aborted && step.ClearZone? && InTail(p)
    ensures TailKept(cfg, s, Apply(cfg, s, step), step, p)
  {
    var s', t, x := Apply(cfg, s, step), step.t, At(s.threads, step.t);
    if x.Clearing? && ClearZoneOk(s.cm, x.zone) {
      if x.zone == p.loc.zone {
        assert t in s'.threads && IsCleared(s'.threads, t, p.loc.zone);
      } else {
        OthersStayPut(cfg, s, step);
        ClearedMove(s.threads, s'.threads, t, p.loc.zone);
      }
    }
    if Intact(cfg, s, p) {
      assert !ZoneCleared(s.threads, p.loc.zone);
    }
  }

  /** Resetting a zone leaves no data in it and touches no other. */
  lemma ResetEffect(cfg: Config, s: State, step: Step)
    requires !s.aborted && step.ResetZone? && At(s.threads, step.t).Resetting?
    requires EvictOk(cfg, s.zsm, At(s.threads, step.t).zone, step.ok)
    ensures var s', z := Apply(cfg, s, step), At(s.threads, step.t).zone;
            && (forall l :: HasData(cfg, s'.zsm, l) <==> HasData(cfg, s.zsm, l) && l.zone != z)
            && (forall l: Loc :: l.zone != z ==> Peek(s'.disk, l) == Peek(s.disk, l))
            && s'.cm == s.cm && ClearedBy(At(s'.threads, step.t)) == None
  {
  }

  lemma ResetKeepsTail(cfg: Config, s: State, step: Step, p: Phase)
    requires !s.aborted && step.ResetZone? && InTail(p)
    ensures TailKept(cfg, s, Apply(cfg, s, step), step, p)
  {
    var s', t, x := Apply(cfg, s, step), step.t, At(s.threads, step.t);
    if x.Resetting? && EvictOk(cfg, s.zsm, x.zone, step.ok) {
      ResetEffect(cfg, s, step);
      if x.zone == p.loc.zone {
        assert IsCleared(s.threads, t, p.loc.zone) && t in s.threads;
        assert ZoneCleared(s.threads, p.loc.zone);
      } else {
        OthersStayPut(cfg, s, step);
        ClearedMove(s.threads, s'.threads, t, p.loc.zone);
      }
    }
    if Intact(cfg, s, p) {
      assert !ZoneCleared(s.threads, p.loc.zone);
    }
  }

  lemma OthersKeepTail(cfg: Config, s: State, step: Step, u: Tid)
    requires cfg.Valid() && FineInv(cfg, s) && DataInv(cfg, s) && AllMarked(s.threads)
    requires PublishesIntact(cfg, s, step) && u != step.t && InTail(At(s.threads, u))
    ensures TailKept(cfg, s, Apply(cfg, s, step), step, At(s.threads, u))
  {
    var s', x, p := Apply(cfg, s, step), At(s.threads, step.t), At(s.threads, u);
    if s.aborted || s' == s {
      SameGroundKeeps(cfg, s, s', p);
    } else if NoTailStep(step) {
      NoTailStepMoves(cfg, s, step);
      OthersStayPut(cfg, s, step);
      MovesKeepGround(cfg, s, s', step.t, p.loc);
      SameGroundKeeps(cfg, s, s', p);
    } else if WriteStep(step) {
      WriteKeepsTail(cfg, s, step, p);
    } else if HandBackStep(step) {
      HandBackKeepsTail(cfg, s, step, u);
    } else if step.InsertEntry? {
      InsertKeepsTail(cfg, s, step, u);
    } else if step.ClearZone? {
      ClearKeepsTail(cfg, s, step, p);
    } else {
      ResetKeepsTail(cfg, s, step, p);
    }
  }

  // ---------- Steps of the thread itself ----------

  lemma EnterTail(cfg: Config, s: State, t: Tid, ok: bool)
    requires FineInv(cfg, s) && DataInv(cfg, s) && !s.aborted && At(s.threads, t).Written?
    ensures var s' := Apply(cfg, s, ReturnZone(t, ok)); InTail(At(s'.threads, t)) && Intact(cfg, s', At(s'.threads, t))
  {
    var step, x := ReturnZone(t, ok), At(s.threads, t);
    var s' := Apply(cfg, s, step);
    HandBackEffect(cfg, s, step);
    assert PhaseOk(cfg, s.zsm, s.disk, s.lastGen, x);
    assert x.loc.chunk !in s.cm.dataMap[x.loc.zone] by {
      if x.loc.chunk in s.cm.dataMap[x.loc.zone] {
        assert Indexed(s.cm, x.loc, s.cm.dataMap[x.loc.zone][x.loc.chunk]);
      }
    }
    NoneCleared(cfg, s, t);
    OthersStayPut(cfg, s, step);
    ClearedMove(s.threads, s'.threads, t, x.loc.zone);
    assert !ZoneCleared(s'.threads, x.loc.zone);
  }

  lemma NoneCleared(cfg: Config, s: State, t: Tid)
    requires FineInv(cfg, s) && Holds(At(s.threads, t)).Some?
    ensures forall u: Tid :: !IsCleared(s.threads, u, Holds(At(s.threads, t)).value.zone)
  {
    var z := Holds(At(s.threads, t)).value.zone;
    ClearedIsSealed(cfg, s);
    assert HoldsZone(s.threads, t, z);
  }

  /** A thread enters its tail with an intact chunk, and its own steps there change nothing about it. */
  lemma OwnTail(cfg: Config, s: State, step: Step)
    requires cfg.Valid() && FineInv(cfg, s) && DataInv(cfg, s) && InTail(At(Apply(cfg, s, step).threads, step.t))
    ensures var s', p, p' := Apply(cfg, s, step), At(s.threads, step.t), At(Apply(cfg, s, step).threads, step.t);
            && (!InTail(p) ==> Intact(cfg, s', p'))
            && (InTail(p) ==> p'.loc == p.loc && !Clears(s, step, p.loc.zone))
            && (InTail(p) && Intact(cfg, s, p) ==> Intact(cfg, s', p'))
            && (InTail(p) && Spoiled(cfg, s, p) ==> Spoiled(cfg, s', p'))
  {
    var s', p := Apply(cfg, s, step), At(s.threads, step.t);
    TailSteps(cfg, s, step);
    if step.ReturnZone? && p.Written? && !s.aborted {
      EnterTail(cfg, s, step.t, step.ok);
    } else if step.ListZone? {
      FillingMoves(cfg, s, step);
      OthersStayPut(cfg, s, step);
      MovesKeepGround(cfg, s, s', step.t, p.loc);
      SameGroundKeeps(cfg, s, s', p);
    } else {
      SameGroundKeeps(cfg, s, s', p);
    }
  }

  /** The ways into the tail and on. */
  lemma TailSteps(cfg: Config, s: State, step: Step)
    requires cfg.Valid() && FineInv(cfg, s) && InTail(At(Apply(cfg, s, step).threads, step.t))
    ensures var p, p' := At(s.threads, step.t), At(Apply(cfg, s, step).threads, step.t);
            || (step.ReturnZone? && p.Written? && !s.aborted && p' == Returned(p.id, p.loc, p.data))
            || (step.ListZone? && p.Returned? && !s.aborted && p' == Listed(p.id, p.loc, p.data))
            || Apply(cfg, s, step) == s
  {
    if LookingStep(step) {
      LookingLeavesTail(cfg, s, step);
    } else if AnsweringStep(step) || EvictorStep(step) {
      ServingLeavesTail(cfg, s, step);
    } else if HandBackStep(step) {
      HandBackTail(cfg, s, step);
    } else if step.InsertEntry? {
      if At(s.threads, step.t).Listed? && !s.aborted {
        PublishKeeps(cfg, s, step.t);
      }
    } else {
      FillingTail(cfg, s, step);
    }
  }

  lemma HandBackTail(cfg: Config, s: State, step: Step)
    requires FineInv(cfg, s) && HandBackStep(step)
    ensures var p, p' := At(s.threads, step.t), At(Apply(cfg, s, step).threads, step.t);
            InTail(p') ==>
            || (step.ReturnZone? && p.Written? && !s.aborted && p' == Returned(p.id, p.loc, p.data))
            || Apply(cfg, s, step) == s
  {
    if At(s.threads, step.t).Written? && !s.aborted {
      NewData(cfg, s, step.t, step.ok);
      if step.Commit? {
        CommitEffect(cfg, s, step.t, At(s.threads, step.t), step.ok);
      }
    }
  }

  lemma FillingTail(cfg: Config, s: State, step: Step)
    requires StartingStep(step) || WriteStep(step) || step.ListZone? || step.UndoZone? || step.FailEntry?
    requires InTail(At(Apply(cfg, s, step).threads, step.t))
    ensures var p, p' := At(s.threads, step.t), At(Apply(cfg, s, step).threads, step.t);
            || (step.ListZone? && p.Returned? && !s.aborted && p' == Listed(p.id, p.loc, p.data))
            || Apply(cfg, s, step) == s
  {
  }

  lemma LookingLeavesTail(cfg: Config, s: State, step: Step)
    requires LookingStep(step) && InTail(At(Apply(cfg, s, step).threads, step.t))
    ensures Apply(cfg, s, step) == s
  {
  }

  lemma ServingLeavesTail(cfg: Config, s: State, step: Step)
    requires (AnsweringStep(step) || EvictorStep(step)) && InTail(At(Apply(cfg, s, step).threads, step.t))
    ensures Apply(cfg, s, step) == s
  {
  }

  // ---------- Marks ----------

  /** What a thread carries was generated for its identifier. */
  predicate CarriesOn(p: Phase, p': Phase) {
    Marked(p) ==> Marked(p')
  }

  lemma StartingMarks(cfg: Config, s: State, step: Step)
    requires StartingStep(step) || WriteStep(step) || step.ListZone? || step.UndoZone? || step.FailEntry?
    ensures CarriesOn(At(s.threads, step.t), At(Apply(cfg, s, step).threads, step.t))
  {
  }

  lemma LookingMarks(cfg: Config, s: State, step: Step)
    requires LookingStep(step)
    ensures CarriesOn(At(s.threads, step.t), At(Apply(cfg, s, step).threads, step.t))
  {
  }

  lemma ServingMarks(cfg: Config, s: State, step: Step)
    requires AnsweringStep(step) || EvictorStep(step)
    ensures CarriesOn(At(s.threads, step.t), At(Apply(cfg, s, step).threads, step.t))
  {
  }

  lemma HandBackMarks(cfg: Config, s: State, step: Step)
    requires HandBackStep(step) || step.InsertEntry?
    ensures CarriesOn(At(s.threads, step.t), At(Apply(cfg, s, step).threads, step.t))
  {
  }

  lemma StepKeepsMarks(cfg: Config, s: State, step: Step)
    requires AllMarked(s.threads)
    ensures AllMarked(Apply(cfg, s, step).threads)
  {
    OthersStayPut(cfg, s, step);
    if LookingStep(step) {
      LookingMarks(cfg, s, step);
    } else if AnsweringStep(step) || EvictorStep(step) {
      ServingMarks(cfg, s, step);
    } else if HandBackStep(step) || step.InsertEntry? {
      HandBackMarks(cfg, s, step);
    } else {
      StartingMarks(cfg, s, step);
    }
    assert Marked(At(s.threads, step.t));
  }

  // ---------- Runs ----------

  /** A chunk in its writer's tail is spoiled if its zone was cleared since, and intact if not. */
  ghost predicate TailsTold(cfg: Config, steps: seq<Step>) {
    forall t: Tid :: InTail(At(Exec(cfg, steps).threads, t)) ==> TailTold(cfg, steps, t)
  }

  ghost predicate TailTold(cfg: Config, steps: seq<Step>, t: Tid)
    requires InTail(At(Exec(cfg, steps).threads, t))
  {
    var s := Exec(cfg, steps);
    var p := At(s.threads, t);
    if ClearedSince(cfg, steps, t) then Spoiled(cfg, s, p) else Intact(cfg, s, p)
  }

  lemma OneMoreTold(cfg: Config, steps: seq<Step>, t: Tid)
    requires cfg.Valid() && IntactRun(cfg, steps) && steps != []
    requires AllMarked(Exec(cfg, steps[..|steps| - 1]).threads) && TailsTold(cfg, steps[..|steps| - 1])
    requires InTail(At(Exec(cfg, steps).threads, t))
    ensures TailTold(cfg, steps, t)
  {
    var before, last := steps[..|steps| - 1], steps[|steps| - 1];
    var s := Exec(cfg, before);
    IntactPrefix(cfg, steps);
    FineRun(cfg, before);
    IntactRunKeepsData(cfg, before);
    OthersStayPut(cfg, s, last);
    if InTail(At(s.threads, t)) {
      assert TailTold(cfg, before, t);
    }
    if t == last.t {
      OwnTail(cfg, s, last);
    } else {
      assert PublishesIntact(cfg, Exec(cfg, steps[..|steps| - 1]), steps[|steps| - 1]);
      OthersKeepTail(cfg, s, last, t);
    }
  }

  lemma {:induction false} TailRun(cfg: Config, steps: seq<Step>)
    requires cfg.Valid() && IntactRun(cfg, steps)
    ensures AllMarked(Exec(cfg, steps).threads) && TailsTold(cfg, steps)
  {
    if steps != [] {
      var before := steps[..|steps| - 1];
      IntactPrefix(cfg, steps);
      TailRun(cfg, before);
      StepKeepsMarks(cfg, Exec(cfg, before), steps[|steps| - 1]);
      forall t: Tid | InTail(At(Exec(cfg, steps).threads, t))
        ensures TailTold(cfg, steps, t)
      {
        OneMoreTold(cfg, steps, t);
      }
    }
  }

  /** The chunk a thread is about to publish is intact exactly if its zone was not cleared since the
      thread handed it back. */
  lemma IntactExactly(cfg: Config, steps: seq<Step>, t: Tid)
    requires cfg.Valid() && IntactRun(cfg, steps) && InTail(At(Exec(cfg, steps).threads, t))
    ensures Intact(cfg, Exec(cfg, steps), At(Exec(cfg, steps).threads, t)) <==> !ClearedSince(cfg, steps, t)
  {
    TailRun(cfg, steps);
    assert TailTold(cfg, steps, t);
    if Intact(cfg, Exec(cfg, steps), At(Exec(cfg, steps).threads, t)) {
      IntactIsNotSpoiled(cfg, Exec(cfg, steps), At(Exec(cfg, steps).threads, t));
    }
  }

  /** No thread publishes a location whose zone was cleared since the thread handed it back. */
  ghost predicate PublishesInTime(cfg: Config, steps: seq<Step>) {
    forall i :: 0 <= i < |steps| ==> InTime(cfg, steps[..i], steps[i])
  }

  ghost predicate InTime(cfg: Config, before: seq<Step>, step: Step) {
    step.InsertEntry? && At(Exec(cfg, before).threads, step.t).Listed? ==> !ClearedSince(cfg, before, step.t)
  }

  lemma InTimeExactly(cfg: Config, before: seq<Step>, step: Step)
    requires cfg.Valid() && IntactRun(cfg, before)
    ensures PublishesIntact(cfg, Exec(cfg, before), step) <==> InTime(cfg, before, step)
  {
    if At(Exec(cfg, before).threads, step.t).Listed? {
      IntactExactly(cfg, before, step.t);
    }
  }

  lemma IntactTake(cfg: Config, steps: seq<Step>, n: nat)
    requires IntactRun(cfg, steps) && n <= |steps|
    ensures IntactRun(cfg, steps[..n])
  {
    forall i | 0 <= i < n
      ensures PublishesIntact(cfg, Exec(cfg, steps[..n][..i]), steps[..n][i])
    {
      assert steps[..n][..i] == steps[..i];
    }
  }

  lemma IntactExtend(cfg: Config, steps: seq<Step>)
    requires steps != [] && IntactRun(cfg, steps[..|steps| - 1])
    requires PublishesIntact(cfg, Exec(cfg, steps[..|steps| - 1]), steps[|steps| - 1])
    ensures IntactRun(cfg, steps)
  {
    var before := steps[..|steps| - 1];
    forall i | 0 <= i < |steps|
      ensures PublishesIntact(cfg, Exec(cfg, steps[..i]), steps[i])
    {
      if i < |before| {
        assert before[..i] == steps[..i];
        assert PublishesIntact(cfg, Exec(cfg, before[..i]), before[i]);
      }
    }
  }

  lemma InTimePrefix(cfg: Config, steps: seq<Step>)
    requires PublishesInTime(cfg, steps) && steps != []
    ensures PublishesInTime(cfg, steps[..|steps| - 1])
    ensures InTime(cfg, steps[..|steps| - 1], steps[|steps| - 1])
  {
    var before := steps[..|steps| - 1];
    forall i | 0 <= i < |before|
      ensures InTime(cfg, before[..i], before[i])
    {
      assert before[..i] == steps[..i];
    }
  }

  lemma {:induction false} InTimeIsIntact(cfg: Config, steps: seq<Step>)
    requires cfg.Valid() && PublishesInTime(cfg, steps)
    ensures IntactRun(cfg, steps)
  {
    if steps != [] {
      var before := steps[..|steps| - 1];
      InTimePrefix(cfg, steps);
      InTimeIsIntact(cfg, before);
      InTimeExactly(cfg, before, steps[|steps| - 1]);
      IntactExtend(cfg, steps);
    }
  }

  /** The two descriptions of harmless runs agree, the second one speaking only of the order of the
      steps. */
  lemma IntactRunExactly(cfg: Config, steps: seq<Step>)
    requires cfg.Valid()
    ensures IntactRun(cfg, steps) <==> PublishesInTime(cfg, steps)
  {
    if IntactRun(cfg, steps) {
      forall i | 0 <= i < |steps|
        ensures InTime(cfg, steps[..i], steps[i])
      {
        IntactTake(cfg, steps, i);
        InTimeExactly(cfg, steps[..i], steps[i]);
      }
    }
    if PublishesInTime(cfg, steps) {
      InTimeIsIntact(cfg, steps);
    }
  }

  /** No zone is cleared while a thread is in its tail with a chunk of that zone. */
  ghost predicate Undisturbed(cfg: Config, steps: seq<Step>) {
    forall i, t: Tid :: 0 <= i < |steps| && InTail(At(Exec(cfg, steps[..i]).threads, t)) ==>
      !Clears(Exec(cfg, steps[..i]), steps[i], At(Exec(cfg, steps[..i]).threads, t).loc.zone)
  }

  lemma {:induction false} NothingClearedSince(cfg: Config, steps: seq<Step>, n: nat, t: Tid)
    requires Undisturbed(cfg, steps) && n <= |steps|
    ensures !ClearedSince(cfg, steps[..n], t)
  {
    if n > 0 {
      NothingClearedSince(cfg, steps, n - 1, t);
      assert steps[..n][..n - 1] == steps[..n - 1];
    }
  }

  lemma UndisturbedRunsAreIntact(cfg: Config, steps: seq<Step>)
    requires cfg.Valid() && Undisturbed(cfg, steps)
    ensures IntactRun(cfg, steps)
  {
    forall i | 0 <= i < |steps|
      ensures InTime(cfg, steps[..i], steps[i])
    {
      NothingClearedSince(cfg, steps, i, steps[i].t);
    }
    IntactRunExactly(cfg, steps);
  }
}
