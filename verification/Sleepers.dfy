/** What a lookup comes to in a concurrent run, and how long a thread sleeps that finds a fill under way. */
module Sleepers {
  import opened ZnTypes
  import opened Protocol
  import opened StepEffects
  import opened C = CacheMap
  import opened FillOwnership
  import opened Interleavings
  import opened FineRuns
  import opened ZoneOwnership
  import opened Z = ZoneState
  import Transparency

  /** The step looks an identifier up: the thread was idle, or has waited and is awake. */
  predicate LooksUp(s: State, step: Step, id: Id) {
    var p := At(s.threads, step.t);
    !s.aborted && ((step == LookupStep(step.t, id) && p.Idle?)
                   || (step.Recheck? && p.Waiting? && p.id == id && !Asleep(s.cm, step.t, p.cond)))
  }

  /** The thread waits for the fill that is under way, asleep; or reads the chunk that is located; or is
      the one to fill the entry. */
  ghost predicate LookupEnds(s: State, s': State, t: Tid, id: Id) {
    var p' := At(s'.threads, t);
    if exists u: Tid :: FillsId(s.threads, u, id) then
      p'.Waiting? && p'.id == id && Asleep(s'.cm, t, p'.cond) && LeadsTo(s'.cm, id, p'.cond)
    else if id in s.cm.zoneMap then p'.Reading? && p'.id == id && IsLocated(s.cm, id, p'.loc)
    else p' == Allocating(id)
  }

  lemma PendingExactly(cfg: Config, s: State, id: Id)
    requires FineInv(cfg, s)
    ensures IsPending(s.cm, id) <==> exists u: Tid :: FillsId(s.threads, u, id)
  {
    if IsPending(s.cm, id) {
      assert FillsId(s.threads, s.cm.conds[s.cm.zoneMap[id].cond].owner, id);
    }
  }

  lemma LookUpEnds(s: State, t: Tid, id: Id)
    requires LookupOk(s.cm, id)
    ensures var s' := LookUp(s, t, id);
            var p' := At(s'.threads, t);
            if IsPending(s.cm, id) then
              p'.Waiting? && p'.id == id && Asleep(s'.cm, t, p'.cond) && LeadsTo(s'.cm, id, p'.cond)
            else if id in s.cm.zoneMap then p'.Reading? && p'.id == id && IsLocated(s.cm, id, p'.loc)
            else p' == Allocating(id)
  {
  }

  lemma RecheckEnds(cfg: Config, s: State, t: Tid, id: Id)
    requires FineInv(cfg, s) && LooksUp(s, Recheck(t), id)
    ensures var c := At(s.threads, t).cond;
            && c in s.cm.conds && LookupOk(Release(s.cm, c), id)
            && Apply(cfg, s, Recheck(t)) == LookUp(s.(cm := Release(s.cm, c)), t, id)
  {
    var c := At(s.threads, t).cond;
    assert WaitsOn(s.threads, t, c);
    ReLookUpKeeps(cfg, s, t, id, c);
  }

  /** In every run a lookup comes to what the other threads and the map call for. */
  lemma LookupComesTo(cfg: Config, steps: seq<Step>, step: Step, id: Id)
    requires cfg.Valid() && LooksUp(Exec(cfg, steps), step, id)
    ensures LookupEnds(Exec(cfg, steps), Apply(cfg, Exec(cfg, steps), step), step.t, id)
  {
    var s, t := Exec(cfg, steps), step.t;
    FineRun(cfg, steps);
    PendingExactly(cfg, s, id);
    if step.LookupStep? {
      LookUpKeeps(cfg, s, t, id);
      LookUpEnds(s, t, id);
    } else {
      RecheckEnds(cfg, s, t, id);
      LookUpEnds(s.(cm := Release(s.cm, At(s.threads, t).cond)), t, id);
    }
  }

  // ---------- Sleeping ----------

  /** The step ends the fill of the identifier. */
  predicate EndsFill(cfg: Config, s: State, step: Step, id: Id) {
    && (step.Commit? || step.InsertEntry? || step.FailEntry?)
    && FillsId(s.threads, step.t, id) && At(Apply(cfg, s, step).threads, step.t).Idle?
  }

  lemma LookupWakesNobody(cfg: Config, s: State, step: Step, t: Tid, c: nat)
    requires FineInv(cfg, s) && step.LookupStep? && Asleep(s.cm, t, c)
    ensures Asleep(Apply(cfg, s, step).cm, t, c)
  {
    assert c < s.cm.nextCond;
  }

  lemma ReleaseWakesNobody(cm: CMap, d: nat, t: Tid, c: nat)
    requires d in cm.conds && Asleep(cm, t, c) && c in Release(cm, d).conds
    ensures Asleep(Release(cm, d), t, c)
  {
  }

  lemma RecheckWakesNobody(cfg: Config, s: State, step: Step, t: Tid, c: nat)
    requires FineInv(cfg, s) && step.Recheck? && Asleep(s.cm, t, c)
    ensures Asleep(Apply(cfg, s, step).cm, t, c)
  {
    var u, p := step.t, At(s.threads, step.t);
    assert WaitsOn(s.threads, t, c);
    if !s.aborted && p.Waiting? && !Asleep(s.cm, u, p.cond) {
      RecheckEnds(cfg, s, u, p.id);
      ReleaseOne(s.cm, s.threads, u, p.id, p.cond);
      assert WaitsOn(s.threads[u := Idle], t, c);
      ReleaseWakesNobody(s.cm, p.cond, t, c);
      assert c < s.cm.nextCond;
    }
  }

  /** A fill that ends wakes those who wait for it. */
  lemma FillWakes(cm: CMap, cm': CMap, id: Id, t: Tid, c: nat)
    requires FailOk(cm, id) && cm'.conds == Release(Broadcast(cm, cm.zoneMap[id].cond), cm.zoneMap[id].cond).conds
    requires Asleep(cm, t, c) && !Asleep(cm', t, c)
    ensures LeadsTo(cm, id, c)
  {
  }

  predicate Finishes(s: State, step: Step) {
    var p := At(s.threads, step.t);
    !s.aborted && ((step.Commit? && p.Written?) || (step.InsertEntry? && p.Listed?) || (step.FailEntry? && p.Failing?))
  }

  lemma CommitFits(cfg: Config, s: State, t: Tid)
    requires FineInv(cfg, s) && At(s.threads, t).Written?
    ensures var p := At(s.threads, t); HandBackOk(cfg, s.zsm, p.loc) && InsertOk(s.cm, p.id, p.loc)
  {
    var p := At(s.threads, t);
    GiveBackKeeps(cfg, s, t, true);
    assert FillsId(s.threads, t, p.id) && HoldsZone(s.threads, t, p.loc.zone);
  }

  lemma CommitFinishes(cfg: Config, s: State, step: Step)
    requires FineInv(cfg, s) && Finishes(s, step) && step.Commit?
    ensures var id, s' := At(s.threads, step.t).id, Apply(cfg, s, step);
            InsertOk(s.cm, id, At(s.threads, step.t).loc) && At(s'.threads, step.t).Idle?
            && s'.cm == Insert(s.cm, id, At(s.threads, step.t).loc)
  {
    CommitFits(cfg, s, step.t);
    Transparency.CommitEffect(cfg, s, step.t, At(s.threads, step.t), step.ok);
  }

  lemma InsertFinishes(cfg: Config, s: State, step: Step)
    requires FineInv(cfg, s) && Finishes(s, step) && step.InsertEntry?
    ensures var id, s' := At(s.threads, step.t).id, Apply(cfg, s, step);
            InsertOk(s.cm, id, At(s.threads, step.t).loc) && At(s'.threads, step.t).Idle?
            && s'.cm == Insert(s.cm, id, At(s.threads, step.t).loc)
  {
    PublishFits(cfg, s, step.t);
  }

  lemma FailFinishes(cfg: Config, s: State, step: Step)
    requires FineInv(cfg, s) && Finishes(s, step) && step.FailEntry?
    ensures var id, s' := At(s.threads, step.t).id, Apply(cfg, s, step);
            FailOk(s.cm, id) && At(s'.threads, step.t).Idle? && s'.cm == Fail(s.cm, id)
  {
    FailStepKeeps(cfg, s, step.t);
  }

  lemma FinishEffect(cfg: Config, s: State, step: Step)
    requires FineInv(cfg, s) && Finishes(s, step)
    ensures var id, s' := At(s.threads, step.t).id, Apply(cfg, s, step);
            && FailOk(s.cm, id) && FillsId(s.threads, step.t, id) && At(s'.threads, step.t).Idle?
            && s'.cm.conds == Release(Broadcast(s.cm, s.cm.zoneMap[id].cond), s.cm.zoneMap[id].cond).conds
  {
    if step.Commit? {
      CommitFinishes(cfg, s, step);
    } else if step.InsertEntry? {
      InsertFinishes(cfg, s, step);
    } else {
      FailFinishes(cfg, s, step);
    }
  }

  lemma FillWakesItsOwn(cfg: Config, s: State, step: Step, t: Tid, c: nat)
    requires FineInv(cfg, s) && Finishes(s, step)
    requires Asleep(s.cm, t, c) && !Asleep(Apply(cfg, s, step).cm, t, c)
    ensures At(s.threads, t).Waiting? && EndsFill(cfg, s, step, At(s.threads, t).id)
  {
    FinishEffect(cfg, s, step);
    FillWakes(s.cm, Apply(cfg, s, step).cm, At(s.threads, step.t).id, t, c);
    assert Current(s.cm, c) && WaitsOn(s.threads, t, c);
  }

  lemma UnfinishedKeepsMap(cfg: Config, s: State, step: Step)
    requires (step.Commit? || step.InsertEntry? || step.FailEntry?) && !Finishes(s, step)
    ensures Apply(cfg, s, step).cm == s.cm
  {
  }

  lemma OthersWakeNobody(cfg: Config, s: State, step: Step, t: Tid, c: nat)
    requires step.DropReader? || step.ClearZone? || !MapStep(step)
    requires Asleep(s.cm, t, c)
    ensures Asleep(Apply(cfg, s, step).cm, t, c)
  {
    if !MapStep(step) {
      OtherStepsKeepMap(cfg, s, step);
    }
  }

  lemma SleeperStays(cfg: Config, s: State, step: Step, t: Tid, c: nat)
    requires FineInv(cfg, s) && Asleep(s.cm, t, c)
    ensures At(s.threads, t).Waiting? && At(Apply(cfg, s, step).threads, t) == At(s.threads, t)
    ensures step.t == t && !step.SpuriousWake? ==> Apply(cfg, s, step) == s
  {
    assert WaitsOn(s.threads, t, c);
    if step.t != t {
      OthersStayPut(cfg, s, step);
    } else if step.SpuriousWake? {
      WakingStays(cfg, s, step);
    } else {
      SleeperWaits(cfg, s, step);
    }
  }

  lemma WakingStays(cfg: Config, s: State, step: Step)
    requires step.SpuriousWake?
    ensures Apply(cfg, s, step).threads == s.threads
  {
  }

  lemma SleeperWaits(cfg: Config, s: State, step: Step)
    requires At(s.threads, step.t).Waiting? && Asleep(s.cm, step.t, At(s.threads, step.t).cond) && !step.SpuriousWake?
    ensures Apply(cfg, s, step) == s
  {
  }

  /** In every run a thread that found a fill under way sleeps, and does nothing, until that fill ends or
      it wakes up by itself. */
  lemma SleepsUntilFilled(cfg: Config, steps: seq<Step>, step: Step, t: Tid, c: nat)
    requires cfg.Valid() && Asleep(Exec(cfg, steps).cm, t, c)
    ensures var s, s' := Exec(cfg, steps), Apply(cfg, Exec(cfg, steps), step);
            && At(s.threads, t).Waiting? && At(s'.threads, t) == At(s.threads, t)
            && (step.t == t ==> step == SpuriousWake(t) || s' == s)
            && (Asleep(s'.cm, t, c) || step == SpuriousWake(t) || EndsFill(cfg, s, step, At(s.threads, t).id))
  {
    var s := Exec(cfg, steps);
    FineRun(cfg, steps);
    SleeperStays(cfg, s, step, t, c);
    if !Asleep(Apply(cfg, s, step).cm, t, c) {
      if step.LookupStep? {
        LookupWakesNobody(cfg, s, step, t, c);
      } else if step.Recheck? {
        RecheckWakesNobody(cfg, s, step, t, c);
      } else if Finishes(s, step) {
        FillWakesItsOwn(cfg, s, step, t, c);
      } else if step.Commit? || step.InsertEntry? || step.FailEntry? {
        UnfinishedKeepsMap(cfg, s, step);
      } else if !step.SpuriousWake? {
        OthersWakeNobody(cfg, s, step, t, c);
      }
    }
  }
}
