/** Which zone an evictor is handed in a concurrent run, by a history read off the run's steps. */
module EvictionOrder {
  import opened ZnTypes
  import opened Protocol
  import opened StepEffects
  import opened L = Lru
  import opened Interleavings
  import opened FineRuns

  /** The use of a zone that a step is: the policy hears of a zone's last chunk, a reader that has read
      tells it of its zone, or an evictor comes by a zone to clear. */
  function UsesOf(cfg: Config, s: State, step: Step): seq<Use<nat>> {
    var p, p' := At(s.threads, step.t), At(Apply(cfg, s, step).threads, step.t);
    if s.aborted then []
    else if step.Promote? && p.HaveRead? then [Touched(p.loc.zone)]
    else if (step.Commit? && p.Written?) || (step.ListZone? && p.Returned?) then
      if p.loc.chunk + 1 == cfg.maxChunks then [Filled(p.loc.zone)] else []
    else if step.PopVictim? && p.Evicting? && p'.Clearing? then [Popped(p'.zone)]
    else []
  }

  /** All uses of a run, oldest first. */
  ghost function Uses(cfg: Config, steps: seq<Step>): seq<Use<nat>> {
    if steps == [] then [] else
    var before, last := steps[..|steps| - 1], steps[|steps| - 1];
    Uses(cfg, before) + UsesOf(cfg, Exec(cfg, before), last)
  }

  // ---------- The record kept in the state is that history ----------

  lemma PromoteRecords(cfg: Config, s: State, step: Step)
    requires FineInv(cfg, s) && step.Promote?
    ensures Apply(cfg, s, step).uses == s.uses + UsesOf(cfg, s, step)
  {
    if At(s.threads, step.t).HaveRead? {
      PromoteKeeps(cfg, s, step.t);
    }
  }

  lemma CommitRecords(cfg: Config, s: State, step: Step)
    requires FineInv(cfg, s) && step.Commit?
    ensures Apply(cfg, s, step).uses == s.uses + UsesOf(cfg, s, step)
  {
    if At(s.threads, step.t).Written? && !s.aborted {
      CommitStepKeeps(cfg, s, step.t, step.ok);
    }
  }

  lemma ListRecords(cfg: Config, s: State, step: Step)
    requires step.ListZone?
    ensures Apply(cfg, s, step).uses == s.uses + UsesOf(cfg, s, step)
  {
  }

  lemma PopRecords(cfg: Config, s: State, step: Step)
    requires step.PopVictim?
    ensures Apply(cfg, s, step).uses == s.uses + UsesOf(cfg, s, step)
  {
  }

  predicate UseStep(step: Step) {
    step.Promote? || step.Commit? || step.ListZone? || step.PopVictim?
  }

  lemma LookingUsesNothing(cfg: Config, s: State, step: Step)
    requires LookingStep(step) || step.ReadDisk? || step.DropReader?
    ensures Apply(cfg, s, step).uses == s.uses
  {
  }

  lemma WritingUsesNothing(cfg: Config, s: State, step: Step)
    requires StartingStep(step) || WriteStep(step)
    ensures Apply(cfg, s, step).uses == s.uses
  {
  }

  lemma EndingUsesNothing(cfg: Config, s: State, step: Step)
    requires step.ReturnZone? || step.InsertEntry? || step.UndoZone? || step.FailEntry?
    ensures Apply(cfg, s, step).uses == s.uses
  {
  }

  lemma EvictorUsesNothing(cfg: Config, s: State, step: Step)
    requires EvictorStep(step) && !step.PopVictim?
    ensures Apply(cfg, s, step).uses == s.uses
  {
  }

  lemma OthersUseNothing(cfg: Config, s: State, step: Step)
    requires !UseStep(step)
    ensures Apply(cfg, s, step).uses == s.uses
  {
    if LookingStep(step) || step.ReadDisk? || step.DropReader? {
      LookingUsesNothing(cfg, s, step);
    } else if StartingStep(step) || WriteStep(step) {
      WritingUsesNothing(cfg, s, step);
    } else if EvictorStep(step) {
      EvictorUsesNothing(cfg, s, step);
    } else {
      EndingUsesNothing(cfg, s, step);
    }
  }

  lemma StepRecordsUses(cfg: Config, s: State, step: Step)
    requires FineInv(cfg, s)
    ensures Apply(cfg, s, step).uses == s.uses + UsesOf(cfg, s, step)
  {
    if step.Promote? {
      PromoteRecords(cfg, s, step);
    } else if step.Commit? {
      CommitRecords(cfg, s, step);
    } else if step.ListZone? {
      ListRecords(cfg, s, step);
    } else if step.PopVictim? {
      PopRecords(cfg, s, step);
    } else {
      OthersUseNothing(cfg, s, step);
    }
  }

  lemma {:induction false} UsesAreRecorded(cfg: Config, steps: seq<Step>)
    requires cfg.Valid()
    ensures Exec(cfg, steps).uses == Uses(cfg, steps)
  {
    if steps != [] {
      var before, last := steps[..|steps| - 1], steps[|steps| - 1];
      UsesAreRecorded(cfg, before);
      FineRun(cfg, before);
      StepRecordsUses(cfg, Exec(cfg, before), last);
    }
  }

  // ---------- The order of eviction ----------

  /** The queue holds exactly the zones in use, oldest last use first. */
  lemma QueueInOrder(cfg: Config, steps: seq<Step>)
    requires cfg.Valid()
    ensures L.Inv(Exec(cfg, steps).lru) && Ordered(Exec(cfg, steps).lru, Uses(cfg, steps))
  {
    FineRun(cfg, steps);
    UsesAreRecorded(cfg, steps);
  }

  /** Some zone is in use exactly if the queue holds one, and then the one at its head was used longest ago. */
  lemma HeadOrNone(cfg: Config, steps: seq<Step>)
    requires cfg.Valid()
    ensures var l, h := Exec(cfg, steps).lru, Uses(cfg, steps);
            if l.queue == [] then forall z: nat :: LastUse(h, z).None? else IsOldest(h, l.queue[0].key)
  {
    QueueInOrder(cfg, steps);
    var l, h := Exec(cfg, steps).lru, Uses(cfg, steps);
    assert forall z: nat :: LastUse(h, z).Some? ==> InQueue(l, z);
    if l.queue != [] {
      HeadHasOldest(l, h);
    }
  }

  lemma PopHandsOut(cfg: Config, s: State, t: Tid)
    requires !s.aborted && At(s.threads, t).Evicting?
    ensures var back := At(s.threads, t).back;
            At(Apply(cfg, s, PopVictim(t)).threads, t) ==
            if s.lru.queue == [] then Resume(back) else Clearing(s.lru.queue[0].key, back)
  {
  }

  /** An evictor is handed the zone whose last fill or read in the run is oldest, and nothing only if
      no zone has one. */
  lemma VictimIsOldest(cfg: Config, steps: seq<Step>, t: Tid)
    requires cfg.Valid() && !Exec(cfg, steps).aborted && At(Exec(cfg, steps).threads, t).Evicting?
    ensures var h, back := Uses(cfg, steps), At(Exec(cfg, steps).threads, t).back;
            var p := At(Apply(cfg, Exec(cfg, steps), PopVictim(t)).threads, t);
            if exists z: nat :: LastUse(h, z).Some? then p.Clearing? && p.back == back && IsOldest(h, p.zone)
            else p == Resume(back)
  {
    HeadOrNone(cfg, steps);
    PopHandsOut(cfg, Exec(cfg, steps), t);
  }
}
