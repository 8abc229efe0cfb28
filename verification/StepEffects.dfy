/** What a step leaves alone whatever the state: other threads, and for each kind of step the parts
    of the state it has nothing to do with. */
module StepEffects {
  import opened ZnTypes
  import opened Protocol
  import CacheMap

  // ---------- Kinds of steps ----------

  predicate LookingStep(step: Step) {
    step.LookupStep? || step.SpuriousWake? || step.Recheck?
  }

  predicate AnsweringStep(step: Step) {
    step.ReadDisk? || step.Promote? || step.DropReader?
  }

  /** Steps of a fill before its bytes are written. */
  predicate StartingStep(step: Step) {
    step.Allocate? || step.Generate?
  }

  predicate WriteStep(step: Step) {
    step.Scribble? || step.WriteDisk?
  }

  predicate HandBackStep(step: Step) {
    step.Commit? || step.ReturnZone?
  }

  /** Steps that end a fill, apart from handing its zone back. */
  predicate EndingStep(step: Step) {
    step.ListZone? || step.InsertEntry? || step.UndoZone? || step.FailEntry?
  }

  predicate EvictorStep(step: Step) {
    step.StartEvict? || step.PopVictim? || step.ClearZone? || step.PassDrain? || step.ResetZone? || step.StopEvict?
  }

  // ---------- Only the step's own thread moves ----------

  predicate OthersStay(th: map<Tid, Phase>, th': map<Tid, Phase>, t: Tid) {
    th' - {t} == th - {t}
  }

  lemma SameOthers(th: map<Tid, Phase>, th': map<Tid, Phase>, t: Tid)
    requires OthersStay(th, th', t)
    ensures forall u: Tid :: u != t ==> At(th', u) == At(th, u) && (u in th' <==> u in th)
  {
    forall u: Tid | u != t
      ensures At(th', u) == At(th, u) && (u in th' <==> u in th)
    {
      assert u in th' - {t} <==> u in th';
      assert u in th - {t} <==> u in th;
    }
  }

  lemma LookUpStays(s: State, t: Tid, id: Id)
    ensures OthersStay(s.threads, LookUp(s, t, id).threads, t)
  {
  }

  lemma LookingStays(cfg: Config, s: State, step: Step)
    requires LookingStep(step)
    ensures OthersStay(s.threads, Apply(cfg, s, step).threads, step.t)
  {
    var t, p := step.t, At(s.threads, step.t);
    if step.LookupStep? && p.Idle? {
      LookUpStays(s, t, step.id);
    } else if step.Recheck? && p.Waiting? && p.cond in s.cm.conds {
      LookUpStays(s.(cm := CacheMap.Release(s.cm, p.cond)), t, p.id);
    }
  }

  lemma AnsweringStays(cfg: Config, s: State, step: Step)
    requires AnsweringStep(step)
    ensures OthersStay(s.threads, Apply(cfg, s, step).threads, step.t)
  {
  }

  lemma StartingStays(cfg: Config, s: State, step: Step)
    requires StartingStep(step) || WriteStep(step)
    ensures OthersStay(s.threads, Apply(cfg, s, step).threads, step.t)
  {
  }

  lemma HandBackStays(cfg: Config, s: State, step: Step)
    requires HandBackStep(step)
    ensures OthersStay(s.threads, Apply(cfg, s, step).threads, step.t)
  {
  }

  lemma EndingStays(cfg: Config, s: State, step: Step)
    requires EndingStep(step)
    ensures OthersStay(s.threads, Apply(cfg, s, step).threads, step.t)
  {
  }

  lemma EvictorStays(cfg: Config, s: State, step: Step)
    requires EvictorStep(step)
    ensures OthersStay(s.threads, Apply(cfg, s, step).threads, step.t)
  {
  }

  lemma OthersStayPut(cfg: Config, s: State, step: Step)
    ensures OthersStay(s.threads, Apply(cfg, s, step).threads, step.t)
    ensures forall u: Tid :: u != step.t ==> At(Apply(cfg, s, step).threads, u) == At(s.threads, u)
  {
    if LookingStep(step) {
      LookingStays(cfg, s, step);
    } else if AnsweringStep(step) {
      AnsweringStays(cfg, s, step);
    } else if StartingStep(step) || WriteStep(step) {
      StartingStays(cfg, s, step);
    } else if HandBackStep(step) {
      HandBackStays(cfg, s, step);
    } else if EndingStep(step) {
      EndingStays(cfg, s, step);
    } else {
      EvictorStays(cfg, s, step);
    }
    SameOthers(s.threads, Apply(cfg, s, step).threads, step.t);
  }
}
