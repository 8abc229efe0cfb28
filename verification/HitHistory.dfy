/** Hits traced back through the run that led to them, without its history variables. */
module HitHistory {
  import opened ZnTypes
  import opened Protocol
  import opened StepEffects
  import opened C = CacheMap
  import opened Buffers
  import opened Transparency

  /** The bytes the run last generated for an identifier, read off its steps. */
  ghost function LastGenerated(cfg: Config, steps: seq<Step>, id: Id): Option<Data> {
    if steps == [] then None else
    var before, last := steps[..|steps| - 1], steps[|steps| - 1];
    var s := Exec(cfg, before);
    if Generates(s, last, id)
    then Some(WriteBuffer(id, last.buffer))
    else LastGenerated(cfg, before, id)
  }

  ghost predicate Generates(s: State, step: Step, id: Id) {
    && step.Generate? && !s.aborted && |step.buffer| >= ID_BYTES
    && At(s.threads, step.t).Allocated? && At(s.threads, step.t).id == id
  }

  lemma StepRecords(cfg: Config, s: State, step: Step, id: Id)
    ensures var g, g' := s.lastGen, Apply(cfg, s, step).lastGen;
            if Generates(s, step, id) then id in g' && g'[id] == WriteBuffer(id, step.buffer)
            else (id in g' <==> id in g) && (id in g ==> g'[id] == g[id])
  {
    if !step.Generate? {
      OnlyGenerateRecords(cfg, s, step);
    }
  }

  lemma OnlyGenerateRecords(cfg: Config, s: State, step: Step)
    requires !step.Generate?
    ensures Apply(cfg, s, step).lastGen == s.lastGen
  {
    if EvictorStep(step) {
      EvictorRecordsNothing(cfg, s, step);
    } else if HandBackStep(step) {
      HandBackRecordsNothing(cfg, s, step);
    } else if EndingStep(step) {
      EndingRecordsNothing(cfg, s, step);
    } else {
      LookingRecordsNothing(cfg, s, step);
    }
  }

  lemma EvictorRecordsNothing(cfg: Config, s: State, step: Step)
    requires EvictorStep(step)
    ensures Apply(cfg, s, step).lastGen == s.lastGen
  {
  }

  lemma EndingRecordsNothing(cfg: Config, s: State, step: Step)
    requires EndingStep(step)
    ensures Apply(cfg, s, step).lastGen == s.lastGen
  {
  }

  lemma HandBackRecordsNothing(cfg: Config, s: State, step: Step)
    requires HandBackStep(step)
    ensures Apply(cfg, s, step).lastGen == s.lastGen
  {
  }

  lemma LookingRecordsNothing(cfg: Config, s: State, step: Step)
    requires LookingStep(step) || AnsweringStep(step) || step.Allocate? || WriteStep(step)
    ensures Apply(cfg, s, step).lastGen == s.lastGen
  {
  }

  /** The recorded bytes are those. */
  lemma {:induction false} RecordIsLastGenerated(cfg: Config, steps: seq<Step>, id: Id)
    ensures var g := Exec(cfg, steps).lastGen;
            LastGenerated(cfg, steps, id) == if id in g then Some(g[id]) else None
  {
    if steps != [] {
      var before, last := steps[..|steps| - 1], steps[|steps| - 1];
      RecordIsLastGenerated(cfg, before, id);
      StepRecords(cfg, Exec(cfg, before), last, id);
    }
  }

  // ---------- Readers and answers, traced to the lookup ----------

  predicate IsReader(p: Phase) {
    p.Reading? || p.HaveRead? || p.Promoted?
  }

  /** After the first `n` steps thread `t` is reading for `id`. */
  ghost predicate ReadsAfter(cfg: Config, steps: seq<Step>, n: nat, t: Tid, id: Id) {
    n <= |steps| && IsReader(At(Exec(cfg, steps[..n]).threads, t)) && At(Exec(cfg, steps[..n]).threads, t).id == id
  }

  /** From step `k` until after the first `n` steps thread `t` has been reading for `id`. */
  ghost predicate ReadsSince(cfg: Config, steps: seq<Step>, k: nat, n: nat, t: Tid, id: Id) {
    k < n && ReadsAfter(cfg, steps, n, t, id) && (k + 1 < n ==> ReadsSince(cfg, steps, k, n - 1, t, id))
  }

  /** The step is a lookup in which thread `t` finds where `id` is. */
  predicate Finds(s: State, step: Step, t: Tid, id: Id) {
    && step.t == t && (step.LookupStep? || step.Recheck?)
    && id in s.cm.zoneMap && s.cm.zoneMap[id].Located? && !IsReader(At(s.threads, t))
  }

  /** Step `k` is the lookup in which thread `t` found `id`, when `data` were the bytes last generated
      for it; from then until after the first `n` steps the thread has been reading for it. */
  ghost predicate FoundAt(cfg: Config, steps: seq<Step>, k: nat, n: nat, t: Tid, id: Id, data: Data) {
    && k < n <= |steps| && Finds(Exec(cfg, steps[..k]), steps[k], t, id)
    && LastGenerated(cfg, steps[..k], id) == Some(data)
    && ReadsSince(cfg, steps, k, n, t, id)
  }

  /** Step `m` gives answer number `i`. */
  ghost predicate AnswersAt(cfg: Config, steps: seq<Step>, m: nat, i: nat) {
    && m < |steps| && steps[m].DropReader?
    && |Exec(cfg, steps[..m]).hits| == i && |Exec(cfg, steps[..m + 1]).hits| == i + 1
  }

  ghost predicate ReaderTraced(cfg: Config, steps: seq<Step>, t: Tid) {
    var p := At(Exec(cfg, steps).threads, t);
    IsReader(p) ==> exists k: nat :: FoundAt(cfg, steps, k, |steps|, t, p.id, p.promised)
  }

  ghost predicate HitTraced(cfg: Config, steps: seq<Step>, i: nat)
    requires i < |Exec(cfg, steps).hits|
  {
    var h := Exec(cfg, steps).hits[i];
    exists k: nat, m: nat :: AnswersAt(cfg, steps, m, i) && FoundAt(cfg, steps, k, m, steps[m].t, h.id, h.promised)
  }

  lemma FoundExtends(cfg: Config, steps: seq<Step>, w: nat, k: nat, n: nat, t: Tid, id: Id, data: Data)
    requires w <= |steps| && FoundAt(cfg, steps[..w], k, n, t, id, data)
    ensures FoundAt(cfg, steps, k, n, t, id, data)
  {
    assert steps[..w][..k] == steps[..k];
    ReadingExtends(cfg, steps, w, k, n, t, id);
  }

  lemma {:induction false} ReadingExtends(cfg: Config, steps: seq<Step>, w: nat, k: nat, n: nat, t: Tid, id: Id)
    requires w <= |steps| && ReadsSince(cfg, steps[..w], k, n, t, id)
    ensures ReadsSince(cfg, steps, k, n, t, id)
  {
    assert steps[..w][..n] == steps[..n];
    assert ReadsAfter(cfg, steps, n, t, id);
    if k + 1 < n {
      ReadingExtends(cfg, steps, w, k, n - 1, t, id);
    }
  }

  lemma AnswerExtends(cfg: Config, steps: seq<Step>, w: nat, m: nat, i: nat)
    requires w <= |steps| && AnswersAt(cfg, steps[..w], m, i)
    ensures AnswersAt(cfg, steps, m, i)
  {
    assert steps[..w][..m] == steps[..m] && steps[..w][..m + 1] == steps[..m + 1];
  }

  /** A reader after the step was one before, for the same identifier, or has just found the entry. */
  ghost predicate ReaderFrom(s: State, step: Step, p: Phase, p': Phase) {
    IsReader(p') ==>
      || (IsReader(p) && p.id == p'.id && p.promised == p'.promised)
      || (&& (step.LookupStep? || step.Recheck?) && !IsReader(p)
          && p'.id in s.cm.zoneMap && s.cm.zoneMap[p'.id].Located? && p'.promised == Promise(s.lastGen, p'.id))
  }

  /** An answer is given by a thread about to stop reading. */
  ghost predicate HitsFrom(s: State, s': State, step: Step, p: Phase) {
    || s'.hits == s.hits
    || (step.DropReader? && p.Promoted? && exists d :: s'.hits == s.hits + [HitRecord(p.id, d, p.promised)])
  }

  lemma LookingTraces(cfg: Config, s: State, step: Step)
    requires step.LookupStep? || step.SpuriousWake?
    ensures var s' := Apply(cfg, s, step);
            ReaderFrom(s, step, At(s.threads, step.t), At(s'.threads, step.t)) && s'.hits == s.hits
  {
  }

  lemma RecheckTraces(cfg: Config, s: State, step: Step)
    requires step.Recheck?
    ensures var s' := Apply(cfg, s, step);
            ReaderFrom(s, step, At(s.threads, step.t), At(s'.threads, step.t)) && s'.hits == s.hits
  {
  }

  lemma AnsweringTraces(cfg: Config, s: State, step: Step)
    requires AnsweringStep(step)
    ensures var s', p := Apply(cfg, s, step), At(s.threads, step.t);
            ReaderFrom(s, step, p, At(s'.threads, step.t)) && HitsFrom(s, s', step, p)
  {
    var s' := Apply(cfg, s, step);
    var p := At(s.threads, step.t);
    if step.DropReader? && p.Promoted? && p.read.Some? && s'.hits != s.hits {
      assert s'.hits == s.hits + [HitRecord(p.id, p.read.value, p.promised)];
    }
  }

  lemma StartingTraces(cfg: Config, s: State, step: Step)
    requires StartingStep(step) || WriteStep(step)
    ensures var s' := Apply(cfg, s, step);
            ReaderFrom(s, step, At(s.threads, step.t), At(s'.threads, step.t)) && s'.hits == s.hits
  {
  }

  lemma HandBackTraces(cfg: Config, s: State, step: Step)
    requires HandBackStep(step)
    ensures var s' := Apply(cfg, s, step);
            ReaderFrom(s, step, At(s.threads, step.t), At(s'.threads, step.t)) && s'.hits == s.hits
  {
  }

  lemma EndingTraces(cfg: Config, s: State, step: Step)
    requires EndingStep(step)
    ensures var s' := Apply(cfg, s, step);
            ReaderFrom(s, step, At(s.threads, step.t), At(s'.threads, step.t)) && s'.hits == s.hits
  {
  }

  lemma EvictorTraces(cfg: Config, s: State, step: Step)
    requires EvictorStep(step)
    ensures var s' := Apply(cfg, s, step);
            ReaderFrom(s, step, At(s.threads, step.t), At(s'.threads, step.t)) && s'.hits == s.hits
  {
  }

  lemma StepTraces(cfg: Config, s: State, step: Step)
    ensures var s', p := Apply(cfg, s, step), At(s.threads, step.t);
            && (forall u: Tid :: u != step.t ==> At(s'.threads, u) == At(s.threads, u))
            && ReaderFrom(s, step, p, At(s'.threads, step.t)) && HitsFrom(s, s', step, p)
  {
    OthersStayPut(cfg, s, step);
    if step.LookupStep? || step.SpuriousWake? {
      LookingTraces(cfg, s, step);
    } else if step.Recheck? {
      RecheckTraces(cfg, s, step);
    } else if AnsweringStep(step) {
      AnsweringTraces(cfg, s, step);
    } else if StartingStep(step) || WriteStep(step) {
      StartingTraces(cfg, s, step);
    } else if HandBackStep(step) {
      HandBackTraces(cfg, s, step);
    } else if EndingStep(step) {
      EndingTraces(cfg, s, step);
    } else {
      EvictorTraces(cfg, s, step);
    }
  }

  // ---------- One more step ----------

  /** A thread that was reading and still is was traced already. */
  lemma StillReading(cfg: Config, steps: seq<Step>, n: nat, t: Tid, id: Id, data: Data)
    requires |steps| == n + 1 && ReadsAfter(cfg, steps, n + 1, t, id)
    requires exists k: nat :: FoundAt(cfg, steps[..n], k, n, t, id, data)
    ensures exists k: nat :: FoundAt(cfg, steps, k, |steps|, t, id, data)
  {
    var k: nat :| FoundAt(cfg, steps[..n], k, n, t, id, data);
    FoundExtends(cfg, steps, n, k, n, t, id, data);
    assert FoundAt(cfg, steps, k, n + 1, t, id, data);
  }

  /** What is promised for a located identifier was generated last for it. */
  lemma FoundWasGenerated(cfg: Config, steps: seq<Step>, id: Id)
    requires cfg.Valid() && IntactRun(cfg, steps)
    requires id in Exec(cfg, steps).cm.zoneMap && Exec(cfg, steps).cm.zoneMap[id].Located?
    ensures LastGenerated(cfg, steps, id) == Some(Promise(Exec(cfg, steps).lastGen, id))
  {
    var s := Exec(cfg, steps);
    IntactRunKeepsData(cfg, steps);
    RecordIsLastGenerated(cfg, steps, id);
    assert IsLocated(s.cm, id, s.cm.zoneMap[id].loc);
  }

  /** A thread that has just found an entry is traced to that step. */
  lemma JustFound(cfg: Config, steps: seq<Step>, n: nat, t: Tid, id: Id, data: Data)
    requires |steps| == n + 1 && ReadsAfter(cfg, steps, n + 1, t, id)
    requires Finds(Exec(cfg, steps[..n]), steps[n], t, id) && LastGenerated(cfg, steps[..n], id) == Some(data)
    ensures FoundAt(cfg, steps, n, n + 1, t, id, data)
  {
  }

  lemma ReaderStepTraced(cfg: Config, steps: seq<Step>, n: nat, t: Tid)
    requires |steps| == n + 1 && cfg.Valid() && IntactRun(cfg, steps[..n]) && ReaderTraced(cfg, steps[..n], t)
    ensures ReaderTraced(cfg, steps, t)
  {
    var s := Exec(cfg, steps[..n]);
    var p, p' := At(s.threads, t), At(Exec(cfg, steps).threads, t);
    StepTraces(cfg, s, steps[n]);
    if IsReader(p') {
      assert steps[..n + 1] == steps;
      if IsReader(p) && p.id == p'.id && p.promised == p'.promised {
        StillReading(cfg, steps, n, t, p.id, p.promised);
      } else {
        FoundWasGenerated(cfg, steps[..n], p'.id);
        JustFound(cfg, steps, n, t, p'.id, p'.promised);
      }
    }
  }

  lemma OldHitTraced(cfg: Config, steps: seq<Step>, n: nat, i: nat)
    requires n <= |steps| && i < |Exec(cfg, steps[..n]).hits| && HitTraced(cfg, steps[..n], i)
    requires i < |Exec(cfg, steps).hits| && Exec(cfg, steps).hits[i] == Exec(cfg, steps[..n]).hits[i]
    ensures HitTraced(cfg, steps, i)
  {
    var h := Exec(cfg, steps).hits[i];
    var k: nat, m: nat :|
      AnswersAt(cfg, steps[..n], m, i) && FoundAt(cfg, steps[..n], k, m, steps[m].t, h.id, h.promised);
    AnswerExtends(cfg, steps, n, m, i);
    FoundExtends(cfg, steps, n, k, m, steps[m].t, h.id, h.promised);
  }

  lemma JustAnswered(cfg: Config, steps: seq<Step>, m: nat, i: nat)
    requires |steps| == m + 1 && steps[m].DropReader?
    requires |Exec(cfg, steps[..m]).hits| == i && |Exec(cfg, steps).hits| == i + 1
    ensures AnswersAt(cfg, steps, m, i)
  {
    assert steps[..m + 1] == steps;
  }

  lemma NewHitTraced(cfg: Config, steps: seq<Step>, k: nat, m: nat, i: nat)
    requires i < |Exec(cfg, steps).hits| && AnswersAt(cfg, steps, m, i)
    requires FoundAt(cfg, steps, k, m, steps[m].t, Exec(cfg, steps).hits[i].id, Exec(cfg, steps).hits[i].promised)
    ensures HitTraced(cfg, steps, i)
  {
  }

  /** The answer a step adds, if any, is its thread's. */
  lemma NewAnswer(cfg: Config, s: State, step: Step)
    requires Apply(cfg, s, step).hits != s.hits
    ensures var s', p := Apply(cfg, s, step), At(s.threads, step.t);
            && step.DropReader? && IsReader(p) && |s'.hits| == |s.hits| + 1 && s'.hits[..|s.hits|] == s.hits
            && s'.hits[|s.hits|].id == p.id && s'.hits[|s.hits|].promised == p.promised
  {
    StepTraces(cfg, s, step);
  }

  lemma HitStepTraced(cfg: Config, steps: seq<Step>, n: nat, i: nat)
    requires |steps| == n + 1 && i < |Exec(cfg, steps).hits| && ReaderTraced(cfg, steps[..n], steps[n].t)
    requires i < |Exec(cfg, steps[..n]).hits| ==> HitTraced(cfg, steps[..n], i)
    ensures HitTraced(cfg, steps, i)
  {
    var s, t := Exec(cfg, steps[..n]), steps[n].t;
    var p := At(s.threads, t);
    if Apply(cfg, s, steps[n]).hits != s.hits {
      NewAnswer(cfg, s, steps[n]);
    }
    if i < |s.hits| {
      OldHitTraced(cfg, steps, n, i);
    } else {
      var k: nat :| FoundAt(cfg, steps[..n], k, n, t, p.id, p.promised);
      FoundExtends(cfg, steps, n, k, n, t, p.id, p.promised);
      JustAnswered(cfg, steps, n, i);
      NewHitTraced(cfg, steps, k, n, i);
    }
  }

  // ---------- Runs ----------

  ghost predicate RunTraced(cfg: Config, steps: seq<Step>) {
    && (forall t: Tid :: ReaderTraced(cfg, steps, t))
    && (forall i: nat :: i < |Exec(cfg, steps).hits| ==> HitTraced(cfg, steps, i))
  }

  lemma OneMoreTraced(cfg: Config, steps: seq<Step>)
    requires cfg.Valid() && steps != []
    requires IntactRun(cfg, steps[..|steps| - 1]) && RunTraced(cfg, steps[..|steps| - 1])
    ensures RunTraced(cfg, steps)
  {
    var n := |steps| - 1;
    forall t: Tid
      ensures ReaderTraced(cfg, steps, t)
    {
      assert ReaderTraced(cfg, steps[..n], t);
      ReaderStepTraced(cfg, steps, n, t);
    }
    forall i: nat | i < |Exec(cfg, steps).hits|
      ensures HitTraced(cfg, steps, i)
    {
      assert ReaderTraced(cfg, steps[..n], steps[n].t);
      assert i < |Exec(cfg, steps[..n]).hits| ==> HitTraced(cfg, steps[..n], i);
      HitStepTraced(cfg, steps, n, i);
    }
  }

  lemma NothingTraced(cfg: Config, steps: seq<Step>)
    requires steps == []
    ensures RunTraced(cfg, steps)
  {
    assert forall t: Tid :: At(Exec(cfg, steps).threads, t) == Idle;
  }

  lemma {:induction false} RunTraces(cfg: Config, steps: seq<Step>)
    requires cfg.Valid() && IntactRun(cfg, steps)
    ensures RunTraced(cfg, steps)
  {
    if steps == [] {
      NothingTraced(cfg, steps);
    } else {
      IntactPrefix(cfg, steps);
      RunTraces(cfg, steps[..|steps| - 1]);
      OneMoreTraced(cfg, steps);
    }
  }

  /** In every run that publishes intact chunks, each answer consists of the bytes that were the last
      ones generated for its identifier at the lookup in which the answering thread found it. */
  lemma HitsAreTransparent(cfg: Config, steps: seq<Step>, i: nat)
    requires cfg.Valid() && IntactRun(cfg, steps) && i < |Exec(cfg, steps).hits|
    ensures var h := Exec(cfg, steps).hits[i];
            exists k: nat, m: nat :: AnswersAt(cfg, steps, m, i) && FoundAt(cfg, steps, k, m, steps[m].t, h.id, h.data)
  {
    HitsReturnLastGenerated(cfg, steps, i);
    RunTraces(cfg, steps);
    assert HitTraced(cfg, steps, i);
  }

  lemma HitWasGenerated(cfg: Config, steps: seq<Step>, i: nat) returns (k: nat)
    requires cfg.Valid() && IntactRun(cfg, steps) && i < |Exec(cfg, steps).hits|
    ensures var h := Exec(cfg, steps).hits[i];
            k <= |steps| && LastGenerated(cfg, steps[..k], h.id) == Some(h.data)
  {
    HitsAreTransparent(cfg, steps, i);
    var h := Exec(cfg, steps).hits[i];
    var m: nat;
    k, m :| AnswersAt(cfg, steps, m, i) && FoundAt(cfg, steps, k, m, steps[m].t, h.id, h.data);
  }

  lemma {:induction false} GeneratedFrom(cfg: Config, steps: seq<Step>, id: Id, buffer: Data)
    requires |buffer| >= ID_BYTES
    requires forall i :: 0 <= i < |steps| && steps[i].Generate? ==> steps[i].buffer == buffer
    ensures LastGenerated(cfg, steps, id).Some? ==> LastGenerated(cfg, steps, id).value == WriteBuffer(id, buffer)
  {
    if steps != [] {
      GeneratedFrom(cfg, steps[..|steps| - 1], id, buffer);
    }
  }

  /** In such a run, when all requests pass the same remote data, as the worker threads do, every hit
      passes the check they make on it. */
  lemma HitsValidate(cfg: Config, steps: seq<Step>, buffer: Data, i: nat)
    requires cfg.Valid() && IntactRun(cfg, steps) && i < |Exec(cfg, steps).hits|
    requires |buffer| >= ID_BYTES
    requires forall j :: 0 <= j < |steps| && steps[j].Generate? ==> steps[j].buffer == buffer
    ensures var h := Exec(cfg, steps).hits[i];
            |h.data| == |buffer| && Validates(h.data, h.id, buffer)
  {
    var h := Exec(cfg, steps).hits[i];
    var k := HitWasGenerated(cfg, steps, i);
    GeneratedFrom(cfg, steps[..k], h.id, buffer);
    ValidatesExactly(h.data, h.id, buffer);
  }
}
