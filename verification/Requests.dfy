/** What every request of every run comes to: it is answered from the cache, or its chunk is published,
    or it returns nothing because a command of the device failed. */
module Requests {
  import opened ZnTypes
  import opened Protocol
  import opened StepEffects
  import opened C = CacheMap
  import opened FillOwnership
  import opened Z = ZoneState
  import opened Interleavings
  import opened FineRuns
  import opened Completion

  /** The identifier a thread's request asks for; an eviction of its own has none. */
  function Asks(p: Phase): Option<Id> {
    match p
    case Waiting(id, _) => Some(id)
    case Reading(id, _, _) => Some(id)
    case HaveRead(id, _, _, _) => Some(id)
    case Promoted(id, _, _, _) => Some(id)
    case _ => Fills(p)
  }

  ghost predicate AsksAfter(cfg: Config, steps: seq<Step>, n: nat, t: Tid, id: Id) {
    n <= |steps| && Asks(At(Exec(cfg, steps[..n]).threads, t)) == Some(id)
  }

  /** Step `k` is the call of an idle thread for the identifier. */
  ghost predicate CallsAt(cfg: Config, steps: seq<Step>, k: nat, t: Tid, id: Id) {
    k < |steps| && steps[k] == LookupStep(t, id) && At(Exec(cfg, steps[..k]).threads, t).Idle?
  }

  /** With step `k` the thread began a request, which is not over after the first `n` steps. */
  ghost predicate Serves(cfg: Config, steps: seq<Step>, k: nat, n: nat, t: Tid, id: Id) {
    CallsAt(cfg, steps, k, t, id) && k < n && forall m: nat :: k < m <= n ==> AsksAfter(cfg, steps, m, t, id)
  }

  // ---------- What a request may have behind it ----------

  /** Step `j` is a lookup of the thread that finds the identifier at the location. */
  ghost predicate LocatesAt(cfg: Config, steps: seq<Step>, j: nat, t: Tid, id: Id, loc: Loc) {
    && j < |steps| && steps[j].t == t && (steps[j].LookupStep? || steps[j].Recheck?)
    && IsLocated(Exec(cfg, steps[..j]).cm, id, loc)
  }

  /** In step `r` the thread reads the location from the disk, or fails to. */
  ghost predicate ReadsAt(cfg: Config, steps: seq<Step>, r: nat, t: Tid, loc: Loc) {
    && r < |steps| && steps[r].ReadDisk? && steps[r].t == t
    && At(Exec(cfg, steps[..r]).threads, t).Reading? && At(Exec(cfg, steps[..r]).threads, t).loc == loc
  }

  /** In step `q` it tells the policy. */
  ghost predicate TellsAt(cfg: Config, steps: seq<Step>, q: nat, t: Tid, loc: Loc) {
    && q < |steps| && steps[q] == Promote(t)
    && At(Exec(cfg, steps[..q]).threads, t).HaveRead? && At(Exec(cfg, steps[..q]).threads, t).loc == loc
  }

  /** What a read in step `r` brings. */
  ghost function ReadBy(cfg: Config, steps: seq<Step>, r: nat, loc: Loc): Option<Data>
    requires r < |steps| && steps[r].ReadDisk?
  {
    if steps[r].ok then Some(Peek(Exec(cfg, steps[..r]).disk, loc)) else None
  }

  /** In step `j` the thread writes the bytes to the location. */
  ghost predicate WritesAt(cfg: Config, steps: seq<Step>, j: nat, t: Tid, id: Id, loc: Loc, data: Data) {
    && j < |steps| && steps[j] == WriteDisk(t, true) && At(Exec(cfg, steps[..j]).threads, t) == Writing(id, loc, data)
  }

  /** In step `j` the device fails to write the thread's chunk, or to open the zone it was to be given. */
  ghost predicate FailsAt(cfg: Config, steps: seq<Step>, j: nat, t: Tid) {
    j < |steps| && steps[j].t == t && Fails(cfg, Exec(cfg, steps[..j]), steps[j])
  }

  ghost predicate Fails(cfg: Config, s: State, step: Step) {
    || (step.WriteDisk? && !step.ok && At(s.threads, step.t).Writing?)
    || (exists z: nat :: FailsToOpen(cfg, s, step, z))
  }

  /** Lookup, read and word to the policy of a request begun in step `k`, in this order. */
  ghost predicate Looked(cfg: Config, steps: seq<Step>, k: nat, j: nat, t: Tid, id: Id, loc: Loc, promised: Data) {
    k <= j && LocatesAt(cfg, steps, j, t, id, loc) && promised == Promise(Exec(cfg, steps[..j]).lastGen, id)
  }

  ghost predicate HasRead(cfg: Config, steps: seq<Step>, k: nat, j: nat, r: nat, t: Tid, id: Id, loc: Loc,
                          promised: Data, read: Option<Data>)
  {
    Looked(cfg, steps, k, j, t, id, loc, promised) && j < r && ReadsAt(cfg, steps, r, t, loc)
    && read == ReadBy(cfg, steps, r, loc)
  }

  ghost predicate HasTold(cfg: Config, steps: seq<Step>, k: nat, j: nat, r: nat, q: nat, t: Tid, id: Id, loc: Loc,
                          promised: Data, read: Option<Data>)
  {
    HasRead(cfg, steps, k, j, r, t, id, loc, promised, read) && r < q && TellsAt(cfg, steps, q, t, loc)
  }

  ghost predicate HasWritten(cfg: Config, steps: seq<Step>, k: nat, j: nat, t: Tid, id: Id, loc: Loc, data: Data) {
    k < j && WritesAt(cfg, steps, j, t, id, loc, data)
  }

  ghost predicate HasFailed(cfg: Config, steps: seq<Step>, k: nat, j: nat, t: Tid) {
    k < j && FailsAt(cfg, steps, j, t)
  }

  /** What a thread in the given phase of a request begun in step `k` has behind it. */
  ghost predicate Behind(cfg: Config, steps: seq<Step>, k: nat, t: Tid, p: Phase) {
    match p
    case Reading(id, loc, promised) => exists j: nat :: Looked(cfg, steps, k, j, t, id, loc, promised)
    case HaveRead(id, loc, promised, read) =>
      exists j: nat, r: nat :: HasRead(cfg, steps, k, j, r, t, id, loc, promised, read)
    case Promoted(id, loc, promised, read) =>
      exists j: nat, r: nat, q: nat :: HasTold(cfg, steps, k, j, r, q, t, id, loc, promised, read)
    case Written(id, loc, data) => exists j: nat :: HasWritten(cfg, steps, k, j, t, id, loc, data)
    case Returned(id, loc, data) => exists j: nat :: HasWritten(cfg, steps, k, j, t, id, loc, data)
    case Listed(id, loc, data) => exists j: nat :: HasWritten(cfg, steps, k, j, t, id, loc, data)
    case Undoing(_, _) => exists j: nat :: HasFailed(cfg, steps, k, j, t)
    case Failing(_) => exists j: nat :: HasFailed(cfg, steps, k, j, t)
    case _ => true
  }

  // ---------- One step ----------

  /** Where the phase after a step comes from. */
  ghost predicate ComesFrom(cfg: Config, s: State, step: Step, p: Phase, p': Phase) {
    match p'
    case Reading(id, loc, promised) =>
      && (step.LookupStep? || step.Recheck?) && IsLocated(s.cm, id, loc) && promised == Promise(s.lastGen, id)
    case HaveRead(id, loc, promised, read) =>
      && step.ReadDisk? && p == Reading(id, loc, promised)
      && read == if step.ok then Some(Peek(s.disk, loc)) else None
    case Promoted(id, loc, promised, read) => step.Promote? && p == HaveRead(id, loc, promised, read)
    case Written(id, loc, data) => step.WriteDisk? && step.ok && p == Writing(id, loc, data)
    case Returned(id, loc, data) => p == Written(id, loc, data)
    case Listed(id, loc, data) => p == Returned(id, loc, data) || p == Written(id, loc, data)
    case Undoing(_, _) => Fails(cfg, s, step)
    case Failing(_) => p.Undoing? || Fails(cfg, s, step)
    case _ => true
  }

  /** The thread goes on with what it was asked until it is idle, or is called. */
  predicate KeepsAsking(step: Step, p: Phase, p': Phase) {
    && (Asks(p').Some? ==> Asks(p) == Asks(p') || (step.LookupStep? && p.Idle? && Asks(p') == Some(step.id)))
    && (Asks(p).Some? ==> p'.Idle? || Asks(p') == Asks(p))
  }

  ghost predicate Follows(cfg: Config, s: State, step: Step) {
    var p, p' := At(s.threads, step.t), At(Apply(cfg, s, step).threads, step.t);
    KeepsAsking(step, p, p') && (p' == p || ComesFrom(cfg, s, step, p, p'))
  }

  lemma LookupFollows(cfg: Config, s: State, step: Step)
    requires step.LookupStep? || step.SpuriousWake?
    ensures Follows(cfg, s, step)
  {
  }

  lemma RecheckFollows(cfg: Config, s: State, step: Step)
    requires step.Recheck?
    ensures Follows(cfg, s, step)
  {
  }

  lemma AnsweringFollows(cfg: Config, s: State, step: Step)
    requires AnsweringStep(step)
    ensures Follows(cfg, s, step)
  {
  }

  /** The allocator reports an error only when the device does not open a zone. */
  lemma ErrorFails(cfg: Config, s: State, step: Step)
    requires step.Allocate? && At(s.threads, step.t).Allocating? && !s.aborted && GetActiveOk(cfg, s.zsm)
    ensures GetActive(cfg, s.zsm, step.ok).1.Error? ==> Fails(cfg, s, step)
  {
    if GetActive(cfg, s.zsm, step.ok).1.Error? {
      assert FailsToOpen(cfg, s, step, s.zsm.free[0]);
    }
  }

  lemma AllocateFollows(cfg: Config, s: State, step: Step)
    requires step.Allocate?
    ensures Follows(cfg, s, step)
  {
    if At(s.threads, step.t).Allocating? && !s.aborted && GetActiveOk(cfg, s.zsm) {
      ErrorFails(cfg, s, step);
    }
  }

  lemma WritingFollows(cfg: Config, s: State, step: Step)
    requires step.Generate? || WriteStep(step)
    ensures Follows(cfg, s, step)
  {
  }

  lemma HandBackFollows(cfg: Config, s: State, step: Step)
    requires HandBackStep(step)
    ensures Follows(cfg, s, step)
  {
  }

  lemma EndingFollows(cfg: Config, s: State, step: Step)
    requires EndingStep(step)
    ensures Follows(cfg, s, step)
  {
  }

  lemma EvictorFollows(cfg: Config, s: State, step: Step)
    requires EvictorStep(step)
    ensures Follows(cfg, s, step)
  {
    if step.PopVictim? || step.StopEvict? {
      ResumingFollows(cfg, s, step);
    } else if step.StartEvict? || step.PassDrain? {
      MovingFollows(cfg, s, step);
    } else if step.ClearZone? {
      ClearingFollows(cfg, s, step);
    } else {
      ResettingFollows(cfg, s, step);
    }
  }

  lemma ResettingFollows(cfg: Config, s: State, step: Step)
    requires step.ResetZone?
    ensures Follows(cfg, s, step)
  {
  }

  lemma MovingFollows(cfg: Config, s: State, step: Step)
    requires step.StartEvict? || step.PassDrain?
    ensures Follows(cfg, s, step)
  {
  }

  lemma ResumingFollows(cfg: Config, s: State, step: Step)
    requires step.PopVictim? || step.StopEvict?
    ensures Follows(cfg, s, step)
  {
  }

  lemma ClearingFollows(cfg: Config, s: State, step: Step)
    requires step.ClearZone?
    ensures Follows(cfg, s, step)
  {
  }

  lemma StepFollows(cfg: Config, s: State, step: Step)
    ensures Follows(cfg, s, step)
  {
    if step.LookupStep? || step.SpuriousWake? {
      LookupFollows(cfg, s, step);
    } else if step.Recheck? {
      RecheckFollows(cfg, s, step);
    } else if AnsweringStep(step) {
      AnsweringFollows(cfg, s, step);
    } else if step.Allocate? {
      AllocateFollows(cfg, s, step);
    } else if step.Generate? || WriteStep(step) {
      WritingFollows(cfg, s, step);
    } else if HandBackStep(step) {
      HandBackFollows(cfg, s, step);
    } else if EndingStep(step) {
      EndingFollows(cfg, s, step);
    } else {
      EvictorFollows(cfg, s, step);
    }
  }

  // ---------- One more step ----------

  lemma LookedExtends(cfg: Config, steps: seq<Step>, n: nat, k: nat, j: nat, t: Tid, id: Id, loc: Loc, promised: Data)
    requires n <= |steps| && Looked(cfg, steps[..n], k, j, t, id, loc, promised)
    ensures Looked(cfg, steps, k, j, t, id, loc, promised)
  {
    assert steps[..n][..j] == steps[..j];
  }

  lemma ReadExtends(cfg: Config, steps: seq<Step>, n: nat, k: nat, j: nat, r: nat, t: Tid, id: Id, loc: Loc,
                    promised: Data, read: Option<Data>)
    requires n <= |steps| && HasRead(cfg, steps[..n], k, j, r, t, id, loc, promised, read)
    ensures HasRead(cfg, steps, k, j, r, t, id, loc, promised, read)
  {
    LookedExtends(cfg, steps, n, k, j, t, id, loc, promised);
    assert steps[..n][..r] == steps[..r];
  }

  lemma ToldExtends(cfg: Config, steps: seq<Step>, n: nat, k: nat, j: nat, r: nat, q: nat, t: Tid, id: Id, loc: Loc,
                    promised: Data, read: Option<Data>)
    requires n <= |steps| && HasTold(cfg, steps[..n], k, j, r, q, t, id, loc, promised, read)
    ensures HasTold(cfg, steps, k, j, r, q, t, id, loc, promised, read)
  {
    ReadExtends(cfg, steps, n, k, j, r, t, id, loc, promised, read);
    assert steps[..n][..q] == steps[..q];
  }

  lemma WrittenExtends(cfg: Config, steps: seq<Step>, n: nat, k: nat, j: nat, t: Tid, id: Id, loc: Loc, data: Data)
    requires n <= |steps| && HasWritten(cfg, steps[..n], k, j, t, id, loc, data)
    ensures HasWritten(cfg, steps, k, j, t, id, loc, data)
  {
    assert steps[..n][..j] == steps[..j];
  }

  lemma FailedExtends(cfg: Config, steps: seq<Step>, n: nat, k: nat, j: nat, t: Tid)
    requires n <= |steps| && HasFailed(cfg, steps[..n], k, j, t)
    ensures HasFailed(cfg, steps, k, j, t)
  {
    assert steps[..n][..j] == steps[..j];
  }

  /** What was behind a request stays behind it. */
  lemma BehindExtends(cfg: Config, steps: seq<Step>, n: nat, k: nat, t: Tid, p: Phase)
    requires n <= |steps| && Behind(cfg, steps[..n], k, t, p)
    ensures Behind(cfg, steps, k, t, p)
  {
    if p.Reading? {
      var j: nat :| Looked(cfg, steps[..n], k, j, t, p.id, p.loc, p.promised);
      LookedExtends(cfg, steps, n, k, j, t, p.id, p.loc, p.promised);
    } else if p.HaveRead? {
      var j: nat, r: nat :| HasRead(cfg, steps[..n], k, j, r, t, p.id, p.loc, p.promised, p.read);
      ReadExtends(cfg, steps, n, k, j, r, t, p.id, p.loc, p.promised, p.read);
    } else if p.Promoted? {
      var j: nat, r: nat, q: nat :| HasTold(cfg, steps[..n], k, j, r, q, t, p.id, p.loc, p.promised, p.read);
      ToldExtends(cfg, steps, n, k, j, r, q, t, p.id, p.loc, p.promised, p.read);
    } else if p.Written? || p.Returned? || p.Listed? {
      var j: nat :| HasWritten(cfg, steps[..n], k, j, t, p.id, p.loc, p.data);
      WrittenExtends(cfg, steps, n, k, j, t, p.id, p.loc, p.data);
    } else if p.Undoing? || p.Failing? {
      var j: nat :| HasFailed(cfg, steps[..n], k, j, t);
      FailedExtends(cfg, steps, n, k, j, t);
    }
  }

  /** A reader that has just read has the step behind it as well. */
  lemma ReadBehind(cfg: Config, steps: seq<Step>, n: nat, k: nat, p: Phase, p': Phase)
    requires |steps| == n + 1 && p == At(Exec(cfg, steps[..n]).threads, steps[n].t)
    requires Behind(cfg, steps[..n], k, steps[n].t, p) && ComesFrom(cfg, Exec(cfg, steps[..n]), steps[n], p, p')
    requires p'.HaveRead?
    ensures Behind(cfg, steps, k, steps[n].t, p')
  {
    var t := steps[n].t;
    var j: nat :| Looked(cfg, steps[..n], k, j, t, p.id, p.loc, p.promised);
    LookedExtends(cfg, steps, n, k, j, t, p.id, p.loc, p.promised);
    assert HasRead(cfg, steps, k, j, n, t, p'.id, p'.loc, p'.promised, p'.read);
  }

  /** So has one that has just told the policy. */
  lemma ToldBehind(cfg: Config, steps: seq<Step>, n: nat, k: nat, p: Phase, p': Phase)
    requires |steps| == n + 1 && p == At(Exec(cfg, steps[..n]).threads, steps[n].t)
    requires Behind(cfg, steps[..n], k, steps[n].t, p) && ComesFrom(cfg, Exec(cfg, steps[..n]), steps[n], p, p')
    requires p'.Promoted?
    ensures Behind(cfg, steps, k, steps[n].t, p')
  {
    var t := steps[n].t;
    var j: nat, r: nat :| HasRead(cfg, steps[..n], k, j, r, t, p.id, p.loc, p.promised, p.read);
    ReadExtends(cfg, steps, n, k, j, r, t, p.id, p.loc, p.promised, p.read);
    assert HasTold(cfg, steps, k, j, r, n, t, p'.id, p'.loc, p'.promised, p'.read);
  }

  /** So has one that has just found its entry. */
  lemma LookedBehind(cfg: Config, steps: seq<Step>, n: nat, k: nat, p: Phase, p': Phase)
    requires |steps| == n + 1 && k <= n && ComesFrom(cfg, Exec(cfg, steps[..n]), steps[n], p, p') && p'.Reading?
    ensures Behind(cfg, steps, k, steps[n].t, p')
  {
    assert Looked(cfg, steps, k, n, steps[n].t, p'.id, p'.loc, p'.promised);
  }

  /** The same for a filler. */
  lemma FillerBehind(cfg: Config, steps: seq<Step>, n: nat, k: nat, p: Phase, p': Phase)
    requires |steps| == n + 1 && k < n && p == At(Exec(cfg, steps[..n]).threads, steps[n].t)
    requires Behind(cfg, steps[..n], k, steps[n].t, p) && ComesFrom(cfg, Exec(cfg, steps[..n]), steps[n], p, p')
    requires !p'.Reading? && !p'.HaveRead? && !p'.Promoted?
    ensures Behind(cfg, steps, k, steps[n].t, p')
  {
    var t := steps[n].t;
    if p'.Written? {
      assert HasWritten(cfg, steps, k, n, t, p'.id, p'.loc, p'.data);
    } else if p'.Returned? || p'.Listed? {
      BehindExtends(cfg, steps, n, k, t, p);
    } else if (p'.Undoing? || p'.Failing?) && Fails(cfg, Exec(cfg, steps[..n]), steps[n]) {
      assert HasFailed(cfg, steps, k, n, t);
    } else if p'.Failing? {
      BehindExtends(cfg, steps, n, k, t, p);
    }
  }

  lemma ServesExtends(cfg: Config, steps: seq<Step>, n: nat, k: nat, t: Tid, id: Id)
    requires |steps| == n + 1 && Serves(cfg, steps[..n], k, n, t, id) && AsksAfter(cfg, steps, n + 1, t, id)
    ensures Serves(cfg, steps, k, n + 1, t, id)
  {
    assert steps[..n][..k] == steps[..k];
    forall m: nat | k < m <= n + 1
      ensures AsksAfter(cfg, steps, m, t, id)
    {
      if m <= n {
        assert AsksAfter(cfg, steps[..n], m, t, id);
        assert steps[..n][..m] == steps[..m];
      }
    }
  }

  // ---------- Every request ----------

  /** The thread's request began in a step of its own, and what its phase claims is behind it. */
  ghost predicate Accounted(cfg: Config, steps: seq<Step>, t: Tid) {
    var p := At(Exec(cfg, steps).threads, t);
    Asks(p).Some? ==>
      exists k: nat :: Serves(cfg, steps, k, |steps|, t, Asks(p).value) && Behind(cfg, steps, k, t, p)
  }

  /** A request that is called now. */
  lemma CalledNow(cfg: Config, steps: seq<Step>, n: nat)
    requires |steps| == n + 1 && At(Exec(cfg, steps[..n]).threads, steps[n].t).Idle? && steps[n].LookupStep?
    requires Asks(At(Exec(cfg, steps).threads, steps[n].t)) == Some(steps[n].id)
    ensures Accounted(cfg, steps, steps[n].t)
  {
    var t, id, p' := steps[n].t, steps[n].id, At(Exec(cfg, steps).threads, steps[n].t);
    assert steps[..n + 1] == steps;
    assert AsksAfter(cfg, steps, n + 1, t, id);
    assert Serves(cfg, steps, n, n + 1, t, id);
    StepFollows(cfg, Exec(cfg, steps[..n]), steps[n]);
    CalledPhase(cfg, Exec(cfg, steps[..n]), steps[n]);
    if p'.Reading? {
      LookedBehind(cfg, steps, n, n, Idle, p');
    }
  }

  lemma CalledPhase(cfg: Config, s: State, step: Step)
    requires At(s.threads, step.t).Idle? && step.LookupStep?
    ensures var p' := At(Apply(cfg, s, step).threads, step.t);
            p'.Idle? || p'.Reading? || p'.Waiting? || p'.Allocating?
  {
  }

  lemma GoesOnAsking(cfg: Config, steps: seq<Step>, n: nat, t: Tid, id: Id)
    requires |steps| == n + 1 && Accounted(cfg, steps[..n], t)
    requires Asks(At(Exec(cfg, steps[..n]).threads, t)) == Some(id) == Asks(At(Exec(cfg, steps).threads, t))
    ensures Accounted(cfg, steps, t)
  {
    var s, p, p' := Exec(cfg, steps[..n]), At(Exec(cfg, steps[..n]).threads, t), At(Exec(cfg, steps).threads, t);
    var k: nat :| Serves(cfg, steps[..n], k, n, t, id) && Behind(cfg, steps[..n], k, t, p);
    assert steps[..n + 1] == steps;
    assert AsksAfter(cfg, steps, n + 1, t, id);
    ServesExtends(cfg, steps, n, k, t, id);
    if p' == p {
      BehindExtends(cfg, steps, n, k, t, p);
    } else {
      OthersStayPut(cfg, s, steps[n]);
      StepFollows(cfg, s, steps[n]);
      if p'.Reading? {
        LookedBehind(cfg, steps, n, k, p, p');
      } else if p'.HaveRead? {
        ReadBehind(cfg, steps, n, k, p, p');
      } else if p'.Promoted? {
        ToldBehind(cfg, steps, n, k, p, p');
      } else {
        FillerBehind(cfg, steps, n, k, p, p');
      }
    }
  }

  /** In every run a thread that serves a request was called for it when it was idle, and its lookup,
      read, word to the policy, write or failed command lies between the call and now. */
  lemma {:induction false} EveryRequest(cfg: Config, steps: seq<Step>, t: Tid)
    ensures Accounted(cfg, steps, t)
  {
    if steps != [] {
      var n := |steps| - 1;
      var s, p, p' := Exec(cfg, steps[..n]), At(Exec(cfg, steps[..n]).threads, t), At(Exec(cfg, steps).threads, t);
      EveryRequest(cfg, steps[..n], t);
      OthersStayPut(cfg, s, steps[n]);
      StepFollows(cfg, s, steps[n]);
      if Asks(p').Some? {
        if Asks(p) == Asks(p') {
          GoesOnAsking(cfg, steps, n, t, Asks(p).value);
        } else {
          CalledNow(cfg, steps, n);
        }
      }
    }
  }

  // ---------- How requests end ----------

  /** The request of the thread in phase `p` is over with this step. */
  ghost predicate Over(cfg: Config, s: State, step: Step, p: Phase) {
    var s' := Apply(cfg, s, step);
    || (step.DropReader? && p.Promoted?
        && s'.hits == s.hits + if p.read.Some? then [HitRecord(p.id, p.read.value, p.promised)] else [])
    || (((step.Commit? && p.Written?) || (step.InsertEntry? && p.Listed?))
        && s'.hits == s.hits && IsLocated(s'.cm, p.id, p.loc))
    || (step.FailEntry? && p.Failing? && s'.hits == s.hits && p.id !in s'.cm.zoneMap)
  }

  lemma AnswerOver(cfg: Config, s: State, step: Step)
    requires AnsweringStep(step) || LookingStep(step)
    requires Asks(At(s.threads, step.t)).Some? && At(Apply(cfg, s, step).threads, step.t).Idle?
    ensures Over(cfg, s, step, At(s.threads, step.t))
  {
  }

  lemma FillOver(cfg: Config, s: State, step: Step)
    requires StartingStep(step) || WriteStep(step) || EndingStep(step)
    requires Asks(At(s.threads, step.t)).Some? && At(Apply(cfg, s, step).threads, step.t).Idle?
    ensures Over(cfg, s, step, At(s.threads, step.t))
  {
  }

  lemma CommitOver(cfg: Config, s: State, step: Step)
    requires HandBackStep(step)
    requires Asks(At(s.threads, step.t)).Some? && At(Apply(cfg, s, step).threads, step.t).Idle?
    ensures Over(cfg, s, step, At(s.threads, step.t))
  {
  }

  /** A request that evicts goes back to its entry. */
  lemma EvictionNotOver(cfg: Config, s: State, step: Step)
    requires EvictorStep(step) && Asks(At(s.threads, step.t)).Some?
    ensures !At(Apply(cfg, s, step).threads, step.t).Idle?
  {
  }

  lemma EndsOver(cfg: Config, s: State, step: Step)
    requires Asks(At(s.threads, step.t)).Some? && At(Apply(cfg, s, step).threads, step.t).Idle?
    ensures Over(cfg, s, step, At(s.threads, step.t))
  {
    if AnsweringStep(step) || LookingStep(step) {
      AnswerOver(cfg, s, step);
    } else if EvictorStep(step) {
      EvictionNotOver(cfg, s, step);
    } else if HandBackStep(step) {
      CommitOver(cfg, s, step);
    } else {
      FillOver(cfg, s, step);
    }
  }

  /** The request begun in step `k` is answered from the cache: since then the thread found the identifier
      located, read the location and told the policy. The answer is what it read, with the bytes last
      generated when it looked; a failed read answers nothing. */
  ghost predicate Answered(cfg: Config, steps: seq<Step>, step: Step, k: nat, t: Tid, id: Id) {
    var s, s' := Exec(cfg, steps), Apply(cfg, Exec(cfg, steps), step);
    step.DropReader? &&
    exists j: nat, r: nat, q: nat, loc: Loc, promised: Data, read: Option<Data> ::
      && HasTold(cfg, steps, k, j, r, q, t, id, loc, promised, read)
      && s'.hits == s.hits + if read.Some? then [HitRecord(id, read.value, promised)] else []
  }

  /** It located the identifier where it had written a chunk. */
  ghost predicate Filled(cfg: Config, steps: seq<Step>, step: Step, k: nat, t: Tid, id: Id) {
    var s, s' := Exec(cfg, steps), Apply(cfg, Exec(cfg, steps), step);
    (step.Commit? || step.InsertEntry?) && s'.hits == s.hits &&
    exists j: nat, loc: Loc, data: Data ::
      HasWritten(cfg, steps, k, j, t, id, loc, data) && IsLocated(s'.cm, id, loc)
  }

  /** It gave the entry up, because one of its commands failed. */
  ghost predicate GivenUp(cfg: Config, steps: seq<Step>, step: Step, k: nat, t: Tid, id: Id) {
    var s, s' := Exec(cfg, steps), Apply(cfg, Exec(cfg, steps), step);
    step.FailEntry? && s'.hits == s.hits && id !in s'.cm.zoneMap && exists j: nat :: HasFailed(cfg, steps, k, j, t)
  }

  ghost predicate Ends(cfg: Config, steps: seq<Step>, step: Step, k: nat, t: Tid, id: Id) {
    || Answered(cfg, steps, step, k, t, id) || Filled(cfg, steps, step, k, t, id)
    || GivenUp(cfg, steps, step, k, t, id)
  }

  lemma EndsAsBehind(cfg: Config, steps: seq<Step>, step: Step, k: nat, p: Phase)
    requires Behind(cfg, steps, k, step.t, p) && Over(cfg, Exec(cfg, steps), step, p) && Asks(p).Some?
    ensures Ends(cfg, steps, step, k, step.t, Asks(p).value)
  {
    if p.Promoted? {
      var j: nat, r: nat, q: nat :| HasTold(cfg, steps, k, j, r, q, step.t, p.id, p.loc, p.promised, p.read);
    } else if p.Written? || p.Listed? {
      var j: nat :| HasWritten(cfg, steps, k, j, step.t, p.id, p.loc, p.data);
    }
  }

  /** In every run a thread with a request was called for it, and when a step makes it idle again the
      request was answered, or filled, or given up after a command of its own failed. */
  lemma RequestsEnd(cfg: Config, steps: seq<Step>, step: Step) returns (k: nat)
    requires Asks(At(Exec(cfg, steps).threads, step.t)).Some?
    requires At(Apply(cfg, Exec(cfg, steps), step).threads, step.t).Idle?
    ensures var t, id := step.t, Asks(At(Exec(cfg, steps).threads, step.t)).value;
            Serves(cfg, steps, k, |steps|, t, id) && Ends(cfg, steps, step, k, t, id)
  {
    var s := Exec(cfg, steps);
    var t, p := step.t, At(s.threads, step.t);
    EveryRequest(cfg, steps, t);
    EndsOver(cfg, s, step);
    k :| Serves(cfg, steps, k, |steps|, t, Asks(p).value) && Behind(cfg, steps, k, t, p);
    EndsAsBehind(cfg, steps, step, k, p);
  }

  /** While the device opens zones and writes chunks, no request of any run gives its entry up. */
  lemma NothingGivenUp(cfg: Config, steps: seq<Step>, t: Tid)
    requires DeviceSucceeds(cfg, steps) && forall i :: 0 <= i < |steps| && steps[i].WriteDisk? ==> steps[i].ok
    ensures !At(Exec(cfg, steps).threads, t).Failing? && !At(Exec(cfg, steps).threads, t).Undoing?
  {
    EveryRequest(cfg, steps, t);
  }

  // ---------- Requests are served ----------

  /** No command of the request has failed. */
  predicate Unharmed(p: Phase) {
    !p.Undoing? && !p.Failing? && (p.HaveRead? || p.Promoted? ==> p.read.Some?)
  }

  /** Step `m` ends the thread's request with an answer, or with the identifier located. */
  ghost predicate ServedAt(cfg: Config, steps: seq<Step>, m: nat, t: Tid, id: Id) {
    m < |steps| && steps[m].t == t && ServedNow(cfg, Exec(cfg, steps[..m]), steps[m], id)
  }

  ghost predicate ServedNow(cfg: Config, s: State, step: Step, id: Id) {
    var s' := Apply(cfg, s, step);
    && Asks(At(s.threads, step.t)) == Some(id) && At(s'.threads, step.t).Idle?
    && ((step.DropReader? && exists h: HitRecord :: h.id == id && s'.hits == s.hits + [h])
        || ((step.Commit? || step.InsertEntry?) && exists loc: Loc :: IsLocated(s'.cm, id, loc)))
  }

  /** With a device that does as it is told a request goes on unharmed until it is served. */
  lemma GoesOnUnharmed(cfg: Config, s: State, step: Step, id: Id)
    requires GoesOn(cfg, step) && Asks(At(s.threads, step.t)) == Some(id) && Unharmed(At(s.threads, step.t))
    ensures var p' := At(Apply(cfg, s, step).threads, step.t);
            (Asks(p') == Some(id) && Unharmed(p')) || ServedNow(cfg, s, step, id)
  {
    var p, p' := At(s.threads, step.t), At(Apply(cfg, s, step).threads, step.t);
    StepFollows(cfg, s, step);
    if p'.Idle? {
      EndsOver(cfg, s, step);
      OverIsServed(cfg, s, step, id);
    } else if p' != p {
      NoHarm(cfg, s, step, p, p');
    }
  }

  lemma OverIsServed(cfg: Config, s: State, step: Step, id: Id)
    requires var p := At(s.threads, step.t); Asks(p) == Some(id) && Unharmed(p) && Over(cfg, s, step, p)
    requires At(Apply(cfg, s, step).threads, step.t).Idle?
    ensures ServedNow(cfg, s, step, id)
  {
    var p := At(s.threads, step.t);
    if p.Promoted? {
      assert HitRecord(p.id, p.read.value, p.promised).id == id;
    }
  }

  lemma NoHarm(cfg: Config, s: State, step: Step, p: Phase, p': Phase)
    requires GoesOn(cfg, step) && Unharmed(p) && ComesFrom(cfg, s, step, p, p')
    ensures Unharmed(p')
  {
  }

  lemma {:induction false} ServedLater(cfg: Config, steps: seq<Step>, n: nat, t: Tid, id: Id)
    requires n <= |steps| && forall i :: n <= i < |steps| ==> GoesOn(cfg, steps[i])
    requires At(Exec(cfg, steps).threads, t).Idle?
    requires var p := At(Exec(cfg, steps[..n]).threads, t); Asks(p) == Some(id) && Unharmed(p)
    ensures exists m: nat :: n <= m && ServedAt(cfg, steps, m, t, id)
    decreases |steps| - n
  {
    assert steps[..|steps|] == steps;
    if n < |steps| {
      var s := Exec(cfg, steps[..n]);
      assert steps[..n + 1][..n] == steps[..n];
      OthersStayPut(cfg, s, steps[n]);
      if steps[n].t == t {
        GoesOnUnharmed(cfg, s, steps[n], id);
      }
      if steps[n].t == t && ServedNow(cfg, s, steps[n], id) {
        assert ServedAt(cfg, steps, n, t, id);
      } else {
        ServedLater(cfg, steps, n + 1, t, id);
      }
    }
  }

  /** Every run whose zone commands succeed and whose identifiers fit in an `int` has a continuation
      without new calls in which each request under way is answered or filled, unless a command of its
      own had failed already. */
  lemma EveryRequestIsServed(cfg: Config, steps: seq<Step>) returns (more: seq<Step>)
    requires cfg.Valid() && DeviceSucceeds(cfg, steps) && SmallIds(steps)
    ensures AllGoOn(cfg, more) && forall t: Tid :: At(Exec(cfg, steps + more).threads, t) == Idle
    ensures forall t: Tid :: var p := At(Exec(cfg, steps).threads, t); Asks(p).Some? && Unharmed(p) ==>
              exists m: nat :: |steps| <= m && ServedAt(cfg, steps + more, m, t, Asks(p).value)
  {
    more := EveryRunCompletes(cfg, steps);
    var whole := steps + more;
    assert whole[..|steps|] == steps;
    forall i | |steps| <= i < |whole|
      ensures GoesOn(cfg, whole[i])
    {
      assert whole[i] == more[i - |steps|];
    }
    forall t: Tid | Asks(At(Exec(cfg, steps).threads, t)).Some? && Unharmed(At(Exec(cfg, steps).threads, t))
      ensures exists m: nat :: |steps| <= m
                && ServedAt(cfg, whole, m, t, Asks(At(Exec(cfg, steps).threads, t)).value)
    {
      ServedLater(cfg, whole, |steps|, t, Asks(At(Exec(cfg, steps).threads, t)).value);
    }
  }
}
