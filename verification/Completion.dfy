/** No interleaving runs into a dead end: from every state of a run some continuation, in which nobody
    starts anything new, lets every thread finish what it is doing. */
module Completion {
  import opened ZnTypes
  import opened Protocol
  import opened Lru
  import opened Z = ZoneState
  import opened C = CacheMap
  import opened Buffers
  import opened StepEffects
  import opened ZoneOwnership
  import opened FillOwnership
  import opened Interleavings
  import opened FineRuns

  /** A busy thread goes on, with a device that does as it is told. */
  predicate GoesOn(cfg: Config, step: Step) {
    && DeviceStep(cfg, step) && !step.LookupStep? && !step.StartEvict?
    && (step.ReadDisk? || step.WriteDisk? ==> step.ok)
  }

  ghost predicate AllGoOn(cfg: Config, more: seq<Step>) {
    forall i :: 0 <= i < |more| ==> GoesOn(cfg, more[i])
  }

  function Continue(cfg: Config, s: State, more: seq<Step>): State
    decreases |more|
  {
    if more == [] then s else Continue(cfg, Apply(cfg, s, more[0]), more[1..])
  }

  lemma Regroup(steps: seq<Step>, more: seq<Step>)
    requires more != []
    ensures steps + more == steps + [more[0]] + more[1..]
  {
  }

  lemma {:induction false} ExecContinues(cfg: Config, steps: seq<Step>, s: State, more: seq<Step>)
    requires Exec(cfg, steps) == s
    ensures Exec(cfg, steps + more) == Continue(cfg, s, more)
    decreases |more|
  {
    if more == [] {
      assert steps + more == steps;
    } else {
      OneStepMore(cfg, steps, more[0]);
      Regroup(steps, more);
      ExecContinues(cfg, steps + [more[0]], Apply(cfg, s, more[0]), more[1..]);
    }
  }

  // ---------- What a thread does next ----------

  /** What a thread in each phase does next. */
  function NextStep(t: Tid, p: Phase): Step
    requires p != Idle
  {
    match p
    case Waiting(_, _) => Recheck(t)
    case Reading(_, _, _) => ReadDisk(t, true)
    case HaveRead(_, _, _, _) => Promote(t)
    case Promoted(_, _, _, _) => DropReader(t)
    case Allocating(_) => Allocate(t, true)
    case Allocated(_, _) => Generate(t, seq(ID_BYTES, _ => 0))
    case Writing(_, _, _) => WriteDisk(t, true)
    case Written(_, _, _) => Commit(t, true)
    case Returned(_, _, _) => ListZone(t)
    case Listed(_, _, _) => InsertEntry(t)
    case Undoing(_, _) => UndoZone(t)
    case Failing(_) => FailEntry(t)
    case Evicting(_) => StopEvict(t)
    case Clearing(_, _) => ClearZone(t)
    case Draining(_, _) => PassDrain(t)
    case Resetting(_, _) => ResetZone(t, true)
  }

  /** The invariants of runs in which zone commands succeed and identifiers are small. */
  ghost predicate GoodState(cfg: Config, s: State) {
    cfg.Valid() && FineInv(cfg, s) && !s.aborted && NoneLost(cfg, s.zsm) && SmallMap(s)
  }

  lemma NextIsSafe(cfg: Config, s: State, t: Tid)
    requires GoodState(cfg, s) && At(s.threads, t) != Idle
    ensures var step := NextStep(t, At(s.threads, t));
            step.t == t && DeviceStep(cfg, step) && SmallIdStep(step) && !Apply(cfg, s, step).aborted
  {
    StepKeepsFine(cfg, s, NextStep(t, At(s.threads, t)));
  }

  /** Reading, or writing a chunk. */
  predicate Serving(p: Phase) {
    p.Reading? || p.HaveRead? || p.Promoted? || p.Allocated? || p.Writing?
  }

  // ---------- How much is left to do ----------

  /** A chunk can be handed out. */
  predicate HasRoom(s: State) {
    s.zsm.active != [] || s.zsm.free != []
  }

  /** The thread has still to be given a place, if nothing it waits for is there in the end. */
  function Unplaced(p: Phase): nat {
    match p
    case Waiting(_, _) => 1
    case Allocating(_) => 1
    case Evicting(back) => if back.Some? then 1 else 0
    case Clearing(_, back) => if back.Some? then 1 else 0
    case Draining(_, back) => if back.Some? then 1 else 0
    case Resetting(_, back) => if back.Some? then 1 else 0
    case _ => 0
  }

  /** How far the thread is from the end, as long as nobody obtains a place. Without room a request
      has an eviction before it. */
  function Rank(room: bool, p: Phase): nat {
    match p
    case Idle => 0
    case Waiting(_, _) => 20
    case Reading(_, _, _) => 3
    case HaveRead(_, _, _, _) => 2
    case Promoted(_, _, _, _) => 1
    case Allocating(_) => if room then 7 else 14
    case Allocated(_, _) => 6
    case Writing(_, _, _) => 5
    case Written(_, _, _) => 4
    case Returned(_, _, _) => 3
    case Listed(_, _, _) => 2
    case Undoing(_, _) => 2
    case Failing(_) => 1
    case Evicting(back) => if back.None? then 1 else if room then 8 else 13
    case Clearing(_, _) => 12
    case Draining(_, _) => 11
    case Resetting(_, _) => 10
  }

  /** A thread obtained a place or what it found; or it came nearer to the end and room stayed. */
  predicate Falls(room: bool, p: Phase, room': bool, p': Phase) {
    || Unplaced(p') < Unplaced(p)
    || (Unplaced(p') == Unplaced(p) && (room ==> room') && Rank(room', p') < Rank(room, p))
  }

  // ---------- Each phase ----------

  /** What a thread does next; without room a request evicts. */
  function NextOf(room: bool, t: Tid, p: Phase): Step
    requires p != Idle
  {
    if p.Evicting? && p.back.Some? && !room then PopVictim(t) else NextStep(t, p)
  }

  /** The thread's next step takes it nearer to the end. */
  predicate Nearer(cfg: Config, s: State, t: Tid) {
    At(s.threads, t) != Idle &&
    var s' := Apply(cfg, s, NextOf(HasRoom(s), t, At(s.threads, t)));
    Falls(HasRoom(s), At(s.threads, t), HasRoom(s'), At(s'.threads, t))
  }

  /** Phases whose next step leaves the zone states alone and waits for nobody. */
  predicate Mover(p: Phase) {
    Serving(p) || p.Failing? || p.Returned? || p.Listed? || p.Clearing? || (p.Evicting? && p.back.None?)
  }

  /** The thread's next step fails no assertion. */
  predicate Safe(cfg: Config, s: State, t: Tid) {
    At(s.threads, t) != Idle && !s.aborted && !Apply(cfg, s, NextStep(t, At(s.threads, t))).aborted
  }

  lemma ReadNearer(cfg: Config, s: State, t: Tid)
    requires Safe(cfg, s, t) && At(s.threads, t).Reading?
    ensures Nearer(cfg, s, t)
  {
  }

  lemma PromoteNearer(cfg: Config, s: State, t: Tid)
    requires Safe(cfg, s, t) && At(s.threads, t).HaveRead?
    ensures Nearer(cfg, s, t)
  {
  }

  lemma DropNearer(cfg: Config, s: State, t: Tid)
    requires Safe(cfg, s, t) && At(s.threads, t).Promoted?
    ensures Nearer(cfg, s, t)
  {
  }

  lemma GenerateNearer(cfg: Config, s: State, t: Tid)
    requires Safe(cfg, s, t) && At(s.threads, t).Allocated?
    ensures Nearer(cfg, s, t)
  {
  }

  lemma WriteNearer(cfg: Config, s: State, t: Tid)
    requires Safe(cfg, s, t) && At(s.threads, t).Writing?
    ensures Nearer(cfg, s, t)
  {
  }

  lemma FailNearer(cfg: Config, s: State, t: Tid)
    requires Safe(cfg, s, t) && At(s.threads, t).Failing?
    ensures Nearer(cfg, s, t)
  {
    var s' := Apply(cfg, s, FailEntry(t));
    assert s'.zsm == s.zsm && At(s'.threads, t) == Idle;
  }

  lemma ListNearer(cfg: Config, s: State, t: Tid)
    requires Safe(cfg, s, t) && At(s.threads, t).Returned?
    ensures Nearer(cfg, s, t)
  {
  }

  lemma InsertNearer(cfg: Config, s: State, t: Tid)
    requires Safe(cfg, s, t) && At(s.threads, t).Listed?
    ensures Nearer(cfg, s, t)
  {
    var s' := Apply(cfg, s, InsertEntry(t));
    assert s'.zsm == s.zsm && At(s'.threads, t) == Idle;
  }

  lemma ClearNearer(cfg: Config, s: State, t: Tid)
    requires Safe(cfg, s, t) && At(s.threads, t).Clearing?
    ensures Nearer(cfg, s, t)
  {
  }

  lemma StopNearer(cfg: Config, s: State, t: Tid)
    requires Safe(cfg, s, t) && At(s.threads, t).Evicting? && At(s.threads, t).back.None?
    ensures Nearer(cfg, s, t)
  {
    var s' := Apply(cfg, s, StopEvict(t));
    assert s'.zsm == s.zsm && At(s'.threads, t) == Idle;
  }

  lemma MoverNearer(cfg: Config, s: State, t: Tid)
    requires GoodState(cfg, s) && Mover(At(s.threads, t))
    ensures Nearer(cfg, s, t)
  {
    NextIsSafe(cfg, s, t);
    match At(s.threads, t) {
      case Reading(_, _, _) => ReadNearer(cfg, s, t);
      case HaveRead(_, _, _, _) => PromoteNearer(cfg, s, t);
      case Promoted(_, _, _, _) => DropNearer(cfg, s, t);
      case Allocated(_, _) => GenerateNearer(cfg, s, t);
      case Writing(_, _, _) => WriteNearer(cfg, s, t);
      case Failing(_) => FailNearer(cfg, s, t);
      case Returned(_, _, _) => ListNearer(cfg, s, t);
      case Listed(_, _, _) => InsertNearer(cfg, s, t);
      case Clearing(_, _) => ClearNearer(cfg, s, t);
      case Evicting(_) => StopNearer(cfg, s, t);
    }
  }

  /** Handing back or freeing a zone takes no room away. */
  lemma CommitNearer(cfg: Config, s: State, t: Tid)
    requires GoodState(cfg, s) && At(s.threads, t).Written?
    ensures Nearer(cfg, s, t)
  {
    NextIsSafe(cfg, s, t);
  }

  lemma UndoNearer(cfg: Config, s: State, t: Tid)
    requires GoodState(cfg, s) && At(s.threads, t).Undoing?
    ensures Nearer(cfg, s, t)
  {
    NextIsSafe(cfg, s, t);
  }

  lemma ResetNearer(cfg: Config, s: State, t: Tid)
    requires GoodState(cfg, s) && At(s.threads, t).Resetting?
    ensures Nearer(cfg, s, t)
  {
    NextIsSafe(cfg, s, t);
  }

  /** With no reader left an evictor stops waiting. */
  lemma DrainNearer(cfg: Config, s: State, t: Tid)
    requires GoodState(cfg, s) && At(s.threads, t).Draining?
    requires forall u: Tid :: !Serving(At(s.threads, u))
    ensures Nearer(cfg, s, t)
  {
    var z := At(s.threads, t).zone;
    assert HasToken(cfg, s.threads, t, z);
    assert ReadersOf(s.threads, z) == {} by {
      assert forall u :: u in ReadersOf(s.threads, z) ==> Serving(At(s.threads, u));
    }
  }

  /** Threads that hold no zone. */
  predicate HoldsNone(p: Phase) {
    p.Idle? || p.Waiting? || p.Allocating? || (p.Evicting? && p.back.Some?)
  }

  /** When no thread holds a zone, the queue holds all zones that are neither active nor free. */
  lemma QueueNotEmpty(cfg: Config, s: State)
    requires GoodState(cfg, s) && !HasRoom(s) && forall u: Tid :: HoldsNone(At(s.threads, u))
    ensures s.lru.queue != []
  {
    forall u: Tid
      ensures !HoldsZone(s.threads, u, 0) && !HasToken(cfg, s.threads, u, 0)
    {
      assert HoldsNone(At(s.threads, u));
    }
    assert !IsBeingWritten(cfg, s.zsm, 0);
    assert Sealed(cfg, s.zsm, 0) && InQueue(s.lru, 0);
  }

  /** A request that evicts goes on to a victim, or back if there is room. */
  lemma EvictNearer(cfg: Config, s: State, t: Tid)
    requires GoodState(cfg, s) && At(s.threads, t).Evicting? && At(s.threads, t).back.Some?
    requires forall u: Tid :: HoldsNone(At(s.threads, u))
    ensures Nearer(cfg, s, t)
  {
    if !HasRoom(s) {
      QueueNotEmpty(cfg, s);
    }
  }

  lemma NoWrites(cfg: Config, s: State)
    requires GoodState(cfg, s) && forall u: Tid :: HoldsNone(At(s.threads, u))
    ensures s.zsm.writes == 0
  {
    forall u: Tid, z: nat
      ensures !HoldsZone(s.threads, u, z)
    {
      assert HoldsNone(At(s.threads, u));
    }
    assert forall z: nat :: !IsBeingWritten(cfg, s.zsm, z);
    assert BeingWritten(cfg, s.zsm) == {};
  }

  /** A request obtains a place, or evicts if there is none. */
  lemma AllocateNearer(cfg: Config, s: State, t: Tid)
    requires GoodState(cfg, s) && At(s.threads, t).Allocating?
    requires forall u: Tid :: HoldsNone(At(s.threads, u))
    ensures Nearer(cfg, s, t)
  {
    NextIsSafe(cfg, s, t);
    GetActiveInv(cfg, s.zsm, true);
    NoWrites(cfg, s);
  }

  lemma PendingIsFilled(cfg: Config, s: State)
    requires FineInv(cfg, s)
    ensures forall id: Id :: IsPending(s.cm, id) ==> exists u: Tid :: FillsId(s.threads, u, id)
  {
    forall id: Id | IsPending(s.cm, id)
      ensures exists u: Tid :: FillsId(s.threads, u, id)
    {
      assert FillsId(s.threads, s.cm.conds[s.cm.zoneMap[id].cond].owner, id);
    }
  }

  lemma NothingPending(cfg: Config, s: State)
    requires FineInv(cfg, s)
    requires forall u: Tid :: At(s.threads, u).Idle? || At(s.threads, u).Waiting?
    ensures forall id: Id :: !IsPending(s.cm, id)
    ensures forall t: Tid, c: nat :: !Asleep(s.cm, t, c)
  {
    PendingIsFilled(cfg, s);
    forall u: Tid, id: Id
      ensures !FillsId(s.threads, u, id)
    {
      assert At(s.threads, u).Idle? || At(s.threads, u).Waiting?;
    }
    forall t: Tid, c: nat
      ensures !Asleep(s.cm, t, c)
    {
      assert Asleep(s.cm, t, c) ==> Current(s.cm, c) && IsPending(s.cm, s.cm.conds[c].id);
    }
  }

  /** When all others are idle or wait, a waiter finds its entry or becomes its filler. */
  lemma WaitNearer(cfg: Config, s: State, t: Tid)
    requires GoodState(cfg, s) && At(s.threads, t).Waiting?
    requires forall u: Tid :: At(s.threads, u).Idle? || At(s.threads, u).Waiting?
    ensures Nearer(cfg, s, t)
  {
    var p := At(s.threads, t);
    NextIsSafe(cfg, s, t);
    assert WaitsOn(s.threads, t, p.cond);
    NothingPending(cfg, s);
    assert !Asleep(s.cm, t, p.cond);
    assert !IsPending(s.cm, p.id);
  }

  /** Unless all threads are idle, one comes nearer to the end. */
  lemma SomeoneNearer(cfg: Config, s: State, t: Tid) returns (u: Tid)
    requires GoodState(cfg, s) && At(s.threads, t) != Idle
    ensures Nearer(cfg, s, u)
  {
    if v: Tid :| Mover(At(s.threads, v)) {
      MoverNearer(cfg, s, v);
      u := v;
    } else if v: Tid :| At(s.threads, v).Written? {
      CommitNearer(cfg, s, v);
      u := v;
    } else if v: Tid :| At(s.threads, v).Undoing? {
      UndoNearer(cfg, s, v);
      u := v;
    } else if v: Tid :| At(s.threads, v).Resetting? {
      ResetNearer(cfg, s, v);
      u := v;
    } else if v: Tid :| At(s.threads, v).Draining? {
      DrainNearer(cfg, s, v);
      u := v;
    } else if v: Tid :| At(s.threads, v).Evicting? {
      EvictNearer(cfg, s, v);
      u := v;
    } else if v: Tid :| At(s.threads, v).Allocating? {
      AllocateNearer(cfg, s, v);
      u := v;
    } else {
      WaitNearer(cfg, s, t);
      u := t;
    }
  }

  // ---------- All threads together ----------

  /** What is left to do for all of the given threads. */
  ghost function Total(keys: set<Tid>, th: map<Tid, Phase>, f: Phase -> nat): nat {
    if keys == {} then 0 else
    var t :| t in keys;
    f(At(th, t)) + Total(keys - {t}, th, f)
  }

  lemma {:induction false} TotalPick(keys: set<Tid>, th: map<Tid, Phase>, f: Phase -> nat, x: Tid)
    requires x in keys
    ensures Total(keys, th, f) == f(At(th, x)) + Total(keys - {x}, th, f)
  {
    var t :| t in keys && Total(keys, th, f) == f(At(th, t)) + Total(keys - {t}, th, f);
    if t != x {
      TotalPick(keys - {t}, th, f, x);
      TotalPick(keys - {x}, th, f, t);
      assert keys - {t} - {x} == keys - {x} - {t};
    }
  }

  lemma {:induction false} TotalGrowsNot(keys: set<Tid>, th: map<Tid, Phase>, f: Phase -> nat, th': map<Tid, Phase>,
                                         f': Phase -> nat)
    requires forall t :: t in keys ==> f'(At(th', t)) <= f(At(th, t))
    ensures Total(keys, th', f') <= Total(keys, th, f)
  {
    if x :| x in keys {
      TotalPick(keys, th, f, x);
      TotalPick(keys, th', f', x);
      TotalGrowsNot(keys - {x}, th, f, th', f');
    }
  }

  lemma TotalFalls(keys: set<Tid>, th: map<Tid, Phase>, f: Phase -> nat, th': map<Tid, Phase>, f': Phase -> nat, x: Tid)
    requires x in keys && f'(At(th', x)) < f(At(th, x))
    requires forall t :: t in keys && t != x ==> f'(At(th', t)) <= f(At(th, t))
    ensures Total(keys, th', f') < Total(keys, th, f)
  {
    TotalPick(keys, th, f, x);
    TotalPick(keys, th', f', x);
    TotalGrowsNot(keys - {x}, th, f, th', f');
  }

  ghost function RankIn(room: bool): Phase -> nat {
    p => Rank(room, p)
  }

  /** Only the given threads are busy. */
  ghost predicate Within(keys: set<Tid>, th: map<Tid, Phase>) {
    forall t: Tid :: t !in keys ==> At(th, t) == Idle
  }

  /** Less is left to do for all of them. */
  ghost predicate LessLeft(keys: set<Tid>, th: map<Tid, Phase>, room: bool, th': map<Tid, Phase>, room': bool) {
    || Total(keys, th', Unplaced) < Total(keys, th, Unplaced)
    || (&& Total(keys, th', Unplaced) <= Total(keys, th, Unplaced)
        && Total(keys, th', RankIn(room')) < Total(keys, th, RankIn(room)))
  }

  /** When one thread comes nearer to the end and the others stay, less is left. */
  lemma OneFalls(keys: set<Tid>, th: map<Tid, Phase>, room: bool, th': map<Tid, Phase>, room': bool, t: Tid)
    requires t in keys && Falls(room, At(th, t), room', At(th', t))
    requires forall u: Tid :: u != t ==> At(th', u) == At(th, u)
    ensures LessLeft(keys, th, room, th', room')
  {
    if Unplaced(At(th', t)) < Unplaced(At(th, t)) {
      TotalFalls(keys, th, Unplaced, th', Unplaced, t);
    } else {
      TotalGrowsNot(keys, th, Unplaced, th', Unplaced);
      TotalFalls(keys, th, RankIn(room), th', RankIn(room'), t);
    }
  }

  lemma WholeFalls(cfg: Config, s: State, keys: set<Tid>, t: Tid)
    requires Nearer(cfg, s, t) && Within(keys, s.threads)
    ensures var s' := Apply(cfg, s, NextOf(HasRoom(s), t, At(s.threads, t)));
            Within(keys, s'.threads) && LessLeft(keys, s.threads, HasRoom(s), s'.threads, HasRoom(s'))
  {
    var step := NextOf(HasRoom(s), t, At(s.threads, t));
    OthersStayPut(cfg, s, step);
    OneFalls(keys, s.threads, HasRoom(s), Apply(cfg, s, step).threads, HasRoom(Apply(cfg, s, step)), t);
  }

  /** The next step keeps the state good. */
  lemma StaysGood(cfg: Config, s: State, t: Tid)
    requires GoodState(cfg, s) && At(s.threads, t) != Idle
    ensures var step := NextOf(HasRoom(s), t, At(s.threads, t));
            step.t == t && GoesOn(cfg, step) && GoodState(cfg, Apply(cfg, s, step))
  {
    var step := NextOf(HasRoom(s), t, At(s.threads, t));
    StepKeepsFine(cfg, s, step);
    StepKeepsZones(cfg, s, step);
    StepKeepsSmall(cfg, s, step);
  }

  lemma {:induction false} Completes(cfg: Config, s: State, keys: set<Tid>) returns (more: seq<Step>)
    requires GoodState(cfg, s) && Within(keys, s.threads)
    ensures AllGoOn(cfg, more) && !Continue(cfg, s, more).aborted
    ensures forall t: Tid :: At(Continue(cfg, s, more).threads, t) == Idle
    decreases Total(keys, s.threads, Unplaced), Total(keys, s.threads, RankIn(HasRoom(s)))
  {
    more := [];
    if t: Tid :| At(s.threads, t) != Idle {
      var u := SomeoneNearer(cfg, s, t);
      StaysGood(cfg, s, u);
      WholeFalls(cfg, s, keys, u);
      var step := NextOf(HasRoom(s), u, At(s.threads, u));
      var rest := Completes(cfg, Apply(cfg, s, step), keys);
      more := [step] + rest;
      assert more[1..] == rest;
    }
  }

  /** Every run whose zone commands succeed and whose identifiers fit in an `int` has a continuation
      after which every thread is idle, and in which no thread starts a request or an eviction. */
  lemma EveryRunCompletes(cfg: Config, steps: seq<Step>) returns (more: seq<Step>)
    requires cfg.Valid() && DeviceSucceeds(cfg, steps) && SmallIds(steps)
    ensures AllGoOn(cfg, more) && !Exec(cfg, steps + more).aborted
    ensures forall t: Tid :: At(Exec(cfg, steps + more).threads, t) == Idle
  {
    FineRun(cfg, steps);
    DeviceRun(cfg, steps);
    SmallRun(cfg, steps);
    NoAssertionFails(cfg, steps);
    var s := Exec(cfg, steps);
    more := Completes(cfg, s, s.threads.Keys);
    ExecContinues(cfg, steps, s, more);
  }
}
