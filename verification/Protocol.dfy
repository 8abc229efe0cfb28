/** The cache as its threads see it: requests and evictions cut into the steps that one lock, one
    atomic operation or one device command makes indivisible, with no bound on the threads. */
module Protocol {
  import opened ZnTypes
  import Lru
  import Promotional
  import ZoneState
  import CacheMap
  import Buffers

  /** Where a thread is inside `zn_cache_get` or `zn_fg_evict`. `promised` are the bytes last
      generated for the identifier when the reader found it; `back` is the identifier an evicting
      request has still to fill, or none for the eviction thread. */
  datatype Phase =
    | Idle
    | Waiting(id: Id, cond: nat)
    | Reading(id: Id, loc: Loc, promised: Data)
    | HaveRead(id: Id, loc: Loc, promised: Data, read: Option<Data>)
    | Promoted(id: Id, loc: Loc, promised: Data, read: Option<Data>)
    | Allocating(id: Id)
    | Allocated(id: Id, loc: Loc)
    | Writing(id: Id, loc: Loc, data: Data)
    | Written(id: Id, loc: Loc, data: Data)
    | Returned(id: Id, loc: Loc, data: Data)
    | Listed(id: Id, loc: Loc, data: Data)
    | Undoing(id: Id, loc: Loc)
    | Failing(id: Id)
    | Evicting(back: Option<Id>)
    | Clearing(zone: nat, back: Option<Id>)
    | Draining(zone: nat, back: Option<Id>)
    | Resetting(zone: nat, back: Option<Id>)

  /** A request answered from the cache. */
  datatype HitRecord = HitRecord(id: Id, data: Data, promised: Data)

  /** `uses`, `lastGen` and `hits` record the run and influence no step; `aborted` is set when an
      assertion of the program fails. */
  datatype State = State(
    zsm: ZoneState.Zsm, cm: CacheMap.CMap, lru: Lru.LruQueue<nat>,
    disk: map<Loc, Data>, threads: map<Tid, Phase>, aborted: bool,
    uses: seq<Lru.Use<nat>>, lastGen: map<Id, Data>, hits: seq<HitRecord>)

  datatype Step =
    | LookupStep(t: Tid, id: Id)
    | SpuriousWake(t: Tid)
    | Recheck(t: Tid)
    | ReadDisk(t: Tid, ok: bool)
    | Promote(t: Tid)
    | DropReader(t: Tid)
    | Allocate(t: Tid, ok: bool)
    | Generate(t: Tid, buffer: Data)
    | Scribble(t: Tid, junk: Data)
    | WriteDisk(t: Tid, ok: bool)
    | Commit(t: Tid, ok: bool)
    | ReturnZone(t: Tid, ok: bool)
    | ListZone(t: Tid)
    | InsertEntry(t: Tid)
    | UndoZone(t: Tid)
    | FailEntry(t: Tid)
    | StartEvict(t: Tid)
    | PopVictim(t: Tid)
    | ClearZone(t: Tid)
    | PassDrain(t: Tid)
    | ResetZone(t: Tid, ok: bool)
    | StopEvict(t: Tid)

  function Init(cfg: Config): State {
    State(ZoneState.Init(cfg), CacheMap.Init(cfg.numZones), Lru.EMPTY, map[], map[], false, [], map[], [])
  }

  /** A thread nobody has heard of is idle. */
  function At(th: map<Tid, Phase>, t: Tid): Phase {
    if t in th then th[t] else Idle
  }

  function SetPhase(s: State, t: Tid, p: Phase): State {
    s.(threads := s.threads[t := p])
  }

  function Abort(s: State): State {
    s.(aborted := true)
  }

  function Peek(disk: map<Loc, Data>, loc: Loc): Data {
    if loc in disk then disk[loc] else []
  }

  /** The bytes last generated for an identifier. */
  function Promise(lastGen: map<Id, Data>, id: Id): Data {
    if id in lastGen then lastGen[id] else []
  }

  /** What a request does when an eviction it ran is over. */
  function Resume(back: Option<Id>): Phase {
    match back case None => Idle case Some(id) => Allocating(id)
  }

  /** One pass of the lookup loop, with the map's lock held throughout. */
  function LookUp(s: State, t: Tid, id: Id): State {
    if !CacheMap.LookupOk(s.cm, id) then Abort(s) else
    var (cm, found) := CacheMap.Lookup(s.cm, t, id);
    var next := match found
      case Hit(loc) => Reading(id, loc, Promise(s.lastGen, id))
      case Wait(c) => Waiting(id, c)
      case Fill => Allocating(id);
    SetPhase(s.(cm := cm), t, next)
  }

  /** A woken waiter owns the lock again: it gives up its reference and looks once more. */
  function ReLookUp(s: State, t: Tid, id: Id, c: nat): State {
    if c !in s.cm.conds then Abort(s) else LookUp(s.(cm := CacheMap.Release(s.cm, c)), t, id)
  }

  function WakeUp(s: State, t: Tid, c: nat): State {
    if c !in s.cm.conds then Abort(s) else
    var v := s.cm.conds[c];
    s.(cm := s.cm.(conds := s.cm.conds[c := v.(asleep := v.asleep - {t})]))
  }

  function PromoteZone(s: State, t: Tid, cfg: Config, p: Phase): State
    requires p.HaveRead?
  {
    if !Promotional.UpdateOk(s.lru, p.loc, Read) then Abort(s) else
    SetPhase(s.(lru := Promotional.Update(s.lru, cfg.maxChunks, p.loc, Read),
                uses := s.uses + Promotional.UseOf(cfg.maxChunks, p.loc, Read)),
             t, Promoted(p.id, p.loc, p.promised, p.read))
  }

  /** The reader is no longer counted and its request returns; a failed read answers nothing. */
  function Drop(s: State, t: Tid, p: Phase): State
    requires p.Promoted?
  {
    if p.loc.zone >= |s.cm.readers| then Abort(s) else
    SetPhase(s.(cm := CacheMap.DropReader(s.cm, p.loc.zone),
                hits := if p.read.Some? then s.hits + [HitRecord(p.id, p.read.value, p.promised)]
                        else s.hits),
             t, Idle)
  }

  function TryAllocate(cfg: Config, s: State, t: Tid, id: Id, ok: bool): State {
    if !ZoneState.GetActiveOk(cfg, s.zsm) then Abort(s) else
    var (zsm, r) := ZoneState.GetActive(cfg, s.zsm, ok);
    var next := match r
      case Success(loc) => Allocated(id, loc)
      case Retry => Allocating(id)
      case Error => Failing(id)
      case Evict => Evicting(Some(id));
    SetPhase(s.(zsm := zsm), t, next)
  }

  function NewBytes(s: State, t: Tid, p: Phase, data: Data): State
    requires p.Allocated?
  {
    SetPhase(s.(lastGen := s.lastGen[p.id := data]), t, Writing(p.id, p.loc, data))
  }

  function GiveBack(cfg: Config, s: State, t: Tid, p: Phase, ok: bool): State
    requires p.Written?
  {
    if !ZoneState.HandBackOk(cfg, s.zsm, p.loc) then Abort(s) else
    SetPhase(s.(zsm := ZoneState.ReturnActive(cfg, s.zsm, p.loc, ok)), t, Returned(p.id, p.loc, p.data))
  }

  function List(cfg: Config, s: State, t: Tid, p: Phase): State
    requires p.Returned?
  {
    SetPhase(s.(lru := Promotional.Update(s.lru, cfg.maxChunks, p.loc, Write),
                uses := s.uses + Promotional.UseOf(cfg.maxChunks, p.loc, Write)),
             t, Listed(p.id, p.loc, p.data))
  }

  function Publish(s: State, t: Tid, p: Phase): State
    requires p.Listed?
  {
    if !CacheMap.InsertOk(s.cm, p.id, p.loc) then Abort(s) else
    SetPhase(s.(cm := CacheMap.Insert(s.cm, p.id, p.loc)), t, Idle)
  }

  /** The tail of a miss: hand back the zone, tell the policy, publish the location. */
  function CommitAll(cfg: Config, s: State, t: Tid, p: Phase, ok: bool): State
    requires p.Written?
  {
    var s1 := GiveBack(cfg, s, t, p, ok);
    if s1.aborted then s1 else
    Publish(List(cfg, s1, t, Returned(p.id, p.loc, p.data)), t, Listed(p.id, p.loc, p.data))
  }

  function Undo(cfg: Config, s: State, t: Tid, p: Phase): State
    requires p.Undoing?
  {
    if !ZoneState.FailedOk(cfg, s.zsm, p.loc) then Abort(s) else
    SetPhase(s.(zsm := ZoneState.FailedToWrite(cfg, s.zsm, p.loc)), t, Failing(p.id))
  }

  function FailFill(s: State, t: Tid, id: Id): State {
    if !CacheMap.FailOk(s.cm, id) then Abort(s) else
    SetPhase(s.(cm := CacheMap.Fail(s.cm, id)), t, Idle)
  }

  function Pop(s: State, t: Tid, back: Option<Id>): State {
    if s.lru.queue == [] then SetPhase(s, t, Resume(back)) else
    var z := s.lru.queue[0].key;
    SetPhase(s.(lru := Lru.PopHead(s.lru), uses := s.uses + [Lru.Popped(z)]), t, Clearing(z, back))
  }

  function Clear(s: State, t: Tid, z: nat, back: Option<Id>): State {
    if !CacheMap.ClearZoneOk(s.cm, z) then Abort(s) else
    SetPhase(s.(cm := CacheMap.ClearZone(s.cm, z)), t, Draining(z, back))
  }

  /** A zoned device forgets what the zone held; a block device is not told. */
  function Reset(cfg: Config, s: State, t: Tid, z: nat, back: Option<Id>, ok: bool): State {
    if !ZoneState.EvictOk(cfg, s.zsm, z, ok) then Abort(s) else
    SetPhase(s.(zsm := ZoneState.EvictZone(cfg, s.zsm, z),
                disk := if cfg.backend.Zns? then map l | l in s.disk && l.zone != z :: s.disk[l] else s.disk),
             t, Evicting(back))
  }

  /** The effect of a step; a step its thread cannot take now leaves the state as it is. */
  function Apply(cfg: Config, s: State, step: Step): State {
    var p := At(s.threads, step.t);
    var t := step.t;
    if s.aborted then s else
    match step
    case LookupStep(_, id) => if p.Idle? then LookUp(s, t, id) else s
    case SpuriousWake(_) => if p.Waiting? then WakeUp(s, t, p.cond) else s
    case Recheck(_) =>
      if p.Waiting? && (p.cond in s.cm.conds ==> t !in s.cm.conds[p.cond].asleep)
      then ReLookUp(s, t, p.id, p.cond) else s
    case ReadDisk(_, ok) =>
      if p.Reading?
      then SetPhase(s, t, HaveRead(p.id, p.loc, p.promised, if ok then Some(Peek(s.disk, p.loc)) else None))
      else s
    case Promote(_) => if p.HaveRead? then PromoteZone(s, t, cfg, p) else s
    case DropReader(_) => if p.Promoted? then Drop(s, t, p) else s
    case Allocate(_, ok) => if p.Allocating? then TryAllocate(cfg, s, t, p.id, ok) else s
    case Generate(_, buffer) =>
      if p.Allocated? && |buffer| >= Buffers.ID_BYTES
      then NewBytes(s, t, p, Buffers.WriteBuffer(p.id, buffer)) else s
    case Scribble(_, junk) => if p.Writing? then s.(disk := s.disk[p.loc := junk]) else s
    case WriteDisk(_, ok) =>
      if !p.Writing? then s
      else if ok then SetPhase(s.(disk := s.disk[p.loc := p.data]), t, Written(p.id, p.loc, p.data))
      else SetPhase(s, t, Undoing(p.id, p.loc))
    case Commit(_, ok) => if p.Written? then CommitAll(cfg, s, t, p, ok) else s
    case ReturnZone(_, ok) => if p.Written? then GiveBack(cfg, s, t, p, ok) else s
    case ListZone(_) => if p.Returned? then List(cfg, s, t, p) else s
    case InsertEntry(_) => if p.Listed? then Publish(s, t, p) else s
    case UndoZone(_) => if p.Undoing? then Undo(cfg, s, t, p) else s
    case FailEntry(_) => if p.Failing? then FailFill(s, t, p.id) else s
    case StartEvict(_) => if p.Idle? then SetPhase(s, t, Evicting(None)) else s
    case PopVictim(_) => if p.Evicting? then Pop(s, t, p.back) else s
    case ClearZone(_) => if p.Clearing? then Clear(s, t, p.zone, p.back) else s
    case PassDrain(_) =>
      if p.Draining? && p.zone < |s.cm.readers| && s.cm.readers[p.zone] <= 0
      then SetPhase(s, t, Resetting(p.zone, p.back)) else s
    case ResetZone(_, ok) => if p.Resetting? then Reset(cfg, s, t, p.zone, p.back, ok) else s
    case StopEvict(_) => if p.Evicting? then SetPhase(s, t, Resume(p.back)) else s
  }

  /** The state a run reaches. Every sequence of steps is a run. */
  function Exec(cfg: Config, steps: seq<Step>): State {
    if steps == [] then Init(cfg)
    else Apply(cfg, Exec(cfg, steps[..|steps| - 1]), steps[|steps| - 1])
  }

  lemma OneStepMore(cfg: Config, steps: seq<Step>, step: Step)
    ensures Exec(cfg, steps + [step]) == Apply(cfg, Exec(cfg, steps), step)
  {
    assert (steps + [step])[..|steps|] == steps;
  }

  // ---------- Kinds of runs ----------

  /** The tail of each miss is taken in one step. */
  predicate AtomicStep(step: Step) {
    !step.ReturnZone? && !step.ListZone? && !step.InsertEntry?
  }

  /** Zone commands of the device succeed. */
  predicate DeviceStep(cfg: Config, step: Step) {
    match step
    case Allocate(_, ok) => cfg.DeviceOk(ok)
    case Commit(_, ok) => cfg.DeviceOk(ok)
    case ReturnZone(_, ok) => cfg.DeviceOk(ok)
    case ResetZone(_, ok) => cfg.DeviceOk(ok)
    case _ => true
  }

  /** Identifiers asked for fit in an `int`. */
  predicate SmallIdStep(step: Step) {
    step.LookupStep? ==> step.id < HALF_WORD
  }

  ghost predicate AtomicRun(steps: seq<Step>) {
    forall i :: 0 <= i < |steps| ==> AtomicStep(steps[i])
  }

  ghost predicate DeviceSucceeds(cfg: Config, steps: seq<Step>) {
    forall i :: 0 <= i < |steps| ==> DeviceStep(cfg, steps[i])
  }

  ghost predicate SmallIds(steps: seq<Step>) {
    forall i :: 0 <= i < |steps| ==> SmallIdStep(steps[i])
  }
}
