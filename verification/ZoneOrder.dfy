/** Which chunk a concurrent request is given, by histories read off the run's steps: the zones take
    turns in the order in which they were handed back, and free ones in the order of their resets. */
module ZoneOrder {
  import opened ZnTypes
  import opened Protocol
  import opened L = Lru
  import opened Z = ZoneState
  import opened ZoneOwnership
  import opened Interleavings
  import opened FineRuns

  predicate HandsBack(s: State, step: Step) {
    !s.aborted && (step.Commit? || step.ReturnZone?) && At(s.threads, step.t).Written?
  }

  predicate Undoes(s: State, step: Step) {
    !s.aborted && step.UndoZone? && At(s.threads, step.t).Undoing?
  }

  predicate AsksForPlace(s: State, step: Step) {
    !s.aborted && step.Allocate? && At(s.threads, step.t).Allocating?
  }

  predicate Resets(cfg: Config, s: State, step: Step) {
    step.ResetZone? && At(s.threads, step.t).Resetting? && !Apply(cfg, s, step).aborted
  }

  /** The active zones a step puts into line or takes out: one is handed back with chunks to write, or
      one of its chunks is handed out. */
  function TurnsOf(cfg: Config, s: State, step: Step): seq<Turn> {
    var p, p' := At(s.threads, step.t), At(Apply(cfg, s, step).threads, step.t);
    if HandsBack(s, step) then HandBackTurn(cfg, p.loc, true)
    else if Undoes(s, step) then HandBackTurn(cfg, p.loc, false)
    else if AsksForPlace(s, step) && p'.Allocated? then [Popped(p'.loc.zone)]
    else []
  }

  /** The same for the free zones; one that the device fails to open is taken out too. */
  function FreeTurnsOf(cfg: Config, s: State, step: Step): seq<Turn> {
    var p, p' := At(s.threads, step.t), At(Apply(cfg, s, step).threads, step.t);
    if Resets(cfg, s, step) then [Filled(p.zone)]
    else if AsksForPlace(s, step) && p'.Allocated? then [Popped(p'.loc.zone)]
    else if AsksForPlace(s, step) && p'.Failing? && s.zsm.free != [] then [Popped(s.zsm.free[0])]
    else []
  }

  ghost function Turns(cfg: Config, steps: seq<Step>): seq<Turn> {
    if steps == [] then [] else
    var before, last := steps[..|steps| - 1], steps[|steps| - 1];
    Turns(cfg, before) + TurnsOf(cfg, Exec(cfg, before), last)
  }

  /** In the beginning all zones are free, in the order of their numbers. */
  ghost function FreeTurns(cfg: Config, steps: seq<Step>): seq<Turn> {
    if steps == [] then AllFree(cfg.numZones) else
    var before, last := steps[..|steps| - 1], steps[|steps| - 1];
    FreeTurns(cfg, before) + FreeTurnsOf(cfg, Exec(cfg, before), last)
  }

  ghost function AllFree(n: nat): seq<Turn> {
    seq(n, i => Filled(i))
  }

  /** How many chunks of a zone were written since its last reset. */
  ghost function ChunksWritten(cfg: Config, steps: seq<Step>, z: nat): nat {
    if steps == [] then 0 else
    var before, last := steps[..|steps| - 1], steps[|steps| - 1];
    var s, n := Exec(cfg, before), ChunksWritten(cfg, before, z);
    if HandsBack(s, last) && At(s.threads, last.t).loc.zone == z then n + 1
    else if Resets(cfg, s, last) && At(s.threads, last.t).zone == z then 0
    else n
  }

  // ---------- The queues follow the histories ----------

  ghost predicate InLine(cfg: Config, zsm: Zsm, h: seq<Turn>, f: seq<Turn>) {
    InTurn(zsm.active, h) && InTurn(zsm.free, f)
  }

  lemma {:induction false} StartsInLine(n: nat)
    ensures InTurn(seq(n, i => i), AllFree(n))
  {
    var q, h := seq(n, i => i), AllFree(n);
    if n > 0 {
      StartsInLine(n - 1);
      assert q == seq(n - 1, i => i) + [n - 1] && h == AllFree(n - 1) + [Filled(n - 1)];
      PutKeepsTurns(seq(n - 1, i => i), AllFree(n - 1), n - 1);
    }
  }

  lemma AllocateLines(cfg: Config, s: State, step: Step, h: seq<Turn>, f: seq<Turn>)
    requires cfg.Valid() && FineInv(cfg, s) && InLine(cfg, s.zsm, h, f) && step.Allocate?
    ensures InLine(cfg, Apply(cfg, s, step).zsm, h + TurnsOf(cfg, s, step), f + FreeTurnsOf(cfg, s, step))
  {
    assert h + [] == h && f + [] == f;
    if AsksForPlace(s, step) {
      GetActiveTurns(cfg, s.zsm, step.ok, h, f);
    }
  }

  lemma HandBackZones(cfg: Config, s: State, step: Step)
    requires FineInv(cfg, s) && HandsBack(s, step)
    ensures var loc := At(s.threads, step.t).loc;
            && HandBackOk(cfg, s.zsm, loc) && loc.chunk < cfg.maxChunks
            && Apply(cfg, s, step).zsm == ReturnActive(cfg, s.zsm, loc, step.ok)
  {
    GiveBackKeeps(cfg, s, step.t, step.ok);
    assert HoldsZone(s.threads, step.t, At(s.threads, step.t).loc.zone);
  }

  lemma HandBackLines(cfg: Config, s: State, step: Step, h: seq<Turn>, f: seq<Turn>)
    requires FineInv(cfg, s) && InLine(cfg, s.zsm, h, f) && (step.Commit? || step.ReturnZone?)
    ensures InLine(cfg, Apply(cfg, s, step).zsm, h + TurnsOf(cfg, s, step), f + FreeTurnsOf(cfg, s, step))
  {
    assert h + [] == h && f + [] == f;
    if HandsBack(s, step) {
      HandBackZones(cfg, s, step);
      ReturnActiveTurns(cfg, s.zsm, At(s.threads, step.t).loc, step.ok, h);
    }
  }

  lemma UndoLines(cfg: Config, s: State, step: Step, h: seq<Turn>, f: seq<Turn>)
    requires FineInv(cfg, s) && InLine(cfg, s.zsm, h, f) && step.UndoZone?
    ensures InLine(cfg, Apply(cfg, s, step).zsm, h + TurnsOf(cfg, s, step), f + FreeTurnsOf(cfg, s, step))
  {
    assert h + [] == h && f + [] == f;
    if Undoes(s, step) {
      UndoStepKeeps(cfg, s, step.t);
      FailedToWriteTurns(cfg, s.zsm, At(s.threads, step.t).loc, h);
    }
  }

  lemma ResetLines(cfg: Config, s: State, step: Step, h: seq<Turn>, f: seq<Turn>)
    requires FineInv(cfg, s) && InLine(cfg, s.zsm, h, f) && step.ResetZone?
    ensures InLine(cfg, Apply(cfg, s, step).zsm, h + TurnsOf(cfg, s, step), f + FreeTurnsOf(cfg, s, step))
  {
    assert h + [] == h && f + [] == f;
    if Resets(cfg, s, step) && !s.aborted {
      EvictZoneTurns(cfg, s.zsm, At(s.threads, step.t).zone, f);
    }
  }

  lemma StepLines(cfg: Config, s: State, step: Step, h: seq<Turn>, f: seq<Turn>)
    requires cfg.Valid() && FineInv(cfg, s) && InLine(cfg, s.zsm, h, f)
    ensures InLine(cfg, Apply(cfg, s, step).zsm, h + TurnsOf(cfg, s, step), f + FreeTurnsOf(cfg, s, step))
  {
    if step.Allocate? {
      AllocateLines(cfg, s, step, h, f);
    } else if step.Commit? || step.ReturnZone? {
      HandBackLines(cfg, s, step, h, f);
    } else if step.UndoZone? {
      UndoLines(cfg, s, step, h, f);
    } else if step.ResetZone? {
      ResetLines(cfg, s, step, h, f);
    } else {
      assert h + [] == h && f + [] == f;
      OtherStepsKeepZones(cfg, s, step);
    }
  }

  /** In every run, whatever the device does, the active zones stand in line in the order in which
      they were handed back, and the free ones in the order in which they were reset. */
  lemma {:induction false} ZonesInLine(cfg: Config, steps: seq<Step>)
    requires cfg.Valid()
    ensures InLine(cfg, Exec(cfg, steps).zsm, Turns(cfg, steps), FreeTurns(cfg, steps))
  {
    if steps == [] {
      StartsInLine(cfg.numZones);
    } else {
      var before, last := steps[..|steps| - 1], steps[|steps| - 1];
      ZonesInLine(cfg, before);
      FineRun(cfg, before);
      StepLines(cfg, Exec(cfg, before), last, Turns(cfg, before), FreeTurns(cfg, before));
    }
  }

  // ---------- Chunks of a zone ----------

  lemma AllocateWritesNothing(cfg: Config, s: State, step: Step, z: nat)
    requires cfg.Valid() && FineInv(cfg, s) && z < cfg.numZones && step.Allocate?
    ensures |Apply(cfg, s, step).zsm.zones| == cfg.numZones
    ensures Z.Written(cfg, Apply(cfg, s, step).zsm, z) == Z.Written(cfg, s.zsm, z)
  {
    if AsksForPlace(s, step) {
      GetActiveInv(cfg, s.zsm, step.ok);
      assert s.zsm.free != [] ==> s.zsm.free[0] in s.zsm.free;
      assert s.zsm.active != [] ==> s.zsm.active[0] in s.zsm.active;
      assert forall y: nat :: y < cfg.numZones ==> OffsetOk(cfg, s.zsm.zones[y]);
    }
  }

  lemma HandBackWrites(cfg: Config, s: State, step: Step, z: nat)
    requires FineInv(cfg, s) && z < cfg.numZones && (step.Commit? || step.ReturnZone?)
    ensures |Apply(cfg, s, step).zsm.zones| == cfg.numZones
    ensures Z.Written(cfg, Apply(cfg, s, step).zsm, z) ==
              Z.Written(cfg, s.zsm, z) + if HandsBack(s, step) && At(s.threads, step.t).loc.zone == z then 1 else 0
  {
    if HandsBack(s, step) {
      HandBackZones(cfg, s, step);
      ReturnWrites(cfg, s.zsm, At(s.threads, step.t).loc, step.ok, z);
    }
  }

  lemma ReturnWrites(cfg: Config, zsm: Zsm, loc: Loc, ok: bool, z: nat)
    requires HandBackOk(cfg, zsm, loc) && loc.chunk < cfg.maxChunks && z < |zsm.zones|
    ensures Z.Written(cfg, ReturnActive(cfg, zsm, loc, ok), z) ==
              Z.Written(cfg, zsm, z) + if loc.zone == z then 1 else 0
  {
  }

  lemma UndoWritesNothing(cfg: Config, s: State, step: Step, z: nat)
    requires FineInv(cfg, s) && z < cfg.numZones && step.UndoZone?
    ensures |Apply(cfg, s, step).zsm.zones| == cfg.numZones
    ensures Z.Written(cfg, Apply(cfg, s, step).zsm, z) == Z.Written(cfg, s.zsm, z)
  {
    if Undoes(s, step) {
      UndoStepKeeps(cfg, s, step.t);
    }
  }

  lemma ResetEmpties(cfg: Config, s: State, step: Step, z: nat)
    requires FineInv(cfg, s) && z < cfg.numZones && step.ResetZone? && !s.aborted
    ensures |Apply(cfg, s, step).zsm.zones| == cfg.numZones
    ensures Z.Written(cfg, Apply(cfg, s, step).zsm, z) ==
              if Resets(cfg, s, step) && At(s.threads, step.t).zone == z then 0 else Z.Written(cfg, s.zsm, z)
  {
  }

  lemma {:induction false} WrittenExactly(cfg: Config, steps: seq<Step>, z: nat)
    requires cfg.Valid() && z < cfg.numZones
    ensures |Exec(cfg, steps).zsm.zones| == cfg.numZones
    ensures Z.Written(cfg, Exec(cfg, steps).zsm, z) == ChunksWritten(cfg, steps, z)
  {
    if steps != [] {
      var before, last := steps[..|steps| - 1], steps[|steps| - 1];
      var s := Exec(cfg, before);
      WrittenExactly(cfg, before, z);
      FineRun(cfg, before);
      if s.aborted {
      } else if last.Allocate? {
        AllocateWritesNothing(cfg, s, last, z);
      } else if last.Commit? || last.ReturnZone? {
        HandBackWrites(cfg, s, last, z);
      } else if last.UndoZone? {
        UndoWritesNothing(cfg, s, last, z);
      } else if last.ResetZone? {
        ResetEmpties(cfg, s, last, z);
      } else {
        OtherStepsKeepZones(cfg, s, last);
      }
    }
  }

  // ---------- What a request for a place comes to ----------

  /** Threads that were given a place and have still to hand it back. */
  ghost function Writers(th: map<Tid, Phase>): set<Tid> {
    set t | t in th && Holds(th[t]).Some?
  }

  lemma {:induction false} OneZoneEach(th: map<Tid, Phase>, ts: set<Tid>, zs: set<nat>)
    requires forall t :: t in ts ==> exists z :: z in zs && HoldsZone(th, t, z)
    requires forall z :: z in zs ==> exists t :: t in ts && HoldsZone(th, t, z)
    requires forall t, u, z: nat :: HoldsZone(th, t, z) && HoldsZone(th, u, z) ==> t == u
    ensures |ts| == |zs|
    decreases |ts|
  {
    if t :| t in ts {
      var z :| z in zs && HoldsZone(th, t, z);
      forall u | u in ts - {t}
        ensures exists y :: y in zs - {z} && HoldsZone(th, u, y)
      {
        var y :| y in zs && HoldsZone(th, u, y);
        assert y in zs - {z};
      }
      forall y | y in zs - {z}
        ensures exists u :: u in ts - {t} && HoldsZone(th, u, y)
      {
        var u :| u in ts && HoldsZone(th, u, y);
        assert u in ts - {t};
      }
      OneZoneEach(th, ts - {t}, zs - {z});
    }
  }

  lemma WritesAreWriters(cfg: Config, s: State)
    requires FineInv(cfg, s)
    ensures s.zsm.writes == |Writers(s.threads)| <= cfg.maxActive
  {
    var ts, zs := Writers(s.threads), BeingWritten(cfg, s.zsm);
    forall t | t in ts
      ensures exists z :: z in zs && HoldsZone(s.threads, t, z)
    {
      assert HoldsZone(s.threads, t, Holds(At(s.threads, t)).value.zone);
    }
    forall z | z in zs
      ensures exists t :: t in ts && HoldsZone(s.threads, t, z)
    {
      assert IsBeingWritten(cfg, s.zsm, z);
      var t :| HoldsZone(s.threads, t, z);
      assert t in ts;
    }
    OneZoneEach(s.threads, ts, zs);
  }

  /** What the allocator answers when the histories of active and free zones are `h` and `f`, and so
      many places are held. */
  ghost predicate Given(cfg: Config, h: seq<Turn>, f: seq<Turn>, held: nat, ok: bool, r: GetResult) {
    if exists z: nat :: LastUse(h, z).Some? then r.Success? && IsOldest(h, r.loc.zone)
    else if exists z: nat :: LastUse(f, z).Some? then
      if held >= cfg.maxActive then r.Retry?
      else if cfg.DeviceOk(ok) then r.Success? && IsOldest(f, r.loc.zone) && r.loc.chunk == 0
      else r.Error?
    else if held == 0 then r.Evict? else r.Retry?
  }

  lemma SomeInTurn(q: seq<nat>, h: seq<Turn>)
    requires InTurn(q, h)
    ensures (exists z: nat :: LastUse(h, z).Some?) <==> q != []
  {
    if q != [] {
      var z := q[0];
      assert z in q && LastUse(h, z).Some?;
      assert exists y: nat :: LastUse(h, y).Some?;
    }
    forall z: nat | LastUse(h, z).Some?
      ensures q != []
    {
      assert z in q;
    }
  }

  lemma AllocatorGives(cfg: Config, zsm: Zsm, ok: bool, h: seq<Turn>, f: seq<Turn>)
    requires cfg.Valid() && Z.Inv(cfg, zsm) && InLine(cfg, zsm, h, f)
    ensures GetActiveOk(cfg, zsm) && Given(cfg, h, f, zsm.writes, ok, GetActive(cfg, zsm, ok).1)
  {
    GetActiveTurns(cfg, zsm, ok, h, f);
    SomeInTurn(zsm.active, h);
    SomeInTurn(zsm.free, f);
  }

  /** Asking for a place goes on as the allocator answers, with the next chunk of the zone given. */
  ghost predicate GoesOn(cfg: Config, steps: seq<Step>, id: Id, r: GetResult, p: Phase) {
    match r
    case Success(loc) => p == Allocated(id, loc) && loc.chunk == ChunksWritten(cfg, steps, loc.zone)
    case Retry => p == Allocating(id)
    case Error => p == Failing(id)
    case Evict => p == Evicting(Some(id))
  }

  lemma NextChunk(cfg: Config, steps: seq<Step>, ok: bool)
    requires cfg.Valid() && GetActiveOk(cfg, Exec(cfg, steps).zsm)
    ensures var r := GetActive(cfg, Exec(cfg, steps).zsm, ok).1;
            r.Success? ==> r.loc.chunk == ChunksWritten(cfg, steps, r.loc.zone)
  {
    var s := Exec(cfg, steps);
    var r := GetActive(cfg, s.zsm, ok).1;
    FineRun(cfg, steps);
    if r.Success? {
      assert s.zsm.active == [] ==> s.zsm.free[0] in s.zsm.free;
      WrittenExactly(cfg, steps, r.loc.zone);
    }
  }

  /** A request that asks for a place is given the next chunk of the zone handed back longest ago, or
      else, as long as fewer places are held than zones may be open, the first of the zone that has been
      free longest. It gives up only if the device does not open that one, evicts only if no zone is
      active, free or held, and otherwise asks again. */
  lemma AllocateComesTo(cfg: Config, steps: seq<Step>, t: Tid, ok: bool)
    requires cfg.Valid() && !Exec(cfg, steps).aborted && At(Exec(cfg, steps).threads, t).Allocating?
    ensures var s := Exec(cfg, steps);
            exists r: GetResult ::
              && Given(cfg, Turns(cfg, steps), FreeTurns(cfg, steps), |Writers(s.threads)|, ok, r)
              && GoesOn(cfg, steps, At(s.threads, t).id, r, At(Apply(cfg, s, Allocate(t, ok)).threads, t))
  {
    var s := Exec(cfg, steps);
    FineRun(cfg, steps);
    ZonesInLine(cfg, steps);
    AllocatorGives(cfg, s.zsm, ok, Turns(cfg, steps), FreeTurns(cfg, steps));
    WritesAreWriters(cfg, s);
    NextChunk(cfg, steps, ok);
    var r := GetActive(cfg, s.zsm, ok).1;
    assert GoesOn(cfg, steps, At(s.threads, t).id, r, At(Apply(cfg, s, Allocate(t, ok)).threads, t));
  }
}
