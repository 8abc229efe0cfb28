/** The data theorems for runs in which the tail of a miss is one step, without any hypothesis on how
    the steps are ordered. */
module AtomicRuns {
  import opened ZnTypes
  import opened Protocol
  import opened Buffers
  import opened C = CacheMap
  import opened FillOwnership
  import opened Transparency
  import opened HitHistory

  /** Every request answered from the cache, with any number of readers, writers and evictors and
      whatever the device does, got the bytes last generated for its identifier at its lookup. */
  lemma AtomicHits(cfg: Config, steps: seq<Step>, i: nat)
    requires cfg.Valid() && AtomicRun(steps) && i < |Exec(cfg, steps).hits|
    ensures Exec(cfg, steps).hits[i].data == Exec(cfg, steps).hits[i].promised
    ensures var h := Exec(cfg, steps).hits[i];
            exists k: nat, m: nat :: AnswersAt(cfg, steps, m, i) && FoundAt(cfg, steps, k, m, steps[m].t, h.id, h.data)
  {
    AtomicRunsAreIntact(cfg, steps);
    HitsReturnLastGenerated(cfg, steps, i);
    HitsAreTransparent(cfg, steps, i);
  }

  /** When all requests pass the same remote data, every hit passes the validation. */
  lemma AtomicHitsValidate(cfg: Config, steps: seq<Step>, buffer: Data, i: nat)
    requires cfg.Valid() && AtomicRun(steps) && i < |Exec(cfg, steps).hits| && |buffer| >= ID_BYTES
    requires forall j :: 0 <= j < |steps| && steps[j].Generate? ==> steps[j].buffer == buffer
    ensures var h := Exec(cfg, steps).hits[i];
            |h.data| == |buffer| && Validates(h.data, h.id, buffer)
  {
    AtomicRunsAreIntact(cfg, steps);
    HitsValidate(cfg, steps, buffer, i);
  }

  /** From lookup to decrement the reader's chunk holds what it was promised. */
  lemma AtomicReaders(cfg: Config, steps: seq<Step>, t: Tid)
    requires cfg.Valid() && AtomicRun(steps)
    requires var p := At(Exec(cfg, steps).threads, t); p.Reading? || p.HaveRead? || p.Promoted?
    ensures var s := Exec(cfg, steps);
            Peek(s.disk, At(s.threads, t).loc) == At(s.threads, t).promised
  {
    AtomicRunsAreIntact(cfg, steps);
    ReaderSeesPromise(cfg, steps, t);
  }

  /** What the map locates is on the disk as it was last generated. */
  lemma AtomicMap(cfg: Config, steps: seq<Step>, id: Id, loc: Loc)
    requires cfg.Valid() && AtomicRun(steps) && IsLocated(Exec(cfg, steps).cm, id, loc)
    ensures var s := Exec(cfg, steps);
            LastIs(s.lastGen, id, Peek(s.disk, loc)) && HasData(cfg, s.zsm, loc) && Indexed(s.cm, loc, id)
  {
    AtomicRunsAreIntact(cfg, steps);
    MapTellsTheTruth(cfg, steps, id, loc);
  }

  /** Between the clearing of a zone and its reset nothing is located in it and no step makes a new
      reader of it. */
  lemma AtomicClearing(cfg: Config, steps: seq<Step>, step: Step, t: Tid, z: nat)
    requires cfg.Valid() && AtomicRun(steps) && IsCleared(Exec(cfg, steps).threads, t, z)
    ensures forall id: Id, c: nat :: !IsLocated(Exec(cfg, steps).cm, id, Loc(z, c))
    ensures ReadersOf(Apply(cfg, Exec(cfg, steps), step).threads, z) <= ReadersOf(Exec(cfg, steps).threads, z)
  {
    AtomicRunsAreIntact(cfg, steps);
    ClearedStaysCleared(cfg, steps, step, t, z);
  }

  /** When a zone is reset no thread reads it and nothing is located in it. */
  lemma AtomicReset(cfg: Config, steps: seq<Step>, t: Tid)
    requires cfg.Valid() && AtomicRun(steps) && At(Exec(cfg, steps).threads, t).Resetting?
    ensures var s := Exec(cfg, steps);
            var z := At(s.threads, t).zone;
            && ReadersOf(s.threads, z) == {} && z < |s.cm.readers| && s.cm.readers[z] == 0
            && forall id: Id, c: nat :: !IsLocated(s.cm, id, Loc(z, c))
  {
    AtomicRunsAreIntact(cfg, steps);
    ResetFindsNoReader(cfg, steps, t);
  }
}
