/** The cache under the chunk policy, serving one request at a time: which chunk a request gets, and
    what eviction and garbage collection do to map, zones, queue and heap. The bytes on disk are not
    part of it. Any command of the device may fail. */
module ChunkCache {
  import opened ZnTypes
  import opened Lru
  import opened ChunkPool
  import opened SingleRequest
  import opened ChunkAgreement
  import opened ChunkMiss
  import opened MinHeap
  import ChunkPolicy
  import ZoneState
  import CacheMap

  /** How garbage collection ended. `Refused` is a failed assertion about the victim or its reset,
      `HeapEmpty` has no victim, `LiveVictim` a victim whose chunks would have to be moved. */
  datatype GcResult = Enough | Reclaimed | Refused | HeapEmpty | LiveVictim

  /** What an eviction that collects zones comes to; `moves` says whether a live chunk gets a place and
      an entry. Opening its zone, reading and writing either fail an assertion or lead to the publication. */
  function ComesTo(gc: GcResult, moves: bool): Eviction {
    match gc
    case Enough => Evicted
    case Reclaimed => Evicted
    case Refused => Faults(NotFreed)
    case HeapEmpty => Faults(NoVictim)
    case LiveVictim => if moves then Moves else Faults(NotMoved)
  }

  lemma CollectionDecides(cfg: Config, b: Snapshot, zero: bool, resets: nat -> bool, gc: GcResult, moves: bool)
    requires Due(b) > 0 && FaultOf(b, Due(b)) == None
    requires gc.Refused? ==> !Freeable(cfg, b.s, DeadThen(b), resets)
    requires gc.Enough? || gc.Reclaimed? ==> !TooFewDead(|b.s.free|, |DeadThen(b)|)
    requires gc.HeapEmpty? || gc.LiveVictim? ==>
               && TooFewDead(|b.s.free|, |DeadThen(b)|)
               && (gc.LiveVictim? <==> LiveAmong(b.q.p, b.q.view, DeadThen(b)))
    requires gc.LiveVictim? ==> (moves <==> zero && RoomThen(b))
    ensures Decided(cfg, b, zero, resets, ComesTo(gc, moves))
  {
  }

  /** What looking for a place comes to. A request that is declined an eviction is declined it in
      every turn and never ends. */
  datatype Place = Found(loc: Loc) | NotOpened | NotEvicted(why: Eviction)

  /** What a request comes to; `NoBytes` is the null pointer. */
  datatype Answer = Served(loc: Loc) | Stored(loc: Loc) | NoBytes | Starved | Faulted(why: Fault) | MovesChunks

  /** The location the search ended with, if it did with one. */
  function FoundAt(place: Place): Option<Loc> {
    if place.Found? then Some(place.loc) else None
  }

  /** The answer the state before a miss calls for when there is no room, unless a dead zone cannot be
      freed. */
  ghost predicate Expected(cfg: Config, b: Snapshot, zero: bool, resets: nat -> bool, answer: Answer) {
    Fits(OutcomeOf(b, zero), answer) || (answer == Faulted(NotFreed) && Stuck(cfg, b, resets))
  }

  /** The answer the state before a miss calls for, with room or without. */
  ghost predicate Asked(cfg: Config, b: Snapshot, zero: bool, resets: nat -> bool, answer: Answer) {
    if NoRoom(b.s) then Expected(cfg, b, zero, resets, answer) else answer.Stored? || answer.NoBytes?
  }

  /** What was decided about an eviction after the lookup was decided before it. */
  lemma Answers(cfg: Config, b: Snapshot, c: Snapshot, zero: bool, resets: nat -> bool, r: Eviction, answer: Answer)
    requires c == b.(m := c.m) && c.m.dataMap == b.m.dataMap && Fits(r, answer)
    requires if NoRoom(b.s) then Decided(cfg, c, zero, resets, r) else r.Evicted?
    ensures Asked(cfg, b, zero, resets, answer)
  {
    SameOutcome(cfg, b, c, zero, resets);
  }

  /** What the search for a place found out about evicting. */
  function Why(place: Place): Eviction {
    if place.NotEvicted? then place.why else Evicted
  }

  function AnswerTo(why: Eviction): (answer: Answer)
    requires !why.Evicted?
    ensures Fits(why, answer)
  {
    match why
    case Declined => Starved
    case Faults(fault) => Faulted(fault)
    case Moves => MovesChunks
  }

  /** The answer of a miss goes with the outcome of its eviction. */
  predicate Fits(r: Eviction, answer: Answer) {
    match r
    case Declined => answer.Starved?
    case Faults(why) => answer == Faulted(why)
    case Moves => answer.MovesChunks?
    case Evicted => answer.Stored? || answer.NoBytes?
  }

  class Cache {
    const cfg: Config
    const zsm: ZoneState.ZoneStateManager
    const entries: CacheMap.Map
    const policy: ChunkPolicy.Policy

    ghost predicate Valid()
      reads this, zsm, zsm.state, entries, entries.dataMap, entries.activeReaders
      reads policy, policy.zonePool, policy.heap, policy.heap.arr, policy.heap.members, policy.heap.issued
    {
      PartsValid() && Joined(cfg, zsm.Abs(), entries.Abs(), policy.zonePool[..], policy.heap.View())
    }

    /** Between two requests. */
    ghost predicate AtRest()
      reads this, zsm, zsm.state, entries, entries.dataMap, entries.activeReaders
    {
      Resting(zsm.Abs(), entries.Abs())
    }

    /** The state as a request finds it. */
    ghost function Now(): Snapshot
      reads this, zsm, zsm.state, entries, entries.dataMap, entries.activeReaders
      reads policy, policy.zonePool, policy.heap, policy.heap.members
    {
      Snapshot(zsm.Abs(), entries.Abs(), policy.State())
    }

    /** A location some write holds. */
    ghost predicate HandedOut(loc: Loc)
      reads this, zsm, zsm.state
    {
      InPool(cfg, loc) && loc.zone < zsm.state.Length
      && zsm.state[loc.zone] == ZoneState.Zone(ZoneState.WriteOccurring, loc.chunk)
    }

    constructor (cfg: Config)
      requires cfg.Valid() && cfg.numZones * cfg.maxChunks < WORD
      ensures this.cfg == cfg && Valid() && AtRest() && policy.lruQueue == [] && policy.uses == []
      ensures zsm.Abs() == ZoneState.Init(cfg) && entries.Abs() == CacheMap.Init(cfg.numZones)
      ensures policy.zonePool[..] == ChunkPool.Init(cfg) && policy.totalChunks == cfg.numZones * cfg.maxChunks
      ensures fresh(zsm) && fresh(zsm.state) && fresh(entries) && fresh(entries.dataMap) && fresh(entries.activeReaders)
      ensures fresh(policy) && fresh(policy.zonePool) && fresh(policy.heap) && fresh(policy.heap.arr)
      ensures policy.heap.issued == {}
    {
      this.cfg := cfg;
      zsm := new ZoneState.ZoneStateManager(cfg);
      entries := new CacheMap.Map(cfg.numZones);
      policy := new ChunkPolicy.Policy(cfg);
      new;
      InitJoined(cfg);
    }

    ghost predicate PartsValid()
      reads this, zsm, zsm.state, entries, entries.dataMap, entries.activeReaders
      reads policy, policy.zonePool, policy.heap, policy.heap.arr, policy.heap.members, policy.heap.issued
    {
      zsm.cfg == cfg && policy.cfg == cfg && zsm.Valid() && entries.Valid() && policy.Valid()
    }

    /** Look an identifier up between two requests. */
    method Find(id: Id) returns (found: CacheMap.Found)
      requires Valid() && AtRest()
      modifies entries`zoneMap, entries`conds, entries`nextCond, entries.activeReaders
      ensures Valid() && old(CacheMap.LookupOk(entries.Abs(), id)) && Now() == Looked(old(Now()), id)
      ensures found == CacheMap.Lookup(old(entries.Abs()), 0, id).1
      ensures Sought(cfg, old(Now()), id, Now(), found)
    {
      ghost var b := Now();
      LooksUp(cfg, b, id);
      found := entries.FindTurn(0, id);
      PartsAgree(Looked(b, id));
    }

    /** Tell the policy about a read, and stop counting as a reader. */
    method Read(loc: Loc)
      requires Valid() && InPool(cfg, loc)
      modifies policy, entries.activeReaders
      ensures Valid() && loc.zone < |old(entries.Abs()).readers| && old(TouchOk(policy.Queue(), loc))
      ensures Now() == old(Now()).(m := CacheMap.DropReader(old(entries.Abs()), loc.zone),
                                   q := TouchedBy(old(policy.State()), loc))
    {
      ghost var b := Now();
      DropReaderJoins(cfg, b.s, b.m, b.q.p, b.q.view, loc.zone);
      policy.TouchChunk(loc);
      entries.DropReaderOf(loc.zone);
      PartsAgree(b.(m := CacheMap.DropReader(b.m, loc.zone), q := TouchedBy(b.q, loc)));
    }

    /** Ask the zone state manager for a place. */
    method AskForZone(openOk: bool) returns (r: ZoneState.GetResult)
      requires Valid() && zsm.writesOccurring == 0
      modifies zsm`active, zsm`free, zsm`writesOccurring, zsm.state
      ensures Valid() && Now() == old(Now()).(s := zsm.Abs()) && old(ZoneState.GetActiveOk(cfg, zsm.Abs()))
      ensures (zsm.Abs(), r) == ZoneState.GetActive(cfg, old(zsm.Abs()), openOk)
      ensures !r.Retry? && (r.Evict? <==> old(NoRoom(zsm.Abs()))) && (r.Error? ==> !cfg.DeviceOk(openOk))
      ensures r.Success? ==> HandedOut(r.loc)
      ensures zsm.writesOccurring == if r.Success? then 1 else 0
    {
      ghost var b := Now();
      AllocateAtRest(cfg, b.s, openOk);
      AllocationJoins(cfg, b.s, b.m, b.q.p, b.q.view, openOk);
      r := TakePlace(openOk);
    }

    /** Take the place the zone state manager hands out. */
    method TakePlace(openOk: bool) returns (r: ZoneState.GetResult)
      requires Valid() && ZoneState.GetActiveOk(cfg, zsm.Abs())
      requires Joined(cfg, ZoneState.GetActive(cfg, zsm.Abs(), openOk).0, entries.Abs(), policy.zonePool[..],
                      policy.heap.View())
      modifies zsm`active, zsm`free, zsm`writesOccurring, zsm.state
      ensures Valid() && Now() == old(Now()).(s := zsm.Abs()) && old(ZoneState.GetActiveOk(cfg, zsm.Abs()))
      ensures (zsm.Abs(), r) == ZoneState.GetActive(cfg, old(zsm.Abs()), openOk)
    {
      ghost var b := Now();
      r := zsm.GetActiveZone(openOk);
      PartsAgree(b.(s := ZoneState.GetActive(cfg, b.s, openOk).0));
    }

    /** Give the entry up. */
    method GiveUp(id: Id)
      requires Valid() && Filling(entries.Abs(), id)
      modifies entries`zoneMap, entries`conds
      ensures Valid() && old(CacheMap.FailOk(entries.Abs(), id))
      ensures Now() == old(Now()).(m := CacheMap.Fail(old(entries.Abs()), id))
    {
      ghost var b := Now();
      FailSettles(b.m, id);
      FailJoins(cfg, b.s, b.m, b.q.p, b.q.view, id);
      entries.FailEntry(id);
      PartsAgree(b.(m := CacheMap.Fail(b.m, id)));
    }

    /** Give a place back after a failed write. */
    method Undo(loc: Loc)
      requires Valid() && HandedOut(loc)
      modifies zsm`active, zsm`writesOccurring, zsm.state
      ensures Valid() && old(ZoneState.FailedOk(cfg, zsm.Abs(), loc))
      ensures Now() == old(Now()).(s := ZoneState.FailedToWrite(cfg, old(zsm.Abs()), loc))
    {
      ghost var b := Now();
      UndoJoins(cfg, b.s, b.m, b.q.p, b.q.view, loc);
      zsm.FailedToWriteZone(loc);
      PartsAgree(b.(s := ZoneState.FailedToWrite(cfg, b.s, loc)));
    }

    /** The parts agree if what they stand for does. */
    lemma PartsAgree(c: Snapshot)
      requires PartsValid() && Now() == c && Joined(cfg, c.s, c.m, c.q.p, c.q.view)
      ensures Valid()
    {
    }

    /** Publish a location once the zone is handed back and the policy was told. */
    method Publish(id: Id, loc: Loc)
      requires PartsValid() && CacheMap.InsertOk(entries.Abs(), id, loc)
      requires Joined(cfg, zsm.Abs(), CacheMap.Insert(entries.Abs(), id, loc), policy.zonePool[..], policy.heap.View())
      modifies entries`zoneMap, entries`conds, entries.dataMap
      ensures Valid() && old(CacheMap.InsertOk(entries.Abs(), id, loc))
      ensures entries.Abs() == CacheMap.Insert(old(entries.Abs()), id, loc)
    {
      ghost var b := Now();
      entries.InsertEntry(id, loc);
      PartsAgree(b.(m := CacheMap.Insert(b.m, id, loc)));
    }

    /** Tell the policy about a write. */
    method TellPolicy(loc: Loc)
      requires PartsValid() && InPool(cfg, loc)
      requires !InUse(policy.zonePool[..], loc) && !Queued(policy.zonePool[..], policy.heap.View(), loc.zone)
      modifies policy, policy.zonePool, policy.heap, policy.heap.arr, policy.heap.members`index
      ensures PartsValid() && Now() == old(Now()).(q := policy.State())
      ensures FilledBy(cfg, old(policy.State()), policy.State(), loc) && policy.heap.arr == old(policy.heap.arr)
      ensures forall e :: e in policy.heap.issued ==> e in old(policy.heap.issued) || fresh(e)
    {
      policy.Update(loc, Write);
    }

    /** Hand back a zone after a write and tell the policy. */
    method ReturnZone(loc: Loc, closeOk: bool)
      requires Valid() && HandedOut(loc)
      modifies policy, policy.zonePool, policy.heap, policy.heap.arr, policy.heap.members`index
      modifies zsm`active, zsm`writesOccurring, zsm.state
      ensures PartsValid() && FilledBy(cfg, old(policy.State()), policy.State(), loc)
      ensures old(ZoneState.HandBackOk(cfg, zsm.Abs(), loc))
      ensures zsm.Abs() == ZoneState.ReturnActive(cfg, old(zsm.Abs()), loc, closeOk)
      ensures policy.heap.arr == old(policy.heap.arr)
      ensures forall e :: e in policy.heap.issued ==> e in old(policy.heap.issued) || fresh(e)
    {
      BeingFilled(cfg, zsm.Abs(), entries.Abs(), policy.zonePool[..], policy.heap.View(), loc);
      var _ := zsm.ReturnActiveZone(loc, closeOk);
      TellPolicy(loc);
    }

    /** The tail of a miss: hand back the zone, tell the policy, publish the location. */
    method CommitChunk(id: Id, loc: Loc, closeOk: bool)
      requires Valid() && HandedOut(loc) && CacheMap.InsertOk(entries.Abs(), id, loc)
      modifies policy, policy.zonePool, policy.heap, policy.heap.arr, policy.heap.members`index
      modifies zsm`active, zsm`writesOccurring, zsm.state, entries`zoneMap, entries`conds, entries.dataMap
      ensures Valid() && FilledBy(cfg, old(policy.State()), policy.State(), loc)
      ensures old(CacheMap.InsertOk(entries.Abs(), id, loc))
      ensures entries.Abs() == CacheMap.Insert(old(entries.Abs()), id, loc)
      ensures old(ZoneState.HandBackOk(cfg, zsm.Abs(), loc))
      ensures zsm.Abs() == ZoneState.ReturnActive(cfg, old(zsm.Abs()), loc, closeOk)
      ensures policy.heap.arr == old(policy.heap.arr)
      ensures forall e :: e in policy.heap.issued ==> e in old(policy.heap.issued) || fresh(e)
    {
      ghost var b := Now();
      ReturnZone(loc, closeOk);
      FillKeeps(cfg, b.s, b.m, b.q, id, loc, closeOk, policy.State());
      Publish(id, loc);
    }

    /** Drop the least recently used chunk from queue, pool and heap. Only the map is then behind. */
    method DropHead() returns (loc: Loc)
      requires Valid() && policy.lruQueue != []
      modifies policy, policy.zonePool, policy.heap`elems, policy.heap`prios, policy.heap.arr, policy.heap.issued
      ensures PartsValid() && loc == old(policy.lruQueue)[0].key
      ensures Now() == old(Now()).(q := policy.State()) && policy.State() == old(policy.State()).(
                p := policy.zonePool[..], view := policy.heap.View(), l := PopHead(old(policy.Queue())),
                uses := old(policy.uses) + [Popped(loc)])
      ensures Dropped(old(policy.zonePool[..]), old(policy.heap.View()), policy.zonePool[..], policy.heap.View(), loc)
      ensures CacheMap.Mirror(entries.Abs()) && loc.zone < |entries.Abs().dataMap|
      ensures CacheMap.ClearChunkOk(entries.Abs(), loc) <==> SmallAt(entries.Abs(), loc)
      ensures SmallAt(entries.Abs(), loc) ==>
                Joined(cfg, zsm.Abs(), CacheMap.ClearChunk(entries.Abs(), loc), policy.zonePool[..], policy.heap.View())
    {
      ghost var b := Now();
      loc := policy.DropChunk();
      EvictChunkKeeps(cfg, b.s, b.m, b.q.p, b.q.view, loc, policy.zonePool[..], policy.heap.View());
    }

    /** Take a chunk that was dropped out of the map. */
    method Unpublish(loc: Loc) returns (ok: bool)
      requires PartsValid() && CacheMap.Mirror(entries.Abs()) && loc.zone < |entries.Abs().dataMap|
      requires CacheMap.ClearChunkOk(entries.Abs(), loc) <==> SmallAt(entries.Abs(), loc)
      requires SmallAt(entries.Abs(), loc) ==>
                 Joined(cfg, zsm.Abs(), CacheMap.ClearChunk(entries.Abs(), loc), policy.zonePool[..],
                        policy.heap.View())
      modifies entries`zoneMap, entries.dataMap
      ensures Now() == old(Now()).(m := entries.Abs())
      ensures ok <==> old(SmallAt(entries.Abs(), loc))
      ensures ok ==> Valid() && Cleared(old(entries.Abs()), entries.Abs(), loc)
    {
      ghost var b := Now();
      ok := entries.ClearChunkEntry(loc);
      if ok {
        PartsAgree(b.(m := CacheMap.ClearChunk(b.m, loc)));
      }
    }

    /** Evict the least recently used chunk, if there is one. */
    method EvictChunk() returns (fault: Option<Fault>, ghost loc: Loc)
      requires Valid()
      modifies policy, policy.zonePool, policy.heap`elems, policy.heap`prios, policy.heap.arr, policy.heap.issued
      modifies entries`zoneMap, entries.dataMap
      ensures fault == if old(policy.lruQueue) == [] then Some(NoChunk)
                       else if old(SmallAt(entries.Abs(), policy.lruQueue[0].key)) then None else Some(LargeId)
      ensures fault == None ==> Valid() && EvictedChunk(old(Now()), Now(), loc)
    {
      loc := Loc(0, 0);
      if policy.lruQueue == [] {
        return Some(NoChunk), loc;
      }
      var at := DropHead();
      loc := at;
      var ok := Unpublish(at);
      fault := if ok then None else Some(LargeId);
    }

    /** An eviction that started in the given state took the given chunks. */
    ghost predicate EvictedFrom(b: Snapshot, evicted: seq<Loc>)
      reads this, zsm, zsm.state, entries, entries.dataMap, entries.activeReaders
      reads policy, policy.zonePool, policy.heap, policy.heap.arr, policy.heap.members, policy.heap.issued
    {
      Valid() && Lru.Inv(b.q.l) && EvictedChunks(b, Now(), evicted)
    }

    /** The next turn of an eviction. */
    method EvictNext(ghost b: Snapshot, ghost evicted: seq<Loc>) returns (fault: Option<Fault>, ghost loc: Loc)
      requires EvictedFrom(b, evicted) && !FaultsWithin(b, |evicted|)
      modifies policy, policy.zonePool, policy.heap`elems, policy.heap`prios, policy.heap.arr, policy.heap.issued
      modifies entries`zoneMap, entries.dataMap
      ensures fault == None <==> !FaultsAt(b, |evicted|)
      ensures fault.Some? ==> fault.value == if |evicted| < |b.q.l.queue| then LargeId else NoChunk
      ensures fault == None ==> EvictedFrom(b, evicted + [loc]) && !FaultsWithin(b, |evicted| + 1)
    {
      ghost var c := Now();
      FaultStays(b, c, evicted);
      fault, loc := EvictChunk();
      if fault == None {
        OneMoreEvicted(cfg, b, c, Now(), evicted, loc);
        NoFaultYet(b, |evicted|);
      }
    }

    /** The loop of the eviction. */
    method EvictMany(n: nat) returns (fault: Option<Fault>, ghost evicted: seq<Loc>)
      requires Valid()
      modifies policy, policy.zonePool, policy.heap`elems, policy.heap`prios, policy.heap.arr, policy.heap.issued
      modifies entries`zoneMap, entries.dataMap
      ensures fault == FaultOf(old(Now()), n)
      ensures fault == None ==> |evicted| == n && EvictedFrom(old(Now()), evicted)
    {
      ghost var b := Now();
      NoneEvicted(b);
      evicted := [];
      for i: nat := 0 to n
        invariant |evicted| == i && EvictedFrom(b, evicted) && !FaultsWithin(b, i)
      {
        ghost var loc;
        fault, loc := EvictNext(b, evicted);
        if fault.Some? {
          FirstFault(b, i, n);
          return;
        }
        evicted := evicted + [loc];
      }
      fault := None;
    }

    /** How many chunks to evict, counted in 32 bits: none unless few are free, and then as many as
        are missing. There are as many in the queue exactly if the disk has at least 12 chunks. */
    method NumberToEvict() returns (n: nat)
      requires policy.Valid()
      ensures n == Missing(policy.totalChunks, |policy.lruQueue|)
      ensures n > 0 <==> policy.lruQueue != [] && policy.totalChunks - |policy.lruQueue| <= 6
      ensures n > 0 ==> policy.totalChunks - |policy.lruQueue| + n == 12
      ensures |policy.lruQueue| <= policy.totalChunks
      ensures n > 0 ==> (n <= |policy.lruQueue| <==> policy.totalChunks >= EVICT_LOW_THRESH_CHUNKS)
    {
      QueueCounts(policy.cfg, policy.zonePool[..], policy.Queue());
      var inLru := |policy.lruQueue|;
      var freeChunks := SubWord(policy.totalChunks, inLru);
      if inLru == 0 || freeChunks > EVICT_HIGH_THRESH_CHUNKS {
        return 0;
      }
      EvictArithmetic(policy.totalChunks, inLru);
      n := SubWord(EVICT_LOW_THRESH_CHUNKS, freeChunks);
    }

    /** The eviction of chunks left twelve free, and the zones expected are dead. */
    ghost predicate TwelveFree(b: Snapshot)
      reads this, zsm, zsm.state, entries, entries.dataMap, entries.activeReaders
      reads policy, policy.zonePool, policy.heap, policy.heap.arr, policy.heap.members, policy.heap.issued
    {
      && EvictedFrom(b, DueChunks(b)) && policy.DeadZones() == DeadThen(b)
      && policy.totalChunks - |policy.lruQueue| == EVICT_LOW_THRESH_CHUNKS
    }

    /** If few chunks are free, evict least recently used ones until as many are free as there
        should be. */
    method EvictLeastUsed() returns (did: bool, fault: Option<Fault>)
      requires Valid()
      modifies policy, policy.zonePool, policy.heap, policy.heap.arr, policy.heap.issued
      modifies entries`zoneMap, entries.dataMap
      ensures did <==> Due(old(Now())) > 0
      ensures did ==> fault == FaultOf(old(Now()), Due(old(Now())))
      ensures !did || fault.Some? || TwelveFree(old(Now()))
      ensures did || (Valid() && Now() == old(Now()))
      ensures policy.heap.arr == old(policy.heap.arr) && policy.heap.issued == old(policy.heap.issued)
    {
      ghost var b := Now();
      var n := NumberToEvict();
      did := n > 0;
      if !did {
        return false, None;
      }
      ghost var evicted;
      fault, evicted := EvictMany(n);
      if fault == None {
        assert evicted == DueChunks(b);
        DeadAfterEviction(cfg, b, Now(), evicted);
      }
    }

    /** Clear a zone without a chunk in use: nothing is mapped there. */
    method ClearDead(z: nat)
      requires PartsValid() && CacheMap.ClearZoneOk(entries.Abs(), z)
      requires CacheMap.ClearZone(entries.Abs(), z) == entries.Abs()
      modifies entries`zoneMap, entries.dataMap
      ensures PartsValid() && Now() == old(Now())
    {
      var ok := entries.ClearZoneEntries(z);
      assert ok;
    }

    /** Reset a cleared zone that was taken off the heap. */
    method ResetDead(z: nat, resetOk: bool) returns (ok: bool)
      requires PartsValid() && z < cfg.numZones
      requires ZoneState.HasCond(zsm.Abs(), z, ZoneState.Full) ==>
                 Joined(cfg, ZoneState.EvictZone(cfg, zsm.Abs(), z), entries.Abs(), policy.zonePool[..],
                        policy.heap.View())
      modifies zsm`free, zsm.state
      ensures Now() == old(Now()).(s := zsm.Abs())
      ensures ok <==> old(ZoneState.EvictOk(cfg, zsm.Abs(), z, resetOk))
      ensures ok ==>
                && Valid() && old(ZoneState.HasCond(zsm.Abs(), z, ZoneState.Full))
                && zsm.Abs() == ZoneState.EvictZone(cfg, old(zsm.Abs()), z)
    {
      ghost var b := Now();
      ok := zsm.Evict(z, resetOk);
      if ok {
        PartsAgree(b.(s := ZoneState.EvictZone(cfg, b.s, z)));
      }
    }

    /** Clear and reset a zone that was taken off the heap dead. */
    method FreeDead(z: nat, resetOk: bool, ghost b: Snapshot) returns (ok: bool)
      requires PartsValid() && z < cfg.numZones && TakenDead(cfg, b, Now(), z)
      modifies zsm`free, zsm.state, entries`zoneMap, entries.dataMap
      ensures Now() == old(Now()).(s := zsm.Abs())
      ensures ok <==> ZoneState.EvictOk(cfg, b.s, z, resetOk)
      ensures ok ==> Valid() && ReclaimedOne(cfg, b, Now(), z)
    {
      ClearDead(z);
      ok := ResetDead(z, resetOk);
    }

    /** Take the zone with fewest chunks in use off the heap. Only the heap is then behind. */
    method PickVictim() returns (e: Handle?, dead: bool)
      requires Valid()
      modifies policy.heap, policy.heap.arr, policy.heap.members`index
      ensures PartsValid() && (e == null <==> old(policy.heap.View()) == map[])
      ensures Now() == old(Now()).(q := old(policy.State()).(view := policy.heap.View()))
      ensures e != null ==>
                && e in old(policy.heap.View()) && policy.heap.View() == old(policy.heap.View()) - {e}
                && Fewest(policy.zonePool[..], old(policy.heap.View()), e.data) && policy.zonePool[e.data].entry == e
                && (dead <==> policy.zonePool[e.data].chunksInUse == 0)
      ensures e != null && dead <==> old(policy.DeadZones()) != {}
      ensures e != null && dead ==> TakenDead(cfg, old(Now()), Now(), e.data)
      ensures policy.heap.arr == old(policy.heap.arr) && policy.heap.issued == old(policy.heap.issued)
      ensures policy.heap.members <= old(policy.heap.members)
    {
      ghost var b := Now();
      e, dead := policy.TakeVictim();
      if e != null && dead {
        TakesDead(cfg, b, Now(), e);
      }
    }

    /** Take the zone with fewest chunks in use off the heap and, if it has none, reset it. */
    method ReclaimOne(resetOk: bool) returns (r: GcResult, ghost victim: nat)
      requires Valid()
      modifies policy.heap, policy.heap.arr, policy.heap.members`index
      modifies zsm`free, zsm.state, entries`zoneMap, entries.dataMap
      ensures !r.Enough? && (r.HeapEmpty? <==> old(policy.heap.View()) == map[])
      ensures r.Reclaimed? || r.Refused? <==> old(policy.DeadZones()) != {}
      ensures Now() == old(Now()).(s := zsm.Abs(), q := old(policy.State()).(view := policy.heap.View()))
      ensures r.Reclaimed? || r.Refused? ==>
                && victim in old(policy.DeadZones())
                && (r.Reclaimed? <==> old(ZoneState.EvictOk(cfg, zsm.Abs(), victim, resetOk)))
      ensures r.Reclaimed? ==> Valid() && ReclaimedOne(cfg, old(Now()), Now(), victim)
      ensures r.LiveVictim? ==>
                && PartsValid() && zsm.Abs() == old(zsm.Abs())
                && Fewest(policy.zonePool[..], old(policy.heap.View()), victim)
                && 0 < policy.zonePool[victim].chunksInUse
                && policy.heap.View() == old(policy.heap.View()) - {policy.zonePool[victim].entry}
      ensures policy.heap.arr == old(policy.heap.arr) && policy.heap.issued == old(policy.heap.issued)
      ensures policy.heap.members <= old(policy.heap.members)
    {
      ghost var b := Now();
      victim := 0;
      var e, dead := PickVictim();
      if e == null {
        return HeapEmpty, victim;
      }
      victim := e.data;
      if !dead {
        return LiveVictim, victim;
      }
      var ok := FreeDead(e.data, resetOk, b);
      r := if ok then Reclaimed else Refused;
    }

    /** A zone in the heap, not dead, is left there. */
    ghost predicate AnyLive()
      reads policy, policy.zonePool, policy.heap, policy.heap.members
    {
      LiveAmong(policy.zonePool[..], policy.heap.View(), policy.DeadZones())
    }

    /** Reclaim zones until enough are free. It takes all dead zones that are needed before it comes
        to one with live chunks or to an empty heap; it resets only dead ones, into which nothing is
        mapped. */
    method Gc(resets: nat -> bool) returns (r: GcResult, ghost victims: seq<nat>)
      requires Valid()
      modifies policy.heap, policy.heap.arr, policy.heap.members`index
      modifies zsm`free, zsm.state, entries`zoneMap, entries.dataMap
      ensures r.Enough? <==> |old(zsm.free)| > 2
      ensures r.Reclaimed? ==> !old(TooFewDead(|zsm.free|, |policy.DeadZones()|))
      ensures r.HeapEmpty? || r.LiveVictim? ==>
                old(TooFewDead(|zsm.free|, |policy.DeadZones()|)) && (r.LiveVictim? <==> old(AnyLive()))
      ensures r.Refused? ==> !old(Freeable(cfg, zsm.Abs(), policy.DeadZones(), resets))
      ensures r.LiveVictim? ==> |victims| == |old(policy.DeadZones())|
      ensures Now() == old(Now()).(s := zsm.Abs(), q := old(policy.State()).(view := policy.heap.View()))
      ensures r.Enough? ==> Valid() && victims == [] && Now() == old(Now())
      ensures r.Reclaimed? ==> Valid() && |zsm.free| == 4
      ensures r.Reclaimed? || r.LiveVictim? ==> zsm.Abs() == Freed(old(zsm.Abs()), victims)
      ensures forall z :: z in victims ==> z in old(policy.DeadZones())
      ensures forall id: Id, loc :: CacheMap.IsLocated(entries.Abs(), id, loc) ==> loc.zone !in victims
      ensures policy.heap.arr == old(policy.heap.arr) && policy.heap.issued == old(policy.heap.issued)
    {
      NothingInDead(cfg, zsm.Abs(), entries.Abs(), policy.zonePool[..], policy.heap.View());
      victims := [];
      var freeZones := zsm.NumFreeZones();
      if freeZones > EVICT_HIGH_THRESH_ZONES {
        return Enough, victims;
      }
      r, victims := ReclaimMissing(freeZones, resets);
    }

    /** A collection that started in the given state reclaimed the victims so far. */
    ghost predicate CollectedFrom(b: Snapshot, victims: seq<nat>)
      reads this, zsm, zsm.state, entries, entries.dataMap, entries.activeReaders
      reads policy, policy.zonePool, policy.heap, policy.heap.arr, policy.heap.members, policy.heap.issued
    {
      && Valid() && Now() == b.(s := zsm.Abs(), q := b.q.(view := policy.heap.View()))
      && Reclaiming(b, Now(), victims)
    }

    /** The next turn of a collection. */
    method ReclaimNext(resets: nat -> bool, ghost b: Snapshot, ghost victims: seq<nat>, i: nat)
      returns (r: GcResult, ghost z: nat)
      requires CollectedFrom(b, victims) && i == |victims| && |b.s.free| + i < EVICT_LOW_THRESH_ZONES
      modifies policy.heap, policy.heap.arr, policy.heap.members`index
      modifies zsm`free, zsm.state, entries`zoneMap, entries.dataMap
      ensures !r.Enough? && (r.Reclaimed? ==> CollectedFrom(b, victims + [z]))
      ensures r.Refused? ==> !Freeable(cfg, b.s, Dead(b.q.p, b.q.view), resets)
      ensures r.HeapEmpty? || r.LiveVictim? ==>
                && |Dead(b.q.p, b.q.view)| == i
                && (r.LiveVictim? <==> LiveAmong(b.q.p, b.q.view, Dead(b.q.p, b.q.view)))
      ensures r.LiveVictim? ==> zsm.Abs() == old(zsm.Abs())
      ensures Now() == old(Now()).(s := zsm.Abs(), q := old(policy.State()).(view := policy.heap.View()))
      ensures policy.heap.arr == old(policy.heap.arr) && policy.heap.issued == old(policy.heap.issued)
      ensures policy.heap.members <= old(policy.heap.members)
    {
      ghost var c := Now();
      r, z := ReclaimOne(resets(i));
      if r.Reclaimed? {
        OneMoreReclaimed(cfg, b, c, Now(), victims, z);
      } else {
        CollectionStops(cfg, b, c, victims, resets, r.Refused?, z);
      }
    }

    /** The loop of the collection. */
    method ReclaimMissing(free: nat, resets: nat -> bool) returns (r: GcResult, ghost victims: seq<nat>)
      requires Valid() && free == |zsm.free| <= EVICT_LOW_THRESH_ZONES
      modifies policy.heap, policy.heap.arr, policy.heap.members`index
      modifies zsm`free, zsm.state, entries`zoneMap, entries.dataMap
      ensures !r.Enough? && (r.Reclaimed? ==> |old(policy.DeadZones())| >= EVICT_LOW_THRESH_ZONES - free)
      ensures r.HeapEmpty? || r.LiveVictim? ==>
                && |old(policy.DeadZones())| < EVICT_LOW_THRESH_ZONES - free
                && (r.LiveVictim? <==> old(AnyLive()))
      ensures r.LiveVictim? ==> zsm.Abs() == Freed(old(zsm.Abs()), victims) && |victims| == |old(policy.DeadZones())|
      ensures r.Refused? ==> !old(Freeable(cfg, zsm.Abs(), policy.DeadZones(), resets))
      ensures Now() == old(Now()).(s := zsm.Abs(), q := old(policy.State()).(view := policy.heap.View()))
      ensures r.Reclaimed? ==>
                Valid() && |zsm.free| == EVICT_LOW_THRESH_ZONES && zsm.Abs() == Freed(old(zsm.Abs()), victims)
      ensures forall z :: z in victims ==> z in old(policy.DeadZones())
      ensures policy.heap.arr == old(policy.heap.arr) && policy.heap.issued == old(policy.heap.issued)
    {
      ghost var b := Now();
      NoneReclaimed(b);
      victims := [];
      var freeZones := free;
      while freeZones < EVICT_LOW_THRESH_ZONES
        invariant CollectedFrom(b, victims)
        invariant freeZones == |zsm.free| == free + |victims| <= EVICT_LOW_THRESH_ZONES
        invariant policy.heap.arr == old(policy.heap.arr) && policy.heap.issued == old(policy.heap.issued)
        invariant policy.heap.members <= old(policy.heap.members)
      {
        ghost var z;
        r, z := ReclaimNext(resets, b, victims, freeZones - free);
        if !r.Reclaimed? {
          return;
        }
        victims := victims + [z];
        freeZones := zsm.NumFreeZones();
      }
      r := Reclaimed;
    }

    /** Whether the first move of a chunk finds a place and an entry to publish it under. */
    method MoveStarts() returns (ok: bool)
      ensures ok <==> !NoRoom(zsm.Abs()) && CacheMap.IsPending(entries.Abs(), 0)
    {
      ok := (zsm.active != [] || zsm.free != []) && 0 in entries.zoneMap && entries.zoneMap[0].Pending?;
    }

    /** The collection of an eviction, once the chunks are taken. */
    method Collect(resets: nat -> bool, ghost b: Snapshot) returns (r: Eviction, ghost victims: seq<nat>)
      requires TwelveFree(b) && Due(b) > 0 && FaultOf(b, Due(b)) == None
      modifies policy.heap, policy.heap.arr, policy.heap.members`index
      modifies zsm`free, zsm.state, entries`zoneMap, entries.dataMap
      ensures Decided(cfg, b, CacheMap.IsPending(b.m, 0), resets, r)
      ensures !r.Evicted? || (Valid() && Swept(b, Now(), victims)
                              && policy.totalChunks - |policy.lruQueue| == EVICT_LOW_THRESH_CHUNKS)
      ensures !r.Declined?
      ensures Now() == old(Now()).(s := zsm.Abs(), q := old(policy.State()).(view := policy.heap.View()))
      ensures policy.heap.arr == old(policy.heap.arr) && policy.heap.issued == old(policy.heap.issued)
    {
      ghost var c := Now();
      SameLive(b, c);
      var gc;
      gc, victims := Gc(resets);
      var moves := false;
      if gc.Enough? || gc.Reclaimed? {
        FreedNone(c.s);
        Sweeps(b, c, Now(), victims);
      } else if gc.LiveVictim? {
        RoomAfter(b, Now().s, victims);
        moves := MoveStarts();
      }
      CollectionDecides(cfg, b, CacheMap.IsPending(b.m, 0), resets, gc, moves);
      r := ComesTo(gc, moves);
    }

    /** The policy's eviction: chunks first, then zones. */
    method Evict(resets: nat -> bool) returns (r: Eviction, ghost victims: seq<nat>)
      requires Valid()
      modifies policy, policy.zonePool, policy.heap, policy.heap.arr, policy.heap.issued
      modifies zsm`free, zsm.state, entries`zoneMap, entries.dataMap
      ensures Decided(cfg, old(Now()), old(CacheMap.IsPending(entries.Abs(), 0)), resets, r)
      ensures !r.Declined? || (Valid() && Now() == old(Now()))
      ensures !r.Evicted? || (Valid() && Swept(old(Now()), Now(), victims)
                              && policy.totalChunks - |policy.lruQueue| == EVICT_LOW_THRESH_CHUNKS)
      ensures policy.heap.arr == old(policy.heap.arr) && policy.heap.issued == old(policy.heap.issued)
    {
      ghost var b := Now();
      victims := [];
      var did, fault;
      did, fault := EvictLeastUsed();
      if did && fault == None {
        r, victims := Collect(resets, b);
      } else {
        r := if did then Faults(fault.value) else Declined;
        EndsEarly(cfg, b, CacheMap.IsPending(b.m, 0), resets, fault);
      }
    }

    /** With no zone active or free, evict; nothing if that made room. Declined an eviction, every
        further turn is like this one. */
    method EvictForRoom(id: Id, resets: nat -> bool, ghost b: Snapshot)
      returns (r: Option<Place>, ghost victims: seq<nat>)
      requires Valid() && Filling(entries.Abs(), id) && Now() == b && NoRoom(b.s) && b.s.writes == 0
      modifies policy, policy.zonePool, policy.heap, policy.heap.arr, policy.heap.issued
      modifies zsm`free, zsm.state, entries`zoneMap, entries.dataMap
      ensures r.Some? ==>
                r.value.NotEvicted? && !r.value.why.Evicted? && Decided(cfg, b, id == 0, resets, r.value.why)
      ensures r == None ==> Decided(cfg, b, id == 0, resets, Evicted) && Roomy(b, id, victims)
      ensures policy.heap.arr == old(policy.heap.arr) && policy.heap.issued == old(policy.heap.issued)
    {
      var e;
      e, victims := Evict(resets);
      if e.Evicted? {
        FillSurvives(b.m, entries.Abs(), DueChunks(b), id);
        return None, victims;
      }
      r := Some(NotEvicted(e));
    }

    /** An eviction made room for the fill. */
    ghost predicate Roomy(b: Snapshot, id: Id, victims: seq<nat>)
      reads this, zsm, zsm.state, entries, entries.dataMap, entries.activeReaders
      reads policy, policy.zonePool, policy.heap, policy.heap.arr, policy.heap.members, policy.heap.issued
    {
      && Valid() && Filling(entries.Abs(), id) && zsm.writesOccurring == 0
      && NoRoom(b.s) && Swept(b, Now(), victims)
    }

    /** A place was found for the one chunk to be written, or the device did not open a zone. */
    ghost predicate PlacedFrom(b: Snapshot, id: Id, openOk: bool, place: Option<Loc>, victims: seq<nat>)
      reads this, zsm, zsm.state, entries, entries.dataMap, entries.activeReaders
      reads policy, policy.zonePool, policy.heap, policy.heap.arr, policy.heap.members, policy.heap.issued
    {
      && Valid() && Filling(entries.Abs(), id) && Placed(cfg, b, victims, openOk, place, Now())
      && (if place.Some? then HandedOut(place.value) && zsm.writesOccurring == 1
          else !cfg.DeviceOk(openOk) && zsm.writesOccurring == 0)
    }

    /** One try to find a place; nothing if it takes an eviction. `turns` evictions were made. */
    method TryAllocate(id: Id, openOk: bool, ghost b: Snapshot, ghost victims: seq<nat>, ghost turns: nat)
      returns (r: Option<Place>)
      requires Valid() && Filling(entries.Abs(), id) && zsm.writesOccurring == 0
      requires if turns == 0 then Now() == b && victims == [] else Roomy(b, id, victims)
      modifies zsm`active, zsm`free, zsm`writesOccurring, zsm.state
      ensures r == None <==> turns == 0 && NoRoom(b.s)
      ensures r == None ==> Valid() && Filling(entries.Abs(), id) && Now() == b && zsm.writesOccurring == 0
      ensures r.Some? ==> r.value.Found? || r.value.NotOpened?
      ensures r.Some? ==> PlacedFrom(b, id, openOk, FoundAt(r.value), victims)
    {
      ghost var c := Now();
      var got := AskForZone(openOk);
      match got {
        case Retry => assert false;
        case Error => r := Some(NotOpened);
        case Success(at) => r := Some(Found(at));
        case Evict => r := None;
      }
      if r.Some? {
        AskPlaces(cfg, b, victims, openOk, FoundAt(r.value), c, Now(), turns);
      }
    }

    /** One turn of the loop that finds a place for a chunk; nothing if there will be another. */
    method Turn(id: Id, openOk: bool, resets: nat -> bool, ghost b: Snapshot, ghost victims: seq<nat>, ghost turns: nat)
      returns (r: Option<Place>, ghost victims': seq<nat>)
      requires turns <= 1 && Looking(b, id, resets, victims, turns)
      modifies policy, policy.zonePool, policy.heap, policy.heap.arr, policy.heap.issued
      modifies zsm`active, zsm`free, zsm`writesOccurring, zsm.state, entries`zoneMap, entries.dataMap
      ensures r == None ==> turns == 0 && Looking(b, id, resets, victims', 1)
      ensures r.Some? ==> Ends(b, id, openOk, resets, r.value, victims')
      ensures policy.heap.arr == old(policy.heap.arr) && policy.heap.issued == old(policy.heap.issued)
    {
      victims' := victims;
      r := TryAllocate(id, openOk, b, victims, turns);
      if r == None {
        r, victims' := EvictForRoom(id, resets, b);
      }
    }

    /** The search that started in the given state ended. */
    ghost predicate Ends(b: Snapshot, id: Id, openOk: bool, resets: nat -> bool, r: Place, victims: seq<nat>)
      reads this, zsm, zsm.state, entries, entries.dataMap, entries.activeReaders
      reads policy, policy.zonePool, policy.heap, policy.heap.arr, policy.heap.members, policy.heap.issued
    {
      && (if NoRoom(b.s) then Decided(cfg, b, id == 0, resets, Why(r)) else Why(r).Evicted?)
      && (if r.NotEvicted? then !r.why.Evicted? else PlacedFrom(b, id, openOk, FoundAt(r), victims))
    }

    /** The loop that finds a place for a chunk. It evicts exactly when no zone is active or free, and
        then asks the allocator once more. */
    method Allocate(id: Id, openOk: bool, resets: nat -> bool)
      returns (r: Place, ghost victims: seq<nat>, ghost turns: nat)
      requires Valid() && Filling(entries.Abs(), id) && zsm.writesOccurring == 0
      modifies policy, policy.zonePool, policy.heap, policy.heap.arr, policy.heap.issued
      modifies zsm`active, zsm`free, zsm`writesOccurring, zsm.state, entries`zoneMap, entries.dataMap
      ensures turns <= 2 && Ends(old(Now()), id, openOk, resets, r, victims)
      ensures policy.heap.arr == old(policy.heap.arr) && policy.heap.issued == old(policy.heap.issued)
    {
      ghost var b := Now();
      victims, turns := [], 0;
      while true
        invariant turns <= 1 && Looking(b, id, resets, victims, turns)
        invariant policy.heap.arr == old(policy.heap.arr) && policy.heap.issued == old(policy.heap.issued)
        decreases 2 - turns
      {
        var place;
        place, victims := Turn(id, openOk, resets, b, victims, turns);
        turns := turns + 1;
        if place.Some? {
          return place.value, victims, turns;
        }
      }
    }

    /** Before the next turn of the loop that finds a place. */
    ghost predicate Looking(b: Snapshot, id: Id, resets: nat -> bool, victims: seq<nat>, turns: nat)
      reads this, zsm, zsm.state, entries, entries.dataMap, entries.activeReaders
      reads policy, policy.zonePool, policy.heap, policy.heap.arr, policy.heap.members, policy.heap.issued
    {
      && Valid() && Filling(entries.Abs(), id) && zsm.writesOccurring == 0
      && if turns == 0 then Now() == b && victims == []
         else Roomy(b, id, victims) && Decided(cfg, b, id == 0, resets, Evicted)
    }

    /** Publish what was written, or give everything back. */
    method Settle(id: Id, loc: Loc, written: bool, closeOk: bool)
      requires Valid() && Filling(entries.Abs(), id) && HandedOut(loc) && zsm.writesOccurring == 1
      modifies policy, policy.zonePool, policy.heap, policy.heap.arr, policy.heap.members`index
      modifies zsm`active, zsm`writesOccurring, zsm.state, entries`zoneMap, entries`conds, entries.dataMap
      ensures Valid() && AtRest()
      ensures Ended(cfg, id, old(Now()), Some(loc), written, closeOk, Now())
      ensures policy.heap.arr == old(policy.heap.arr)
      ensures forall e :: e in policy.heap.issued ==> e in old(policy.heap.issued) || fresh(e)
    {
      ghost var b := Now();
      ZoneState.FailedToWriteInv(cfg, b.s, loc);
      if written {
        InsertSettles(b.m, id, loc);
        CommitChunk(id, loc, closeOk);
        CommitEnds(cfg, id, b, Now(), loc, closeOk);
      } else {
        FailSettles(b.m, id);
        Undo(loc);
        GiveUp(id);
        UndoEnds(cfg, id, b, Now(), Some(loc), closeOk);
      }
    }

    /** What the allocator's answer makes of a miss: fill the place found, or give the entry up. */
    method FillFound(place: Option<Loc>, id: Id, writeOk: bool, closeOk: bool) returns (answer: Answer)
      requires Valid() && Filling(entries.Abs(), id)
      requires if place.Some? then HandedOut(place.value) && zsm.writesOccurring == 1 else zsm.writesOccurring == 0
      modifies policy, policy.zonePool, policy.heap, policy.heap.arr, policy.heap.members`index
      modifies zsm`active, zsm`writesOccurring, zsm.state, entries`zoneMap, entries`conds, entries.dataMap
      ensures Valid() && AtRest() && answer == if place.Some? && writeOk then Stored(place.value) else NoBytes
      ensures Ended(cfg, id, old(Now()), place, answer.Stored?, closeOk, Now())
      ensures policy.heap.arr == old(policy.heap.arr)
      ensures forall e :: e in policy.heap.issued ==> e in old(policy.heap.issued) || fresh(e)
    {
      if place.Some? {
        Settle(id, place.value, writeOk, closeOk);
        answer := if writeOk then Stored(place.value) else NoBytes;
      } else {
        ghost var b := Now();
        FailSettles(b.m, id);
        GiveUp(id);
        UndoEnds(cfg, id, b, Now(), None, closeOk);
        answer := NoBytes;
      }
    }

    /** The rest of a miss, once the search for a place ended. */
    method FinishMiss(r: Place, id: Id, openOk: bool, writeOk: bool, closeOk: bool, ghost b: Snapshot,
                      ghost found: Snapshot, ghost victims: seq<nat>)
      returns (answer: Answer)
      requires r.NotEvicted? || PlacedFrom(found, id, openOk, FoundAt(r), victims)
      requires r.NotEvicted? ==> !r.why.Evicted?
      requires found == b.(m := found.m) && RestKept(b.m, found.m, id)
      modifies policy, policy.zonePool, policy.heap, policy.heap.arr, policy.heap.issued
      modifies zsm`active, zsm`writesOccurring, zsm.state, entries`zoneMap, entries`conds, entries.dataMap
      ensures Fits(Why(r), answer)
      ensures r.NotEvicted? || Answered(b, id, victims, openOk, FoundAt(r), writeOk, closeOk, answer)
      ensures policy.heap.arr == old(policy.heap.arr)
      ensures forall e :: e in policy.heap.issued ==> e in old(policy.heap.issued) || fresh(e)
    {
      if r.NotEvicted? {
        return AnswerTo(r.why);
      }
      ghost var placed := Now();
      answer := FillFound(FoundAt(r), id, writeOk, closeOk);
      MissComposes(cfg, id, b, found, placed, Now(), victims, openOk, FoundAt(r), answer.Stored?, closeOk);
    }

    /** A miss that started in the given state was answered. */
    ghost predicate Answered(b: Snapshot, id: Id, victims: seq<nat>, openOk: bool, place: Option<Loc>, writeOk: bool,
                             closeOk: bool, answer: Answer)
      reads this, zsm, zsm.state, entries, entries.dataMap, entries.activeReaders
      reads policy, policy.zonePool, policy.heap, policy.heap.arr, policy.heap.members, policy.heap.issued
    {
      && Valid() && AtRest() && answer == (if place.Some? && writeOk then Stored(place.value) else NoBytes)
      && Missed(cfg, id, b, victims, openOk, place, answer.Stored?, closeOk, Now())
    }

    /** A hit that started in the given state found the location; only the queue has changed. */
    ghost predicate FoundIn(b: Snapshot, id: Id, loc: Loc)
      reads this, zsm, zsm.state, entries, entries.dataMap, entries.activeReaders
      reads policy, policy.zonePool, policy.heap, policy.heap.arr, policy.heap.members, policy.heap.issued
    {
      && CacheMap.IsLocated(b.m, id, loc) && TouchOk(b.q.l, loc)
      && Valid() && AtRest() && Now() == b.(q := TouchedBy(b.q, loc))
    }

    /** Read a chunk that a lookup found, for a request that started in the given state. */
    method Serve(id: Id, loc: Loc, ghost b: Snapshot)
      requires Valid() && Resting(b.s, b.m) && InPool(cfg, loc) && loc.zone < |entries.Abs().readers|
      requires Now() == b.(m := entries.Abs()) && CacheMap.DropReader(entries.Abs(), loc.zone) == b.m
      requires CacheMap.IsLocated(b.m, id, loc)
      modifies policy, entries.activeReaders
      ensures FoundIn(b, id, loc)
    {
      Read(loc);
    }

    /** Fill an entry: find a place, write a chunk there, and publish it or give everything back. */
    method Miss(id: Id, openOk: bool, writeOk: bool, closeOk: bool, resets: nat -> bool, ghost b: Snapshot)
      returns (answer: Answer, ghost victims: seq<nat>, ghost place: Option<Loc>, ghost turns: nat)
      requires Valid() && Filling(entries.Abs(), id) && zsm.writesOccurring == 0
      requires Now() == b.(m := entries.Abs()) && RestKept(b.m, entries.Abs(), id)
      requires entries.Abs().dataMap == b.m.dataMap
      modifies policy, policy.zonePool, policy.heap, policy.heap.arr, policy.heap.issued
      modifies zsm`active, zsm`free, zsm`writesOccurring, zsm.state, entries`zoneMap, entries`conds, entries.dataMap
      ensures turns <= 2
      ensures policy.heap.arr == old(policy.heap.arr)
      ensures forall e :: e in policy.heap.issued ==> e in old(policy.heap.issued) || fresh(e)
      ensures Asked(cfg, b, id == 0, resets, answer)
      ensures (!answer.Stored? && !answer.NoBytes?) ||
              Answered(b, id, victims, openOk, place, writeOk, closeOk, answer)
    {
      ghost var found := Now();
      var r;
      r, victims, turns := Allocate(id, openOk, resets);
      place := FoundAt(r);
      answer := FinishMiss(r, id, openOk, writeOk, closeOk, b, found, victims);
      Answers(cfg, b, found, id == 0, resets, Why(r), answer);
    }

    /** Answer a request. A hit changes no mapping. A miss leaves the identifier located if the place
        opens and the write succeeds. With no zone active or free it first evicts the chunks used
        longest ago and collects zones: what that comes to is decided by the state before. */
    method Get(id: Id, openOk: bool, writeOk: bool, closeOk: bool, resets: nat -> bool)
      returns (answer: Answer, ghost victims: seq<nat>, ghost place: Option<Loc>, ghost turns: nat)
      requires Valid() && AtRest()
      modifies policy, policy.zonePool, policy.heap, policy.heap.arr, policy.heap.issued
      modifies zsm`active, zsm`free, zsm`writesOccurring, zsm.state
      modifies entries, entries.dataMap, entries.activeReaders
      ensures turns <= 2 && (answer.Served? <==> old(id in entries.zoneMap))
      ensures !answer.Served? || FoundIn(old(Now()), id, answer.loc)
      ensures old(id in entries.zoneMap) || Asked(cfg, old(Now()), id == 0, resets, answer)
      ensures (!answer.Stored? && !answer.NoBytes?) ||
              Answered(old(Now()), id, victims, openOk, place, writeOk, closeOk, answer)
      ensures policy.heap.arr == old(policy.heap.arr)
      ensures forall e :: e in policy.heap.issued ==> e in old(policy.heap.issued) || fresh(e)
    {
      ghost var b := Now();
      var found := Find(id);
      match found {
        case Hit(loc) =>
          Serve(id, loc, b);
          answer, victims, place, turns := Served(loc), [], None, 0;
        case Fill =>
          answer, victims, place, turns := Miss(id, openOk, writeOk, closeOk, resets, b);
        case Wait(_) => assert false;
      }
    }
  }
}
