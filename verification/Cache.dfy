/** The cache under the promotional policy, serving one request at a time. Any command of the device
    may fail. */
module Cache {
  import opened ZnTypes
  import opened Lru
  import opened CacheMap
  import opened Disk
  import opened SingleRequest
  import opened Coherence
  import ZoneState
  import Promotional
  import Buffers

  /** What one turn of the eviction loop comes to. */
  datatype Eviction = Nothing | Victim(zone: nat) | FailsAssertion

  /** What looking for a place comes to. A starved request evicts nothing from an empty queue in
      every turn and never ends. */
  datatype Place = Found(loc: Loc) | NotOpened | NotEvictable | Starving

  /** The location the search ended with, if it did with one. */
  function FoundAt(place: Place): Option<Loc> {
    if place.Found? then Some(place.loc) else None
  }

  /** How many zones a miss evicts. */
  ghost function NumVictims(b: Stage): nat {
    if NoRoom(b.s) then Min(|b.l.queue|, EVICT_LOW_THRESH_ZONES) else 0
  }

  /** What a request comes to; `NoBytes` is the null pointer. */
  datatype Answer = Bytes(data: Data) | NoBytes | Aborted | Starved

  /** A miss answers with the bytes it generated, if it had a place and wrote them there. */
  function AnswerOf(place: Option<Loc>, id: Id, buffer: Data, written: bool): Answer
    requires |buffer| >= Buffers.ID_BYTES
  {
    if place.Some? && written then Bytes(Buffers.WriteBuffer(id, buffer)) else NoBytes
  }

  /** Bytes are generated once there is a place for them. */
  function Generated(lastGen: map<Id, Data>, place: Option<Loc>, id: Id, buffer: Data): map<Id, Data>
    requires |buffer| >= Buffers.ID_BYTES
  {
    if place.Some? then lastGen[id := Buffers.WriteBuffer(id, buffer)] else lastGen
  }

  class PromotionalCache {
    const cfg: Config
    const geo: Geometry
    const zsm: ZoneState.ZoneStateManager
    const entries: CacheMap.Map
    const policy: Promotional.PromotionalPolicy
    const disk: array<byte>
    /** The bytes last generated for each identifier. */
    ghost var lastGen: map<Id, Data>
    /** The device's write pointer of each zone, and whether every write so far started at it. */
    ghost var pointers: seq<nat>
    ghost var sequential: bool

    ghost predicate PartsValid()
      reads this, zsm, zsm.state, entries, entries.dataMap, entries.activeReaders, policy, disk
    {
      && zsm.cfg == cfg && policy.zoneMaxChunks == cfg.maxChunks
      && zsm.Valid() && entries.Valid() && policy.Valid()
      && SameShape(cfg, geo) && disk.Length == geo.zoneSize * geo.numZones && |pointers| == cfg.numZones
    }

    ghost predicate Valid()
      reads this, zsm, zsm.state, entries, entries.dataMap, entries.activeReaders, policy, disk
    {
      PartsValid() && Consistent(cfg, geo, zsm.Abs(), entries.Abs(), policy.Abs(), disk[..], lastGen)
    }

    /** Between two requests. */
    ghost predicate AtRest()
      reads this, zsm, zsm.state, entries, entries.dataMap, entries.activeReaders
    {
      Resting(zsm.Abs(), entries.Abs())
    }

    /** No zone was lost to a failed open. */
    ghost predicate AllPlaced()
      reads this, zsm, zsm.state
    {
      Accounted(cfg, zsm.Abs())
    }

    /** Each zone's unwritten remainder starts where the device expects the next write. */
    ghost predicate InStep()
      reads this, zsm, zsm.state
    {
      |pointers| == zsm.state.Length && InSync(geo, zsm.Abs(), pointers)
    }

    /** The state as a request finds it. */
    ghost function Now(): Stage
      reads this, zsm, zsm.state, entries, entries.dataMap, entries.activeReaders, policy
    {
      Stage(zsm.Abs(), entries.Abs(), policy.Abs(), policy.uses, pointers, AllPlaced(), InStep(), sequential)
    }

    /** Some eviction among the first `n` fails an assertion. */
    ghost predicate EvictionFails(resets: nat -> bool, n: nat)
      reads this, zsm, zsm.state, entries, entries.dataMap, entries.activeReaders, policy
    {
      FailsWithin(cfg, Now(), resets, n)
    }

    constructor (cfg: Config, geo: Geometry, disk: array<byte>)
      requires SameShape(cfg, geo) && disk.Length == geo.zoneSize * geo.numZones
      ensures this.cfg == cfg && this.geo == geo && this.disk == disk
      ensures fresh(zsm) && fresh(zsm.state) && fresh(entries) && fresh(policy)
      ensures fresh(entries.dataMap) && fresh(entries.activeReaders)
      ensures Valid() && AtRest() && AllPlaced() && lastGen == map[] && sequential && InStep()
      ensures zsm.Abs() == ZoneState.Init(cfg) && entries.Abs() == CacheMap.Init(cfg.numZones)
      ensures policy.Abs() == EMPTY && policy.uses == [] && pointers == seq(cfg.numZones, _ => 0)
    {
      this.cfg := cfg;
      this.geo := geo;
      this.disk := disk;
      entries := new CacheMap.Map(cfg.numZones);
      policy := new Promotional.PromotionalPolicy(cfg.maxChunks);
      zsm := new ZoneState.ZoneStateManager(cfg);
      lastGen := map[];
      pointers := seq(cfg.numZones, _ => 0);
      sequential := true;
      new;
      InitConsistent(cfg, geo, disk[..]);
    }

    /** The parts agree if what they stand for does. */
    lemma PartsAgree(s: ZoneState.Zsm, m: CMap, l: LruQueue<nat>, d: Data)
      requires PartsValid() && Consistent(cfg, geo, s, m, l, d, lastGen)
      requires zsm.Abs() == s && entries.Abs() == m && policy.Abs() == l && disk[..] == d
      ensures Valid()
    {
    }

    /** Clear and free a zone that was popped. */
    method ClearVictim(z: nat, resetOk: bool, ghost l: LruQueue<nat>) returns (ok: bool)
      requires PartsValid() && NoReaders(entries.Abs()) && l.queue != [] && z == l.queue[0].key
      requires Consistent(cfg, geo, zsm.Abs(), entries.Abs(), l, disk[..], lastGen)
      modifies zsm`free, zsm.state, entries`zoneMap, entries.dataMap
      ensures ok <==> old(Evictable(cfg, zsm.Abs(), entries.Abs(), z, resetOk))
      ensures ok ==>
                && PartsValid() && z < cfg.numZones && old(ZoneState.HasCond(zsm.Abs(), z, ZoneState.Full))
                && zsm.Abs() == ZoneState.EvictZone(cfg, old(zsm.Abs()), z)
                && z < |old(entries.Abs()).dataMap| && entries.Abs() == ClearZone(old(entries.Abs()), z)
    {
      assert InQueue(l, z);
      ClearanceExactly(entries.Abs(), z);
      ok := entries.ClearZoneEntries(z);
      if ok {
        // The wait for the zone's readers ends at once.
        assert entries.activeReaders[z] == 0;
        ok := zsm.Evict(z, resetOk);
      }
    }

    /** Clear, free and reset a zone that was popped. */
    method FreeVictim(z: nat, resetOk: bool, ghost l: LruQueue<nat>) returns (ok: bool)
      requires PartsValid() && NoReaders(entries.Abs()) && l.queue != [] && z == l.queue[0].key
      requires Consistent(cfg, geo, zsm.Abs(), entries.Abs(), l, disk[..], lastGen) && policy.Abs() == PopHead(l)
      modifies this`pointers, zsm`free, zsm.state, entries`zoneMap, entries.dataMap, disk
      ensures ok <==> old(Evictable(cfg, zsm.Abs(), entries.Abs(), z, resetOk))
      ensures ok ==>
                && Valid() && old(ZoneState.HasCond(zsm.Abs(), z, ZoneState.Full))
                && zsm.Abs() == ZoneState.EvictZone(cfg, old(zsm.Abs()), z)
                && z < |old(entries.Abs()).dataMap| && entries.Abs() == ClearZone(old(entries.Abs()), z)
                && pointers == old(pointers)[z := 0]
                && (old(AllPlaced()) ==> AllPlaced()) && (old(InStep()) ==> InStep())
    {
      ghost var s, m, d := zsm.Abs(), entries.Abs(), disk[..];
      ok := ClearVictim(z, resetOk, l);
      if ok {
        ResetZone(geo, disk, cfg.backend, z);
        pointers := pointers[z := 0];
        EvictKeeps(cfg, geo, s, m, l, d, lastGen, disk[..]);
        PartsAgree(ZoneState.EvictZone(cfg, s, z), ClearZone(m, z), PopHead(l), disk[..]);
      }
    }

    /** Evict the zone at the head of the queue, if there is one. */
    method EvictOne(resetOk: bool) returns (r: Eviction)
      requires Valid() && NoReaders(entries.Abs())
      modifies this`pointers, zsm`free, zsm.state, entries`zoneMap, entries.dataMap, policy, disk
      ensures r.Nothing? <==> old(policy.lruQueue) == []
      ensures r.Nothing? ==> Valid() && Now() == old(Now())
      ensures r.FailsAssertion? <==>
                old(policy.lruQueue != [] &&
                    !Evictable(cfg, zsm.Abs(), entries.Abs(), policy.lruQueue[0].key, resetOk))
      ensures r.Victim? ==> Valid() && EvictedOne(cfg, old(Now()), Now(), r.zone)
    {
      ghost var l := policy.Abs();
      var victim := policy.GetZoneToEvict();
      if victim.None? {
        return Nothing;
      }
      var ok := FreeVictim(victim.value, resetOk, l);
      r := if ok then Victim(victim.value) else FailsAssertion;
    }

    /** An eviction that started in the given state freed the victims so far. */
    ghost predicate EvictedFrom(b: Stage, victims: seq<nat>)
      reads this, zsm, zsm.state, entries, entries.dataMap, entries.activeReaders, policy, disk
    {
      Valid() && NoReaders(entries.Abs()) && Lru.Inv(b.l) && Evicted(b, Now(), victims)
    }

    /** The next turn of an eviction. */
    method EvictNext(resets: nat -> bool, ghost b: Stage, ghost victims: seq<nat>, i: nat) returns (r: Eviction)
      requires EvictedFrom(b, victims) && i == |victims|
      modifies this`pointers, zsm`free, zsm.state, entries`zoneMap, entries.dataMap, policy, disk
      ensures r.Nothing? <==> i == |b.l.queue|
      ensures FailsWithin(cfg, b, resets, i + 1) <==> FailsWithin(cfg, b, resets, i) || r.FailsAssertion?
      ensures r.Nothing? ==> EvictedFrom(b, victims)
      ensures r.Victim? ==> EvictedFrom(b, victims + [r.zone])
    {
      ghost var c := Now();
      r := EvictOne(resets(i));
      FailsOneMore(cfg, b, resets, i);
      if !r.Nothing? {
        FailureStays(cfg, b, c, victims, resets);
      }
      if r.Victim? {
        EvictedOneMore(cfg, b, c, Now(), victims, r.zone);
      }
    }

    /** The loop of the eviction. */
    method EvictUpTo(n: nat, resets: nat -> bool) returns (ok: bool, ghost victims: seq<nat>)
      requires Valid() && NoReaders(entries.Abs())
      modifies this`pointers, zsm`free, zsm.state, entries`zoneMap, entries.dataMap, policy, disk
      ensures !ok <==> old(EvictionFails(resets, n))
      ensures ok ==> |victims| == Min(|old(policy.lruQueue)|, n) && EvictedFrom(old(Now()), victims)
    {
      ghost var b := Now();
      NothingEvicted(b);
      victims := [];
      for i: nat := 0 to n
        invariant i == |victims| <= |b.l.queue| && EvictedFrom(b, victims) && !FailsWithin(cfg, b, resets, i)
      {
        var r := EvictNext(resets, b, victims, i);
        if r.Victim? {
          victims := victims + [r.zone];
        } else {
          NoneLeft(b, resets, i, n);
          return r.Nothing?, victims;
        }
      }
      ok := true;
    }

    /** Past the end of the queue no eviction fails. */
    lemma NoneLeft(b: Stage, resets: nat -> bool, i: nat, n: nat)
      requires i <= n
      ensures FailsWithin(cfg, b, resets, i) ==> FailsWithin(cfg, b, resets, n)
      ensures i >= |b.l.queue| ==> (FailsWithin(cfg, b, resets, i) <==> FailsWithin(cfg, b, resets, n))
      ensures i < n && FailsWithin(cfg, b, resets, i + 1) ==> FailsWithin(cfg, b, resets, n)
    {
    }

    /** Evict least recently used zones to make up the shortfall of free ones, as far as there are
        any in the queue. The shortfall is computed in 32 bits: a surplus empties the queue. */
    method FgEvict(resets: nat -> bool) returns (ok: bool, ghost victims: seq<nat>)
      requires Valid() && NoReaders(entries.Abs())
      modifies this`pointers, zsm`free, zsm.state, entries`zoneMap, entries.dataMap, policy, disk
      ensures !ok <==> old(EvictionFails(resets, SubWord(EVICT_LOW_THRESH_ZONES, |zsm.free|)))
      ensures ok ==> EvictedFrom(old(Now()), victims) && (old(AtRest()) ==> AtRest())
      ensures ok && |old(zsm.free)| > 4 ==> policy.lruQueue == []
      ensures ok && |old(zsm.free)| <= 4 ==> |victims| == Min(|old(policy.lruQueue)|, 4 - |old(zsm.free)|)
    {
      SurplusTakesAll(cfg, zsm.Abs(), policy.Abs());
      var freeZones := zsm.NumFreeZones();
      ok, victims := EvictUpTo(SubWord(EVICT_LOW_THRESH_ZONES, freeZones), resets);
    }

    /** With no zone active or free, an eviction makes room if the queue holds any. Without a victim
        every further turn would be like this one. */
    method EvictForRoom(id: Id, resets: nat -> bool, ghost b: Stage)
      returns (r: Option<Place>, ghost victims: seq<nat>)
      requires Looking(b, id, resets, [], 0) && NoRoom(b.s)
      modifies this`pointers, zsm`free, zsm.state, entries`zoneMap, entries.dataMap, policy, disk
      ensures r == None || r == Some(NotEvictable) || r == Some(Starving)
      ensures r == Some(NotEvictable) <==> FailsWithin(cfg, b, resets, EVICT_LOW_THRESH_ZONES)
      ensures r == Some(Starving) <==> b.l.queue == []
      ensures r == Some(Starving) ==> Valid() && zsm.Abs() == b.s
      ensures r == None ==> Looking(b, id, resets, victims, 1)
    {
      var ok;
      ok, victims := FgEvict(resets);
      if !ok {
        return Some(NotEvictable), [];
      }
      SparedFills(b.m, entries.Abs(), victims, id);
      FreedNone(b.s);
      r := if zsm.NumFreeZones() == 0 then Some(Starving) else None;
    }

    /** A place was found for the one chunk to be written, or the device did not open a zone. */
    ghost predicate PlacedFrom(b: Stage, id: Id, openOk: bool, place: Option<Loc>, victims: seq<nat>)
      reads this, zsm, zsm.state, entries, entries.dataMap, entries.activeReaders, policy, disk
    {
      && Valid() && Filling(entries.Abs(), id) && Placed(cfg, b, victims, openOk, place, Now())
      && (if place.Some? then HandedOut(place.value) && zsm.writesOccurring == 1
          else !cfg.DeviceOk(openOk) && zsm.writesOccurring == 0)
    }

    /** Ask the zone state manager for a place. */
    method AskForZone(openOk: bool) returns (r: ZoneState.GetResult)
      requires Valid() && zsm.writesOccurring == 0
      modifies zsm`free, zsm`active, zsm`writesOccurring, zsm.state
      ensures Valid() && old(ZoneState.GetActiveOk(cfg, zsm.Abs()))
      ensures (zsm.Abs(), r) == ZoneState.GetActive(cfg, old(zsm.Abs()), openOk)
      ensures !r.Retry? && (r.Evict? <==> old(NoRoom(zsm.Abs()))) && (r.Error? ==> !cfg.DeviceOk(openOk))
      ensures r.Success? ==> HandedOut(r.loc)
      ensures zsm.writesOccurring == if r.Success? then 1 else 0
      ensures Now() == old(Now()).(s := zsm.Abs(), placed := AllPlaced(), inStep := InStep())
      ensures (!r.Error? && old(AllPlaced()) ==> AllPlaced()) && (old(InStep()) ==> InStep())
    {
      ghost var s, m, l, d := zsm.Abs(), entries.Abs(), policy.Abs(), disk[..];
      AllocationStep(openOk);
      r := zsm.GetActiveZone(openOk);
      PartsAgree(ZoneState.GetActive(cfg, s, openOk).0, m, l, d);
    }

    /** One try to find a place; nothing if it takes an eviction. */
    method TryAllocate(id: Id, openOk: bool, ghost b: Stage, ghost victims: seq<nat>) returns (r: Option<Place>)
      requires EvictedFrom(b, victims) && Filling(entries.Abs(), id) && zsm.writesOccurring == 0
      modifies zsm`free, zsm`active, zsm`writesOccurring, zsm.state
      ensures r == None <==> old(NoRoom(zsm.Abs()))
      ensures r == None ==> EvictedFrom(b, victims) && Now() == old(Now())
      ensures r.Some? ==> r.value.Found? || r.value.NotOpened?
      ensures r.Some? ==> PlacedFrom(b, id, openOk, FoundAt(r.value), victims)
    {
      ghost var c := Now();
      var got := AskForZone(openOk);
      match got {
        case Retry => assert false;
        case Error => r := Some(NotOpened);
        case Success(at) => r := Some(Found(at));
        case Evict => return None;
      }
      AskPlaces(cfg, b, victims, openOk, FoundAt(r.value), c, Now());
    }

    /** Before the next turn of the loop that finds a place. */
    ghost predicate Looking(b: Stage, id: Id, resets: nat -> bool, victims: seq<nat>, turns: nat)
      reads this, zsm, zsm.state, entries, entries.dataMap, entries.activeReaders, policy, disk
    {
      && EvictedFrom(b, victims) && Filling(entries.Abs(), id) && zsm.writesOccurring == 0 && turns <= 1
      && (turns == 0 ==> victims == [] && Now() == b)
      && (turns == 1 ==>
            && NoRoom(b.s) && b.l.queue != [] && !FailsWithin(cfg, b, resets, EVICT_LOW_THRESH_ZONES)
            && |victims| == Min(|b.l.queue|, EVICT_LOW_THRESH_ZONES) && zsm.free == victims)
    }

    /** The loop that finds a place for a chunk. It evicts exactly when no zone is active or free,
        and asks the allocator at most twice unless there is nothing to evict either. */
    method Allocate(id: Id, openOk: bool, resets: nat -> bool)
      returns (r: Place, ghost victims: seq<nat>, ghost turns: nat)
      requires Valid() && Filling(entries.Abs(), id) && zsm.writesOccurring == 0
      modifies this`pointers, zsm`free, zsm`active, zsm`writesOccurring, zsm.state
      modifies entries`zoneMap, entries.dataMap, policy, disk
      ensures turns <= 2
      ensures r.NotEvictable? <==> old(NoRoom(zsm.Abs()) && EvictionFails(resets, EVICT_LOW_THRESH_ZONES))
      ensures r.Starving? <==> old(NoRoom(zsm.Abs()) && policy.lruQueue == [])
      ensures r.Starving? ==> Valid() && zsm.Abs() == old(zsm.Abs())
      ensures r.Found? || r.NotOpened? ==>
                |victims| == old(NumVictims(Now())) && PlacedFrom(old(Now()), id, openOk, FoundAt(r), victims)
    {
      ghost var b := Now();
      NothingEvicted(b);
      victims := [];
      turns := 0;
      while true
        invariant Looking(b, id, resets, victims, turns)
        decreases 2 - turns
      {
        var place := TryAllocate(id, openOk, b, victims);
        turns := turns + 1;
        if place.Some? {
          return place.value, victims, turns;
        }
        place, victims := EvictForRoom(id, resets, b);
        if place.Some? {
          return place.value, victims, turns;
        }
      }
    }

    /** A location some write holds: nothing is mapped there. */
    ghost predicate HandedOut(loc: Loc)
      requires geo.Valid()
      reads this, zsm, zsm.state, entries, entries.dataMap
    {
      && geo.Holds(loc) && loc.zone < zsm.state.Length && loc.zone < entries.dataMap.Length
      && loc.chunk !in entries.dataMap[loc.zone]
      && zsm.state[loc.zone] == ZoneState.Zone(ZoneState.WriteOccurring, loc.chunk)
    }

    lemma AllocationStep(openOk: bool)
      requires Valid() && zsm.writesOccurring == 0
      ensures ZoneState.GetActiveOk(cfg, zsm.Abs())
      ensures var (s', r) := ZoneState.GetActive(cfg, zsm.Abs(), openOk);
              && Consistent(cfg, geo, s', entries.Abs(), policy.Abs(), disk[..], lastGen)
              && !r.Retry? && (r.Evict? <==> NoRoom(zsm.Abs()))
              && (!r.Error? && Accounted(cfg, zsm.Abs()) ==> Accounted(cfg, s'))
              && (r.Success? ==>
                    && geo.Holds(r.loc) && r.loc.chunk !in entries.dataMap[r.loc.zone]
                    && s'.zones[r.loc.zone] == ZoneState.Zone(ZoneState.WriteOccurring, r.loc.chunk))
              && (InStep() ==> InSync(geo, s', pointers))
    {
      WhenToEvict(cfg, zsm.Abs(), policy.Abs(), openOk);
      AllocationKeeps(cfg, geo, zsm.Abs(), entries.Abs(), policy.Abs(), disk[..], lastGen, openOk);
    }

    /** Write the bytes generated for an entry. */
    method WriteBytes(id: Id, loc: Loc, data: Data, failure: Option<Failure>) returns (ok: bool)
      requires Valid() && Filling(entries.Abs(), id) && HandedOut(loc) && |data| == geo.chunkSize
      modifies this`lastGen, disk
      ensures Valid() && lastGen == old(lastGen)[id := data] && Now() == old(Now())
      ensures ok <==> Succeeds(geo.chunkSize, failure)
      ensures ok ==> ChunkAt(geo, disk[..], loc) == data
    {
      ghost var d, part := disk[..], data[..Reached(failure)];
      WriteStaysConsistent(cfg, geo, zsm.Abs(), entries.Abs(), policy.Abs(), d, lastGen, id, loc, data, part);
      ChunkInOwnZone(geo, loc);
      ok := WriteOut(disk, data, ChunkPointer(geo, loc), failure);
      lastGen := lastGen[id := data];
      assert ok ==> part == data;
      assert disk[..] == Overwrite(d, ChunkPointer(geo, loc), part);
    }

    /** Generate the bytes and write them out. */
    method WriteChunk(id: Id, loc: Loc, buffer: Data, failure: Option<Failure>) returns (data: Data, ok: bool)
      requires Valid() && Filling(entries.Abs(), id) && HandedOut(loc) && |buffer| == geo.chunkSize
      modifies this`lastGen, this`pointers, this`sequential, disk
      ensures Valid()
      ensures |buffer| >= Buffers.ID_BYTES && data == Buffers.WriteBuffer(id, buffer)
      ensures lastGen == old(lastGen)[id := data]
      ensures ok <==> Succeeds(geo.chunkSize, failure)
      ensures ok ==> ChunkAt(geo, disk[..], loc) == data
      ensures Now() == old(Now()).(pointers := Advanced(old(pointers), Some(loc), Reached(failure)),
                                   sequential := old(sequential) && StartsAt(geo, old(pointers), loc),
                                   inStep := InStep())
    {
      data := Buffers.WriteBuffer(id, buffer);
      ok := WriteBytes(id, loc, data, failure);
      MovePointer(loc, Reached(failure));
    }

    /** Record what a write did to the device's write pointer. */
    ghost method MovePointer(loc: Loc, reached: nat)
      requires Valid()
      modifies this`pointers, this`sequential
      ensures Valid()
      ensures Now() == old(Now()).(pointers := Advanced(old(pointers), Some(loc), reached),
                                   sequential := old(sequential) && StartsAt(geo, old(pointers), loc),
                                   inStep := InStep())
    {
      sequential := sequential && StartsAt(geo, pointers, loc);
      pointers := Advanced(pointers, Some(loc), reached);
    }

    /** How much of a chunk reaches the disk. */
    ghost function Reached(failure: Option<Failure>): (n: nat)
      requires geo.Valid()
      ensures n == Reaching(geo.chunkSize, failure) <= geo.chunkSize
      ensures Succeeds(geo.chunkSize, failure) ==> n == geo.chunkSize
    {
      ReachingFits(geo.chunkSize, failure);
      Reaching(geo.chunkSize, failure)
    }

    /** Hand back the zone, tell the policy, publish the location. */
    method Commit(id: Id, loc: Loc, closeOk: bool)
      requires Valid() && Filling(entries.Abs(), id) && HandedOut(loc)
      requires id in lastGen && lastGen[id] == ChunkAt(geo, disk[..], loc)
      modifies zsm`active, zsm`writesOccurring, zsm.state, policy
      modifies entries`zoneMap, entries`conds, entries.dataMap
      ensures Valid() && Settled(entries.Abs()) && id in entries.zoneMap
      ensures OthersSpared(old(entries.Abs()), entries.Abs(), id, [])
      ensures old(InsertOk(entries.Abs(), id, loc)) && entries.Abs() == Insert(old(entries.Abs()), id, loc)
      ensures old(ZoneState.HandBackOk(cfg, zsm.Abs(), loc))
      ensures zsm.Abs() == ZoneState.ReturnActive(cfg, old(zsm.Abs()), loc, closeOk)
      ensures policy.Abs() == Promotional.Update(old(policy.Abs()), cfg.maxChunks, loc, Write)
      ensures policy.uses == old(policy.uses) + Promotional.UseOf(cfg.maxChunks, loc, Write)
      ensures old(AllPlaced()) ==> AllPlaced()
    {
      ghost var s, m, l := zsm.Abs(), entries.Abs(), policy.Abs();
      InsertSettles(m, id, loc);
      CommitKeeps(cfg, geo, s, m, l, disk[..], lastGen, id, loc, closeOk);
      ghost var d := disk[..];
      var _ := zsm.ReturnActiveZone(loc, closeOk);
      policy.UpdatePolicy(loc, Write);
      entries.InsertEntry(id, loc);
      PartsAgree(ZoneState.ReturnActive(cfg, s, loc, closeOk), Insert(m, id, loc),
                 Promotional.Update(l, cfg.maxChunks, loc, Write), d);
    }

    /** A failed write gives the location back and wakes the waiters with nothing. */
    method Undo(id: Id, loc: Loc)
      requires Valid() && Filling(entries.Abs(), id) && HandedOut(loc)
      modifies zsm`active, zsm`writesOccurring, zsm.state, entries`zoneMap, entries`conds
      ensures Valid() && Settled(entries.Abs()) && id !in entries.zoneMap
      ensures OthersSpared(old(entries.Abs()), entries.Abs(), id, [])
      ensures old(FailOk(entries.Abs(), id)) && entries.Abs() == Fail(old(entries.Abs()), id)
      ensures old(ZoneState.FailedOk(cfg, zsm.Abs(), loc))
      ensures zsm.Abs() == ZoneState.FailedToWrite(cfg, old(zsm.Abs()), loc)
      ensures old(AllPlaced()) ==> AllPlaced()
    {
      ghost var s, m, l := zsm.Abs(), entries.Abs(), policy.Abs();
      UndoKeeps(cfg, geo, s, m, l, disk[..], lastGen, loc);
      zsm.FailedToWriteZone(loc);
      FailSettles(m, id);
      FailKeeps(cfg, geo, zsm.Abs(), m, l, disk[..], lastGen, id);
      entries.FailEntry(id);
    }

    /** Read a chunk that a lookup found, tell the policy, and stop counting as a reader. */
    method Serve(id: Id, loc: Loc, readOk: bool) returns (data: Option<Data>)
      requires Valid() && IsLocated(entries.Abs(), id, loc)
      modifies policy, entries.activeReaders
      ensures Valid()
      ensures data == if readOk then (if id in lastGen then Some(lastGen[id]) else None) else None
      ensures id in lastGen && loc.zone < entries.activeReaders.Length
      ensures entries.Abs() == DropReader(old(entries.Abs()), loc.zone) && zsm.Abs() == old(zsm.Abs())
      ensures old(Promotional.UpdateOk(policy.Abs(), loc, Read))
      ensures policy.Abs() == Promotional.Update(old(policy.Abs()), cfg.maxChunks, loc, Read)
      ensures policy.uses == old(policy.uses) + [Touched(loc.zone)]
    {
      assert geo.Holds(loc);
      ReadKeeps(cfg, geo, zsm.Abs(), entries.Abs(), policy.Abs(), disk[..], lastGen, loc);
      data := ReadChunk(geo, disk, loc, readOk);
      policy.UpdatePolicy(loc, Read);
      entries.DropReaderOf(loc.zone);
    }

    /** Publish what was written, or give everything back. */
    method Settle(id: Id, loc: Loc, written: bool, closeOk: bool)
      requires Valid() && Filling(entries.Abs(), id) && HandedOut(loc) && zsm.writesOccurring == 1
      requires written ==> id in lastGen && lastGen[id] == ChunkAt(geo, disk[..], loc)
      modifies zsm`active, zsm`writesOccurring, zsm.state, policy
      modifies entries`zoneMap, entries`conds, entries.dataMap
      ensures Valid() && AtRest() && (old(AllPlaced()) ==> AllPlaced())
      ensures Ended(cfg, id, old(Now()), Some(loc), written, 0, closeOk, Now())
    {
      ZoneState.FailedToWriteInv(cfg, zsm.Abs(), loc);
      ghost var b := Now();
      if written {
        Commit(id, loc, closeOk);
        CommitEnds(cfg, id, b, Now(), loc, closeOk);
      } else {
        Undo(id, loc);
        UndoEnds(cfg, id, b, Now(), loc, closeOk);
      }
    }

    /** Write a chunk at the place found and publish it, or give everything back. The device's write
        pointers stay where the next writes will start unless part of the chunk was written. */
    method FillAt(id: Id, loc: Loc, buffer: Data, closeOk: bool, failure: Option<Failure>)
      returns (answer: Answer)
      requires Valid() && Filling(entries.Abs(), id) && HandedOut(loc)
      requires zsm.writesOccurring == 1 && |buffer| == geo.chunkSize
      modifies this`lastGen, this`pointers, this`sequential, zsm`active, zsm`writesOccurring, zsm.state
      modifies entries`zoneMap, entries`conds, entries.dataMap, policy, disk
      ensures FilledFrom(old(Now()), old(lastGen), Some(loc), id, buffer, closeOk, failure, answer)
    {
      ghost var b := Now();
      var bytes, written := WriteChunk(id, loc, buffer, failure);
      ghost var w := Now();
      Settle(id, loc, written, closeOk);
      FillEnds(cfg, geo, id, b, w, Now(), loc, written, Reached(failure), closeOk);
      answer := if written then Bytes(bytes) else NoBytes;
    }

    /** The place was filled or given back, and the entry published or given up. */
    ghost predicate FilledFrom(b: Stage, gen: map<Id, Data>, place: Option<Loc>, id: Id, buffer: Data, closeOk: bool,
                               failure: Option<Failure>, answer: Answer)
      reads this, zsm, zsm.state, entries, entries.dataMap, entries.activeReaders, policy, disk
    {
      && Valid() && AtRest() && |buffer| >= Buffers.ID_BYTES
      && answer == AnswerOf(place, id, buffer, Succeeds(geo.chunkSize, failure))
      && lastGen == Generated(gen, place, id, buffer)
      && Ended(cfg, id, b, place, answer.Bytes?, Reached(failure), closeOk, Now())
      && KeepsStep(geo, b, place, answer.Bytes?, Reached(failure), Now())
    }

    /** Give the entry up. */
    method GiveUp(id: Id)
      requires Valid() && Filling(entries.Abs(), id) && zsm.writesOccurring == 0
      modifies entries`zoneMap, entries`conds
      ensures Valid() && AtRest()
      ensures Ended(cfg, id, old(Now()), None, false, 0, true, Now())
      ensures Now() == old(Now()).(m := entries.Abs())
    {
      ghost var b, d := Now(), disk[..];
      FailSettles(b.m, id);
      FailKeeps(cfg, geo, b.s, b.m, b.l, d, lastGen, id);
      entries.FailEntry(id);
      PartsAgree(b.s, Fail(b.m, id), b.l, d);
    }

    /** What the allocator's answer makes of a miss: fill the place found, or give the entry up. */
    method FillFound(place: Option<Loc>, id: Id, buffer: Data, closeOk: bool, failure: Option<Failure>)
      returns (answer: Answer)
      requires Valid() && Filling(entries.Abs(), id) && |buffer| == geo.chunkSize
      requires if place.Some? then HandedOut(place.value) && zsm.writesOccurring == 1 else zsm.writesOccurring == 0
      modifies this`lastGen, this`pointers, this`sequential, zsm`active, zsm`writesOccurring, zsm.state
      modifies entries`zoneMap, entries`conds, entries.dataMap, policy, disk
      ensures FilledFrom(old(Now()), old(lastGen), place, id, buffer, closeOk, failure, answer)
    {
      if place.None? {
        GiveUp(id);
        return NoBytes;
      }
      answer := FillAt(id, place.value, buffer, closeOk, failure);
    }

    /** The rest of a miss, once the victims are evicted and the allocator was asked. */
    method FinishMiss(place: Option<Loc>, id: Id, buffer: Data, openOk: bool, closeOk: bool, failure: Option<Failure>,
                      ghost b: Stage, ghost found: Stage, ghost victims: seq<nat>)
      returns (answer: Answer)
      requires PlacedFrom(found, id, openOk, place, victims) && |buffer| == geo.chunkSize
      requires found == b.(m := found.m) && RestKept(b.m, found.m, id)
      modifies this`lastGen, this`pointers, this`sequential, zsm`active, zsm`writesOccurring, zsm.state
      modifies entries`zoneMap, entries`conds, entries.dataMap, policy, disk
      ensures Answered(b, old(lastGen), id, buffer, victims, openOk, place, failure, closeOk, answer)
    {
      ghost var placed := Now();
      answer := FillFound(place, id, buffer, closeOk, failure);
      MissComposes(cfg, geo, id, b, found, placed, Now(), victims, openOk, place, answer.Bytes?, Reached(failure),
                   closeOk);
    }

    /** A miss that started in the given state, with the given bytes generated last, was answered. */
    ghost predicate Answered(b: Stage, gen: map<Id, Data>, id: Id, buffer: Data, victims: seq<nat>, openOk: bool,
                             place: Option<Loc>, failure: Option<Failure>, closeOk: bool, answer: Answer)
      reads this, zsm, zsm.state, entries, entries.dataMap, entries.activeReaders, policy, disk
    {
      && Valid() && AtRest() && |buffer| >= Buffers.ID_BYTES
      && answer == AnswerOf(place, id, buffer, Succeeds(geo.chunkSize, failure))
      && lastGen == Generated(gen, place, id, buffer)
      && Missed(cfg, geo, id, b, victims, openOk, place, answer.Bytes?, Reached(failure), closeOk, Now())
    }

    /** A hit in the given state was answered; only the order of use has changed. */
    ghost predicate FoundIn(b: Stage, gen: map<Id, Data>, id: Id, readOk: bool, answer: Answer)
      reads this, zsm, zsm.state, entries, entries.dataMap, entries.activeReaders, policy, disk
    {
      && Valid() && AtRest() && id in gen && lastGen == gen
      && answer == (if readOk then Bytes(gen[id]) else NoBytes)
      && id in b.m.zoneMap && b.m.zoneMap[id].Located? && var z := b.m.zoneMap[id].loc.zone;
         TouchOk(b.l, z) && Now() == b.(l := Touch(b.l, z), uses := b.uses + [Touched(z)])
    }

    /** Fill an entry: find a place, write the chunk there, and publish it or give everything back. */
    method Miss(id: Id, buffer: Data, openOk: bool, closeOk: bool, failure: Option<Failure>, resets: nat -> bool,
                ghost b: Stage)
      returns (answer: Answer, ghost victims: seq<nat>, ghost place: Option<Loc>, ghost turns: nat)
      requires Valid() && Filling(entries.Abs(), id) && zsm.writesOccurring == 0 && |buffer| == geo.chunkSize
      requires Now() == b.(m := entries.Abs()) && RestKept(b.m, entries.Abs(), id)
      modifies this`lastGen, this`pointers, this`sequential, zsm`free, zsm`active, zsm`writesOccurring, zsm.state
      modifies entries`zoneMap, entries`conds, entries.dataMap, policy, disk
      ensures turns <= 2
      ensures answer.Starved? <==> NoRoom(b.s) && b.l.queue == []
      ensures answer.Aborted? <==> NoRoom(b.s) && old(EvictionFails(resets, EVICT_LOW_THRESH_ZONES))
      ensures (!answer.Bytes? && !answer.NoBytes?) ||
              (|victims| == NumVictims(b)
               && Answered(b, old(lastGen), id, buffer, victims, openOk, place, failure, closeOk, answer))
    {
      ghost var found := Now();
      var r;
      r, victims, turns := Allocate(id, openOk, resets);
      place := FoundAt(r);
      if r.NotEvictable? {
        return Aborted, victims, place, turns;
      }
      if r.Starving? {
        return Starved, victims, place, turns;
      }
      answer := FinishMiss(FoundAt(r), id, buffer, openOk, closeOk, failure, b, found, victims);
    }

    /** Look an identifier up between two requests; what an eviction would do does not change. */
    method Find(id: Id) returns (found: CacheMap.Found)
      requires Valid() && AtRest()
      modifies entries`zoneMap, entries`conds, entries`nextCond, entries.activeReaders
      ensures Valid() && Now() == old(Now()).(m := entries.Abs()) && RestKept(old(entries.Abs()), entries.Abs(), id)
      ensures old(LookupOk(entries.Abs(), id)) && (entries.Abs(), found) == Lookup(old(entries.Abs()), 0, id)
      ensures !found.Wait? && (found.Hit? <==> old(id in entries.zoneMap))
      ensures found.Hit? ==>
                && old(IsLocated(entries.Abs(), id, found.loc)) && IsLocated(entries.Abs(), id, found.loc)
                && found.loc.zone < |entries.Abs().readers|
                && DropReader(entries.Abs(), found.loc.zone) == old(entries.Abs())
      ensures found.Fill? ==> Filling(entries.Abs(), id)
      ensures forall resets :: EvictionFails(resets, EVICT_LOW_THRESH_ZONES) <==>
                               old(EvictionFails(resets, EVICT_LOW_THRESH_ZONES))
    {
      ghost var b, d := Now(), disk[..];
      LookupSettles(b.m, 0, id);
      LookupKeeps(cfg, geo, b.s, b.m, b.l, d, lastGen, 0, id);
      found := entries.FindTurn(0, id);
      PartsAgree(b.s, Lookup(b.m, 0, id).0, b.l, d);
      forall resets: nat -> bool
        ensures FailsWithin(cfg, Now(), resets, EVICT_LOW_THRESH_ZONES) <==>
                FailsWithin(cfg, b, resets, EVICT_LOW_THRESH_ZONES)
      {
        SameFailures(cfg, b, Now(), resets, EVICT_LOW_THRESH_ZONES);
      }
    }

    /** Serve what a lookup found, for a request that started in the given state. */
    method ServeFound(id: Id, loc: Loc, readOk: bool, ghost b: Stage) returns (answer: Answer)
      requires Valid() && Resting(b.s, b.m) && IsLocated(b.m, id, loc) && IsLocated(entries.Abs(), id, loc)
      requires Now() == b.(m := entries.Abs()) && loc.zone < |entries.Abs().readers|
      requires DropReader(entries.Abs(), loc.zone) == b.m
      modifies policy, entries.activeReaders
      ensures FoundIn(b, lastGen, id, readOk, answer)
    {
      var data := Serve(id, loc, readOk);
      answer := if data.Some? then Bytes(data.value) else NoBytes;
    }

    /** Answer a request. A hit returns the bytes last generated for the identifier and changes no
        mapping. A miss leaves the identifier located with new bytes, having evicted least recently
        used zones if and only if no zone was active or free; it aborts exactly when one of those
        evictions fails an assertion, and never ends exactly when there is none to evict. */
    method Get(id: Id, buffer: Data, openOk: bool, closeOk: bool, failure: Option<Failure>, readOk: bool,
               resets: nat -> bool)
      returns (answer: Answer, ghost victims: seq<nat>, ghost place: Option<Loc>, ghost turns: nat)
      requires Valid() && AtRest() && |buffer| == geo.chunkSize
      modifies this`lastGen, this`pointers, this`sequential, zsm`free, zsm`active, zsm`writesOccurring, zsm.state
      modifies entries, entries.dataMap, entries.activeReaders, policy, disk
      ensures turns <= 2
      ensures answer.Starved? <==> old(id !in entries.zoneMap && NoRoom(zsm.Abs()) && policy.lruQueue == [])
      ensures answer.Aborted? <==>
                old(id !in entries.zoneMap && NoRoom(zsm.Abs()) && EvictionFails(resets, EVICT_LOW_THRESH_ZONES))
      ensures old(id !in entries.zoneMap) ||
              (FoundIn(old(Now()), old(lastGen), id, readOk, answer) && disk[..] == old(disk[..]))
      ensures old(id in entries.zoneMap) || (!answer.Bytes? && !answer.NoBytes?) ||
              (|victims| == old(NumVictims(Now()))
               && Answered(old(Now()), old(lastGen), id, buffer, victims, openOk, place, failure, closeOk, answer))
    {
      ghost var b := Now();
      var found := Find(id);
      match found {
        case Hit(loc) =>
          answer := ServeFound(id, loc, readOk, b);
          victims, place, turns := [], None, 0;
        case Fill =>
          answer, victims, place, turns := Miss(id, buffer, openOk, closeOk, failure, resets, b);
        case Wait(_) => assert false;
      }
    }

    /** The cached bytes as the policy counts them: finished zones only. */
    method CacheSize() returns (size: nat)
      requires Valid()
      ensures size == |SealedZones(cfg, zsm.Abs())| * geo.zoneCap
    {
      SealedFit(cfg, zsm.Abs(), policy.Abs());
      size := |policy.lruQueue| * geo.zoneCap;
    }
  }

  function Min(a: nat, b: nat): nat {
    if a < b then a else b
  }
}
