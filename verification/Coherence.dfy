/** How the zone states, the cache map, the eviction queue and the disk agree with each other when one
    request runs at a time under the promotional policy. */
module Coherence {
  import opened ZnTypes
  import opened Lru
  import opened ZoneState
  import opened CacheMap
  import opened SingleRequest
  import opened Disk
  import Promotional

  /** The map and its indexes are inverse, and a zone's mapped chunks are exactly those written. */
  ghost predicate Agree(cfg: Config, s: Zsm, m: CMap) {
    && |m.dataMap| == |m.readers| == |s.zones|
    && Mirror(m) && KeysOk(m)
    && (forall z: nat, c: nat :: z < |s.zones| ==> (c in m.dataMap[z] <==> c < Written(cfg, s, z)))
  }

  /** The eviction queue holds exactly the zones all of whose chunks are written. */
  ghost predicate HoldsSealed(cfg: Config, s: Zsm, l: LruQueue<nat>) {
    forall z: nat :: InQueue(l, z) <==> Sealed(cfg, s, z)
  }

  /** Every zone is queued as free, queued as active, being written, or in the eviction queue. */
  ghost predicate Accounted(cfg: Config, s: Zsm) {
    forall z: nat :: z < |s.zones| ==>
      z in s.free || z in s.active || IsBeingWritten(cfg, s, z) || Sealed(cfg, s, z)
  }

  /** What is located is on the disk as it was last generated. */
  ghost predicate OnDisk(g: Geometry, m: CMap, disk: Data, lastGen: map<Id, Data>)
    requires g.Valid() && |disk| == g.zoneSize * g.numZones
  {
    forall id: Id, loc :: IsLocated(m, id, loc) ==>
      g.Holds(loc) && id in lastGen && ChunkAt(g, disk, loc) == lastGen[id]
  }

  ghost predicate SameShape(cfg: Config, g: Geometry) {
    cfg.Valid() && g.Valid() && g.numZones == cfg.numZones && g.MaxChunks() == cfg.maxChunks
  }

  ghost predicate Consistent(cfg: Config, g: Geometry, s: Zsm, m: CMap, l: LruQueue<nat>, disk: Data,
                             lastGen: map<Id, Data>) {
    && SameShape(cfg, g) && |disk| == g.zoneSize * g.numZones
    && ZoneState.Inv(cfg, s) && Lru.Inv(l)
    && Agree(cfg, s, m) && HoldsSealed(cfg, s, l) && OnDisk(g, m, disk, lastGen)
  }

  /** Each zone's unwritten remainder starts where the device expects the next write. */
  ghost predicate InSync(g: Geometry, s: Zsm, pointers: seq<nat>)
    requires |pointers| == |s.zones|
  {
    forall z: nat :: z < |s.zones| && s.zones[z].cond != Full ==> pointers[z] == s.zones[z].offset * g.chunkSize
  }

  lemma InitConsistent(cfg: Config, g: Geometry, disk: Data)
    requires SameShape(cfg, g) && |disk| == g.zoneSize * g.numZones
    ensures Consistent(cfg, g, ZoneState.Init(cfg), CacheMap.Init(cfg.numZones), EMPTY, disk, map[])
    ensures Resting(ZoneState.Init(cfg), CacheMap.Init(cfg.numZones)) && Accounted(cfg, ZoneState.Init(cfg))
  {
    InitInv(cfg);
  }

  // ---------- Eviction ----------

  /** The zone's index lists only identifiers that survive the trip through an `int`. */
  ghost predicate SmallIn(m: CMap, z: nat)
    requires z < |m.dataMap|
  {
    forall c :: c in m.dataMap[z] ==> m.dataMap[z][c] < HALF_WORD
  }

  lemma ClearanceExactly(m: CMap, z: nat)
    requires Mirror(m) && KeysOk(m) && z < |m.dataMap|
    ensures ClearZoneOk(m, z) <==> SmallIn(m, z)
  {
    forall c | c in m.dataMap[z]
      ensures ClearableAt(m, z, c) <==> m.dataMap[z][c] < HALF_WORD
    {
      assert Indexed(m, Loc(z, c), m.dataMap[z][c]);
      KeySurvivesClearing(m, Loc(z, c), m.dataMap[z][c]);
    }
  }

  /** What a zone must meet for its eviction to pass every assertion. */
  ghost predicate Evictable(cfg: Config, s: Zsm, m: CMap, z: nat, resetOk: bool) {
    z < |m.dataMap| && SmallIn(m, z) && EvictOk(cfg, s, z, resetOk)
  }

  /** What clearing a zone does to the map: the identifiers located there go, all others stay. */
  lemma ClearedMap(m: CMap, z: nat)
    requires Mirror(m) && KeysOk(m) && z < |m.dataMap| && SmallIn(m, z)
    ensures Mirror(ClearZone(m, z)) && KeysOk(ClearZone(m, z))
    ensures forall id: Id :: id in ClearZone(m, z).zoneMap <==>
              id in m.zoneMap && !(m.zoneMap[id].Located? && m.zoneMap[id].loc.zone == z)
    ensures forall id: Id :: id in ClearZone(m, z).zoneMap ==> ClearZone(m, z).zoneMap[id] == m.zoneMap[id]
  {
    ClearanceExactly(m, z);
    ClearZoneRemoves(m, z);
    forall id: Id
      ensures (exists c :: Indexed(m, Loc(z, c), id)) <==>
              id in m.zoneMap && m.zoneMap[id].Located? && m.zoneMap[id].loc.zone == z
    {
      if id in m.zoneMap && m.zoneMap[id].Located? && m.zoneMap[id].loc.zone == z {
        var loc := m.zoneMap[id].loc;
        assert IsLocated(m, id, loc);
        assert Indexed(m, Loc(z, loc.chunk), id);
      }
      if c :| Indexed(m, Loc(z, c), id) {
        assert IsLocated(m, id, Loc(z, c));
      }
    }
  }

  /** Evicting the zone at the head of the queue keeps everything in agreement. */
  lemma EvictKeeps(cfg: Config, g: Geometry, s: Zsm, m: CMap, l: LruQueue<nat>, disk: Data,
                   lastGen: map<Id, Data>, disk': Data)
    requires Consistent(cfg, g, s, m, l, disk, lastGen) && l.queue != []
    requires |disk'| == |disk| && SameOutside(g, disk, disk', l.queue[0].key)
    requires Evictable(cfg, s, m, l.queue[0].key, true)
    ensures var z := l.queue[0].key;
            && (Accounted(cfg, s) ==> Accounted(cfg, EvictZone(cfg, s, z)))
            && Consistent(cfg, g, EvictZone(cfg, s, z), ClearZone(m, z), PopHead(l), disk', lastGen)
  {
    var z := l.queue[0].key;
    assert InQueue(l, z);
    var s', m', l' := EvictZone(cfg, s, z), ClearZone(m, z), PopHead(l);
    EvictZoneInv(cfg, s, z);
    PopHeadKeepsInv(l);
    ClearedMap(m, z);
    forall y: nat, c: nat | y < |s'.zones|
      ensures c in m'.dataMap[y] <==> c < Written(cfg, s', y)
    {
      assert c in m.dataMap[y] <==> c < Written(cfg, s, y);
    }
    forall id: Id, loc | IsLocated(m', id, loc)
      ensures g.Holds(loc) && id in lastGen && ChunkAt(g, disk', loc) == lastGen[id]
    {
      assert IsLocated(m, id, loc);
    }
  }

  /** From `m` to `m'` exactly the identifiers located in the victims are gone. */
  ghost predicate Spared(m: CMap, m': CMap, victims: seq<nat>) {
    && m'.conds == m.conds && m'.nextCond == m.nextCond && m'.readers == m.readers
    && (forall id: Id :: id in m'.zoneMap <==> id in m.zoneMap && !LocatedIn(m, id, victims))
    && (forall id: Id :: id in m'.zoneMap ==> m'.zoneMap[id] == m.zoneMap[id])
  }

  predicate LocatedIn(m: CMap, id: Id, zones: seq<nat>) {
    id in m.zoneMap && m.zoneMap[id].Located? && m.zoneMap[id].loc.zone in zones
  }

  lemma SparedByOneMore(m: CMap, m1: CMap, victims: seq<nat>, z: nat)
    requires Spared(m, m1, victims)
    requires Mirror(m1) && KeysOk(m1) && z < |m1.dataMap| && SmallIn(m1, z)
    ensures Spared(m, ClearZone(m1, z), victims + [z])
  {
    ClearedMap(m1, z);
  }

  /** What a request finds and leaves behind. `placed` and `inStep` say whether no zone was lost and
      whether the device's write pointers are where the next writes will start, `sequential` whether
      every write so far started at one. */
  datatype Stage = Stage(s: Zsm, m: CMap, l: LruQueue<nat>, uses: seq<Use<nat>>, pointers: seq<nat>,
                         placed: bool, inStep: bool, sequential: bool)

  /** A zone was popped, cleared, freed and reset. */
  ghost predicate EvictedOne(cfg: Config, b: Stage, c: Stage, z: nat) {
    && b.l.queue != [] && z == b.l.queue[0].key && z < |b.m.dataMap| && z < |b.pointers|
    && HasCond(b.s, z, Full) && c.s == EvictZone(cfg, b.s, z) && c.m == ClearZone(b.m, z)
    && c.l == PopHead(b.l) && c.uses == b.uses + [Popped(z)] && c.pointers == b.pointers[z := 0]
    && (b.placed ==> c.placed) && (b.inStep ==> c.inStep) && c.sequential == b.sequential
  }

  /** The victims were the first keys of the queue; they are free now, what they held is gone, and
      the rest is as it was. */
  ghost predicate Evicted(b: Stage, c: Stage, victims: seq<nat>) {
    && PoppedFrom(b.l, b.uses, c.l, c.uses, victims) && c.s == Freed(b.s, victims)
    && Spared(b.m, c.m, victims) && IndexKept(b.m, c.m, victims) && c.pointers == Rewound(b.pointers, victims)
    && (b.placed ==> c.placed) && (b.inStep ==> c.inStep) && c.sequential == b.sequential
  }

  ghost predicate IndexKept(m: CMap, m': CMap, victims: seq<nat>) {
    && |m'.dataMap| == |m.dataMap|
    && (forall z: nat :: z < |m.dataMap| && z !in victims ==> m'.dataMap[z] == m.dataMap[z])
  }

  /** A reset moves the zone's write pointer to its start. */
  ghost function Rewound(pointers: seq<nat>, victims: seq<nat>): seq<nat> {
    seq(|pointers|, z requires 0 <= z < |pointers| => if z in victims then 0 else pointers[z])
  }

  lemma NothingEvicted(b: Stage)
    ensures Evicted(b, b, [])
  {
    FreedNone(b.s);
    assert Rewound(b.pointers, []) == b.pointers;
    assert b.uses + Pops<nat>([]) == b.uses;
  }

  lemma EvictedOneMore(cfg: Config, b: Stage, c: Stage, d: Stage, victims: seq<nat>, z: nat)
    requires Evicted(b, c, victims) && EvictedOne(cfg, c, d, z) && |c.s.zones| == |c.m.dataMap|
    requires Mirror(c.m) && KeysOk(c.m) && SmallIn(c.m, z)
    ensures Evicted(b, d, victims + [z])
  {
    SparedByOneMore(b.m, c.m, victims, z);
    FreedOneMore(cfg, b.s, victims, z);
    PoppedOneMore(b.l, b.uses, c.l, c.uses, victims);
    assert c.pointers[z := 0] == Rewound(b.pointers, victims + [z]);
  }

  /** Evicting the `j`-th zone of the queue, in a state where it is in the queue, fails an assertion. */
  ghost predicate FailsAt(cfg: Config, b: Stage, resets: nat -> bool, j: nat) {
    j < |b.l.queue| && !Evictable(cfg, b.s, b.m, b.l.queue[j].key, resets(j))
  }

  /** Some eviction among the first `n` does. */
  ghost predicate FailsWithin(cfg: Config, b: Stage, resets: nat -> bool, n: nat) {
    exists j: nat :: j < n && FailsAt(cfg, b, resets, j)
  }

  lemma FailsOneMore(cfg: Config, b: Stage, resets: nat -> bool, n: nat)
    ensures FailsWithin(cfg, b, resets, n + 1) <==> FailsWithin(cfg, b, resets, n) || FailsAt(cfg, b, resets, n)
  {
    if FailsAt(cfg, b, resets, n) {
      assert n < n + 1 && FailsAt(cfg, b, resets, n);
    }
  }

  /** Evictions before it do not decide whether the next one fails. */
  lemma FailureStays(cfg: Config, b: Stage, c: Stage, victims: seq<nat>, resets: nat -> bool)
    requires Lru.Inv(b.l) && Evicted(b, c, victims) && c.l.queue != []
    ensures FailsAt(cfg, b, resets, |victims|) <==>
            !Evictable(cfg, c.s, c.m, c.l.queue[0].key, resets(|victims|))
  {
    assert b.l.queue[|victims|].key !in victims;
  }

  /** Whether an eviction fails does not depend on the entries without a location. */
  lemma SameFailures(cfg: Config, b: Stage, c: Stage, resets: nat -> bool, n: nat)
    requires c.s == b.s && c.l == b.l && c.m.dataMap == b.m.dataMap
    ensures FailsWithin(cfg, c, resets, n) <==> FailsWithin(cfg, b, resets, n)
  {
    forall j: nat
      ensures FailsAt(cfg, c, resets, j) <==> FailsAt(cfg, b, resets, j)
    {
    }
  }

  lemma SparedFills(m: CMap, m': CMap, victims: seq<nat>, id: Id)
    requires Filling(m, id) && Spared(m, m', victims) && KeysOk(m')
    ensures Filling(m', id)
  {
    assert !LocatedIn(m, id, victims);
  }

  lemma FreeFit(cfg: Config, s: Zsm)
    requires ZoneState.Inv(cfg, s)
    ensures |s.free| <= cfg.numZones
  {
    forall i: nat
      ensures BelowAt(s.free, i, cfg.numZones)
    {
      assert i < |s.free| ==> s.free[i] in s.free && HasCond(s, s.free[i], Free);
    }
    NoDupBound(s.free, cfg.numZones);
  }

  /** The eviction queue is no longer than there are zones. */
  lemma SealedFit(cfg: Config, s: Zsm, l: LruQueue<nat>)
    requires ZoneState.Inv(cfg, s) && Lru.Inv(l) && HoldsSealed(cfg, s, l)
    ensures |l.queue| == |SealedZones(cfg, s)| <= cfg.numZones
  {
    QueueLength(l, SealedZones(cfg, s));
    assert SealedZones(cfg, s) <= Below(cfg.numZones);
    assert Below(cfg.numZones) == SealedZones(cfg, s) + (Below(cfg.numZones) - SealedZones(cfg, s));
  }

  ghost function SealedZones(cfg: Config, s: Zsm): set<nat> {
    set z: nat | z < |s.zones| && Sealed(cfg, s, z)
  }

  /** With a surplus of free zones the 32-bit shortfall exceeds the queue's length. */
  lemma SurplusTakesAll(cfg: Config, s: Zsm, l: LruQueue<nat>)
    requires cfg.Valid() && ZoneState.Inv(cfg, s) && Lru.Inv(l) && HoldsSealed(cfg, s, l)
    ensures |s.free| > EVICT_LOW_THRESH_ZONES ==> SubWord(EVICT_LOW_THRESH_ZONES, |s.free|) > |l.queue|
    ensures |s.free| <= EVICT_LOW_THRESH_ZONES ==>
              SubWord(EVICT_LOW_THRESH_ZONES, |s.free|) == EVICT_LOW_THRESH_ZONES - |s.free|
  {
    FreeFit(cfg, s);
    SealedFit(cfg, s, l);
    ShortfallExactly(cfg, |s.free|);
  }

  // ---------- Allocation and commit ----------

  ghost predicate AllSealed(cfg: Config, s: Zsm) {
    forall z: nat :: z < |s.zones| ==> Sealed(cfg, s, z)
  }

  /** At rest the allocator never asks to retry, and it asks for an eviction exactly when no zone is
      active or free. If no zone was lost, all of them are in the eviction queue then. */
  lemma WhenToEvict(cfg: Config, s: Zsm, l: LruQueue<nat>, openOk: bool)
    requires cfg.Valid() && ZoneState.Inv(cfg, s) && s.writes == 0 && HoldsSealed(cfg, s, l)
    ensures GetActiveOk(cfg, s) && !GetActive(cfg, s, openOk).1.Retry?
    ensures GetActive(cfg, s, openOk).1.Evict? <==> NoRoom(s)
    ensures GetActive(cfg, s, openOk).1.Error? ==> !cfg.DeviceOk(openOk)
    ensures Accounted(cfg, s) ==> (NoRoom(s) <==> AllSealed(cfg, s))
    ensures Accounted(cfg, s) ==> (NoRoom(s) <==> forall z: nat :: z < cfg.numZones ==> InQueue(l, z))
    ensures Accounted(cfg, s) && NoRoom(s) ==> l.queue != []
  {
    AllocateAtRest(cfg, s, openOk);
    if s.active != [] {
      assert s.active[0] in s.active && HasCond(s, s.active[0], Active) && !InQueue(l, s.active[0]);
    }
    if s.free != [] {
      assert s.free[0] in s.free && HasCond(s, s.free[0], Free) && !InQueue(l, s.free[0]);
    }
    if NoRoom(s) && Accounted(cfg, s) {
      assert BeingWritten(cfg, s) == {};
      forall z: nat | z < cfg.numZones
        ensures Sealed(cfg, s, z)
      {
        assert IsBeingWritten(cfg, s, z) ==> z in BeingWritten(cfg, s);
      }
      assert InQueue(l, 0);
    }
  }

  /** A location handed out is unmapped, and handing it out changes no chunk's standing. */
  lemma AllocationKeeps(cfg: Config, g: Geometry, s: Zsm, m: CMap, l: LruQueue<nat>, disk: Data,
                        lastGen: map<Id, Data>, openOk: bool)
    requires Consistent(cfg, g, s, m, l, disk, lastGen)
    ensures GetActiveOk(cfg, s)
    ensures var (s', r) := GetActive(cfg, s, openOk);
            && Consistent(cfg, g, s', m, l, disk, lastGen)
            && (Accounted(cfg, s) && !r.Error? ==> Accounted(cfg, s'))
            && (r.Success? ==>
                  && g.Holds(r.loc) && r.loc.chunk !in m.dataMap[r.loc.zone]
                  && s'.zones[r.loc.zone] == Zone(WriteOccurring, r.loc.chunk))
  {
    GetActiveInv(cfg, s, openOk);
    assert s.active != [] ==> s.active[0] in s.active;
    assert s.free != [] ==> s.free[0] in s.free;
    var (s', r) := GetActive(cfg, s, openOk);
    forall z: nat | z < |s.zones|
      ensures Written(cfg, s', z) == Written(cfg, s, z)
      ensures Sealed(cfg, s', z) <==> Sealed(cfg, s, z)
    {
      assert OffsetOk(cfg, s.zones[z]);
    }
  }

  lemma UndoKeeps(cfg: Config, g: Geometry, s: Zsm, m: CMap, l: LruQueue<nat>, disk: Data,
                  lastGen: map<Id, Data>, loc: Loc)
    requires Consistent(cfg, g, s, m, l, disk, lastGen) && g.Holds(loc)
    requires s.zones[loc.zone] == Zone(WriteOccurring, loc.chunk)
    ensures FailedOk(cfg, s, loc)
    ensures Consistent(cfg, g, FailedToWrite(cfg, s, loc), m, l, disk, lastGen)
    ensures Accounted(cfg, s) ==> Accounted(cfg, FailedToWrite(cfg, s, loc))
  {
    FailedToWriteInv(cfg, s, loc);
    var s' := FailedToWrite(cfg, s, loc);
    forall z: nat | z < |s.zones|
      ensures Written(cfg, s', z) == Written(cfg, s, z)
      ensures Sealed(cfg, s', z) <==> Sealed(cfg, s, z)
    {
    }
  }

  /** Handing a zone back and publishing its chunk keep the mapped chunks exactly the written ones. */
  lemma CommitAgrees(cfg: Config, s: Zsm, m: CMap, id: Id, loc: Loc, closeOk: bool)
    requires cfg.Valid() && ZoneState.Inv(cfg, s) && Agree(cfg, s, m)
    requires InsertOk(m, id, loc) && loc.chunk < cfg.maxChunks
    requires s.zones[loc.zone] == Zone(WriteOccurring, loc.chunk)
    ensures HandBackOk(cfg, s, loc) && Agree(cfg, ReturnActive(cfg, s, loc, closeOk), Insert(m, id, loc))
  {
    assert Written(cfg, s, loc.zone) == loc.chunk;
    ReturnActiveInv(cfg, s, loc, closeOk);
    InsertKeepsMirror(m, id, loc);
    var s', m' := ReturnActive(cfg, s, loc, closeOk), Insert(m, id, loc);
    forall z: nat, c: nat | z < |s'.zones|
      ensures c in m'.dataMap[z] <==> c < Written(cfg, s', z)
    {
      assert c in m.dataMap[z] <==> c < Written(cfg, s, z);
    }
  }

  /** Handing back the last chunk and telling the policy keep the queue exactly the sealed zones. */
  lemma CommitHolds(cfg: Config, s: Zsm, l: LruQueue<nat>, loc: Loc, closeOk: bool)
    requires cfg.Valid() && ZoneState.Inv(cfg, s) && Lru.Inv(l) && HoldsSealed(cfg, s, l)
    requires loc.zone < |s.zones| && s.zones[loc.zone] == Zone(WriteOccurring, loc.chunk) && loc.chunk < cfg.maxChunks
    ensures HandBackOk(cfg, s, loc) && !InQueue(l, loc.zone)
    ensures var s', l' := ReturnActive(cfg, s, loc, closeOk), Promotional.Update(l, cfg.maxChunks, loc, Write);
            && ZoneState.Inv(cfg, s') && Lru.Inv(l') && HoldsSealed(cfg, s', l')
            && (Accounted(cfg, s) ==> Accounted(cfg, s'))
  {
    ReturnActiveInv(cfg, s, loc, closeOk);
    assert !InQueue(l, loc.zone);
    if loc.chunk + 1 == cfg.maxChunks {
      PushTailKeepsInv(l, loc.zone);
    }
  }

  /** The tail of a miss, taken whole, keeps everything in agreement. */
  lemma CommitKeeps(cfg: Config, g: Geometry, s: Zsm, m: CMap, l: LruQueue<nat>, disk: Data,
                    lastGen: map<Id, Data>, id: Id, loc: Loc, closeOk: bool)
    requires Consistent(cfg, g, s, m, l, disk, lastGen) && g.Holds(loc)
    requires s.zones[loc.zone] == Zone(WriteOccurring, loc.chunk)
    requires InsertOk(m, id, loc) && id in lastGen && lastGen[id] == ChunkAt(g, disk, loc)
    ensures HandBackOk(cfg, s, loc) && !InQueue(l, loc.zone)
    ensures Accounted(cfg, s) ==> Accounted(cfg, ReturnActive(cfg, s, loc, closeOk))
    ensures Consistent(cfg, g, ReturnActive(cfg, s, loc, closeOk), Insert(m, id, loc),
                       Promotional.Update(l, cfg.maxChunks, loc, Write), disk, lastGen)
  {
    CommitAgrees(cfg, s, m, id, loc, closeOk);
    CommitHolds(cfg, s, l, loc, closeOk);
    var m' := Insert(m, id, loc);
    forall i: Id, at | IsLocated(m', i, at)
      ensures g.Holds(at) && i in lastGen && ChunkAt(g, disk, at) == lastGen[i]
    {
      assert i != id ==> IsLocated(m, i, at);
    }
  }

  /** New bytes for an identifier that is nowhere located, written where nothing is mapped. */
  lemma WriteKeeps(cfg: Config, g: Geometry, m: CMap, disk: Data, lastGen: map<Id, Data>, id: Id, loc: Loc,
                   data: Data, part: Data)
    requires g.Valid() && |disk| == g.zoneSize * g.numZones && OnDisk(g, m, disk, lastGen)
    requires g.Holds(loc) && loc.zone < |m.dataMap| && loc.chunk !in m.dataMap[loc.zone]
    requires Mirror(m) && !(id in m.zoneMap && m.zoneMap[id].Located?)
    requires |part| <= |data| == g.chunkSize
    ensures ChunkPointer(g, loc) + g.chunkSize <= |disk|
    ensures OnDisk(g, m, Overwrite(disk, ChunkPointer(g, loc), part), lastGen[id := data])
    ensures part == data ==> ChunkAt(g, Overwrite(disk, ChunkPointer(g, loc), part), loc) == data
  {
    ChunkInOwnZone(g, loc);
    var disk' := Overwrite(disk, ChunkPointer(g, loc), part);
    forall i: Id, at | IsLocated(m, i, at)
      ensures g.Holds(at) && i in lastGen[id := data] && ChunkAt(g, disk', at) == lastGen[id := data][i]
    {
      assert Indexed(m, at, i);
      assert at != loc;
      OverwriteOneChunk(g, disk, loc, part, at);
    }
    OverwriteOneChunk(g, disk, loc, part, loc);
  }

  lemma WriteStaysConsistent(cfg: Config, g: Geometry, s: Zsm, m: CMap, l: LruQueue<nat>, disk: Data,
                             lastGen: map<Id, Data>, id: Id, loc: Loc, data: Data, part: Data)
    requires Consistent(cfg, g, s, m, l, disk, lastGen) && Filling(m, id) && g.Holds(loc)
    requires loc.chunk !in m.dataMap[loc.zone] && |part| <= |data| == g.chunkSize
    ensures ChunkPointer(g, loc) + g.chunkSize <= |disk|
    ensures Consistent(cfg, g, s, m, l, Overwrite(disk, ChunkPointer(g, loc), part), lastGen[id := data])
    ensures part == data ==> ChunkAt(g, Overwrite(disk, ChunkPointer(g, loc), part), loc) == data
  {
    WriteKeeps(cfg, g, m, disk, lastGen, id, loc, data, part);
  }

  /** A whole chunk moves the write pointer to where the next one will start. */
  lemma SyncAfterReturn(cfg: Config, g: Geometry, s: Zsm, pointers: seq<nat>, loc: Loc, closeOk: bool)
    requires |pointers| == |s.zones| && HandBackOk(cfg, s, loc)
    ensures InSync(g, s, pointers) ==>
              InSync(g, ReturnActive(cfg, s, loc, closeOk), pointers[loc.zone := pointers[loc.zone] + g.chunkSize])
  {
    assert (loc.chunk + 1) * g.chunkSize == loc.chunk * g.chunkSize + g.chunkSize;
  }

  /** Part of a chunk leaves it where no later write will start. */
  lemma SyncAfterFailure(cfg: Config, g: Geometry, s: Zsm, pointers: seq<nat>, loc: Loc, reached: nat)
    requires |pointers| == |s.zones| && FailedOk(cfg, s, loc)
    ensures InSync(g, s, pointers) ==>
              (InSync(g, FailedToWrite(cfg, s, loc), pointers[loc.zone := pointers[loc.zone] + reached]) <==>
               reached == 0)
  {
    assert s.zones[loc.zone].cond != Full;
    var p := pointers[loc.zone := pointers[loc.zone] + reached];
    var undone := FailedToWrite(cfg, s, loc);
    if InSync(g, s, pointers) {
      assert undone.zones[loc.zone].cond != Full && p[loc.zone] == loc.chunk * g.chunkSize + reached;
    }
  }

  /** Apart from `id`, exactly the identifiers located in the victims are gone. */
  ghost predicate OthersSpared(m: CMap, m': CMap, id: Id, victims: seq<nat>) {
    forall k: Id :: k != id ==>
      && (k in m'.zoneMap <==> k in m.zoneMap && !LocatedIn(m, k, victims))
      && (k in m'.zoneMap ==> m'.zoneMap[k] == m.zoneMap[k])
  }

  // ---------- The map during a request ----------

  /** The zone a fill makes a candidate for eviction, if it does. */
  function Entering(cfg: Config, place: Option<Loc>, written: bool): seq<nat> {
    if place.Some? && written && place.value.chunk + 1 == cfg.maxChunks then [place.value.zone] else []
  }

  /** An answered miss of `id` frees the victims, obtains a place and writes a chunk there, of which
      `reached` bytes reach the disk. If it was written, it is mapped and the policy told of it. */
  ghost predicate Missed(cfg: Config, g: Geometry, id: Id, b: Stage, victims: seq<nat>, openOk: bool,
                         place: Option<Loc>, written: bool, reached: nat, closeOk: bool, c: Stage)
    requires g.Valid()
  {
    && MissEnds(cfg, Freed(b.s, victims), openOk, place, written, closeOk, c.s)
    && (if written then place.Some? && IsLocated(c.m, id, place.value) else id !in c.m.zoneMap)
    && OthersSpared(b.m, c.m, id, victims)
    && |victims| <= |b.l.queue| && Keys(c.l) == Keys(b.l)[|victims|..] + Entering(cfg, place, written)
    && c.uses == b.uses + Pops(victims) + FillUses(cfg, place, written)
    && c.pointers == Advanced(Rewound(b.pointers, victims), place, reached)
    && KeepsStep(g, b.(pointers := Rewound(b.pointers, victims)), place, written, reached, c)
  }

  function FillUses(cfg: Config, place: Option<Loc>, written: bool): seq<Use<nat>> {
    if place.Some? && written then Promotional.UseOf(cfg.maxChunks, place.value, Write) else []
  }

  function Advanced(pointers: seq<nat>, place: Option<Loc>, reached: nat): seq<nat> {
    if place.Some? && place.value.zone < |pointers|
    then pointers[place.value.zone := pointers[place.value.zone] + reached] else pointers
  }

  /** In step with the device a write starts at the write pointer, and the pointers are where the next
      writes will start again unless part of a chunk was written. */
  ghost predicate KeepsStep(g: Geometry, b: Stage, place: Option<Loc>, written: bool, reached: nat, c: Stage)
    requires g.Valid()
  {
    && c.sequential == (b.sequential && (place.Some? ==> StartsAt(g, b.pointers, place.value)))
    && (b.inStep && place.Some? ==> StartsAt(g, b.pointers, place.value))
    && (b.inStep ==> (c.inStep <==> place.None? || written || reached == 0))
    && (place.Some? && b.placed ==> c.placed)
  }

  /** The victims were evicted, and the allocator was asked. */
  ghost predicate Placed(cfg: Config, b: Stage, victims: seq<nat>, openOk: bool, place: Option<Loc>, c: Stage) {
    && PoppedFrom(b.l, b.uses, c.l, c.uses, victims) && Spared(b.m, c.m, victims)
    && Obtains(cfg, Freed(b.s, victims), openOk, c.s, place) && c.pointers == Rewound(b.pointers, victims)
    && (place.Some? && b.placed ==> c.placed) && (b.inStep ==> c.inStep) && c.sequential == b.sequential
  }

  /** The place was filled or handed back, or the entry given up. */
  ghost predicate Ended(cfg: Config, id: Id, b: Stage, place: Option<Loc>, written: bool, reached: nat, closeOk: bool,
                        c: Stage)
  {
    && HandedBack(cfg, b.s, place, written, closeOk, c.s)
    && (if written then place.Some? && IsLocated(c.m, id, place.value) else id !in c.m.zoneMap)
    && RestKept(b.m, c.m, id)
    && Keys(c.l) == Keys(b.l) + Entering(cfg, place, written)
    && c.uses == b.uses + FillUses(cfg, place, written)
    && c.pointers == Advanced(b.pointers, place, reached)
  }

  /** A chunk's address is where the device expects the next write to its zone. */
  predicate StartsAt(g: Geometry, pointers: seq<nat>, loc: Loc)
    requires g.Valid()
  {
    loc.zone < |pointers| && ChunkPointer(g, loc) == g.zoneSize * loc.zone + pointers[loc.zone]
  }

  lemma CommitEnds(cfg: Config, id: Id, b: Stage, c: Stage, loc: Loc, closeOk: bool)
    requires FailedOk(cfg, b.s, loc) && Filling(b.m, id) && InsertOk(b.m, id, loc)
    requires c.s == ReturnActive(cfg, b.s, loc, closeOk) && c.m == Insert(b.m, id, loc) && c.pointers == b.pointers
    requires c.l == Promotional.Update(b.l, cfg.maxChunks, loc, Write)
    requires c.uses == b.uses + Promotional.UseOf(cfg.maxChunks, loc, Write)
    ensures Ended(cfg, id, b, Some(loc), true, 0, closeOk, c)
  {
    InsertSettles(b.m, id, loc);
    assert Advanced(b.pointers, Some(loc), 0) == b.pointers;
  }

  lemma UndoEnds(cfg: Config, id: Id, b: Stage, c: Stage, loc: Loc, closeOk: bool)
    requires FailedOk(cfg, b.s, loc) && Filling(b.m, id) && Mirror(b.m) && FailOk(b.m, id)
    requires c.s == FailedToWrite(cfg, b.s, loc) && c.m == Fail(b.m, id) && c.pointers == b.pointers
    requires c.l == b.l && c.uses == b.uses
    ensures Ended(cfg, id, b, Some(loc), false, 0, closeOk, c)
  {
    FailSettles(b.m, id);
    assert Advanced(b.pointers, Some(loc), 0) == b.pointers;
  }

  /** A write before the end of a fill moves only the write pointer. */
  lemma WriteEnds(cfg: Config, id: Id, b: Stage, written: Stage, c: Stage, loc: Loc, ok: bool, reached: nat,
                  closeOk: bool)
    requires written.s == b.s && written.m == b.m && written.l == b.l && written.uses == b.uses
    requires written.pointers == Advanced(b.pointers, Some(loc), reached)
    requires Ended(cfg, id, written, Some(loc), ok, 0, closeOk, c)
    ensures Ended(cfg, id, b, Some(loc), ok, reached, closeOk, c)
  {
    assert Advanced(written.pointers, Some(loc), 0) == written.pointers;
  }

  /** The write pointers stay where the next writes will start exactly if a whole chunk was written, or
      nothing. */
  lemma SyncEnds(cfg: Config, g: Geometry, id: Id, b: Stage, c: Stage, loc: Loc, ok: bool, reached: nat, closeOk: bool)
    requires |b.pointers| == |b.s.zones| && Ended(cfg, id, b, Some(loc), ok, reached, closeOk, c)
    requires g.Valid() && (ok ==> reached == g.chunkSize)
    ensures |c.pointers| == |c.s.zones|
    ensures InSync(g, b.s, b.pointers) ==> (InSync(g, c.s, c.pointers) <==> ok || reached == 0)
  {
    if ok {
      SyncAfterReturn(cfg, g, b.s, b.pointers, loc, closeOk);
    } else {
      SyncAfterFailure(cfg, g, b.s, b.pointers, loc, reached);
    }
  }

  lemma AskPlaces(cfg: Config, b: Stage, victims: seq<nat>, openOk: bool, place: Option<Loc>, c: Stage, d: Stage)
    requires Evicted(b, c, victims) && Obtains(cfg, c.s, openOk, d.s, place)
    requires d.m == c.m && d.l == c.l && d.uses == c.uses && d.pointers == c.pointers && d.sequential == c.sequential
    requires (place.Some? && c.placed ==> d.placed) && (c.inStep ==> d.inStep)
    ensures Placed(cfg, b, victims, openOk, place, d)
  {
  }

  /** In step with the device the place handed out starts at the write pointer. */
  lemma InStepStarts(g: Geometry, s: Zsm, pointers: seq<nat>, loc: Loc)
    requires g.Valid() && g.Holds(loc) && |pointers| == |s.zones| && InSync(g, s, pointers)
    requires loc.zone < |s.zones| && s.zones[loc.zone] == Zone(WriteOccurring, loc.chunk)
    ensures StartsAt(g, pointers, loc)
  {
    ChunkInOwnZone(g, loc);
  }

  /** A chunk was written to the disk, or part of it, before the place was filled or given back. */
  lemma FillEnds(cfg: Config, g: Geometry, id: Id, b: Stage, written: Stage, c: Stage, loc: Loc, ok: bool,
                 reached: nat, closeOk: bool)
    requires g.Valid() && g.Holds(loc) && |b.pointers| == |b.s.zones| && (ok ==> reached == g.chunkSize)
    requires loc.zone < |b.s.zones| && b.s.zones[loc.zone] == Zone(WriteOccurring, loc.chunk)
    requires b.inStep <==> InSync(g, b.s, b.pointers)
    requires |c.pointers| == |c.s.zones| ==> (c.inStep <==> InSync(g, c.s, c.pointers))
    requires written == b.(pointers := Advanced(b.pointers, Some(loc), reached), inStep := written.inStep,
                           sequential := b.sequential && StartsAt(g, b.pointers, loc))
    requires Ended(cfg, id, written, Some(loc), ok, 0, closeOk, c)
    requires c.sequential == written.sequential && (written.placed ==> c.placed)
    ensures Ended(cfg, id, b, Some(loc), ok, reached, closeOk, c) && KeepsStep(g, b, Some(loc), ok, reached, c)
  {
    if b.inStep {
      InStepStarts(g, b.s, b.pointers, loc);
    }
    WriteEnds(cfg, id, b, written, c, loc, ok, reached, closeOk);
    SyncEnds(cfg, g, id, b, c, loc, ok, reached, closeOk);
  }

  lemma MissComposes(cfg: Config, g: Geometry, id: Id, b: Stage, found: Stage, placed: Stage, c: Stage,
                     victims: seq<nat>, openOk: bool, place: Option<Loc>, written: bool, reached: nat, closeOk: bool)
    requires g.Valid() && found == b.(m := found.m) && RestKept(b.m, found.m, id)
    requires Placed(cfg, found, victims, openOk, place, placed)
    requires Ended(cfg, id, placed, place, written, reached, closeOk, c)
    requires KeepsStep(g, placed, place, written, reached, c)
    ensures Missed(cfg, g, id, b, victims, openOk, place, written, reached, closeOk, c)
  {
    assert Keys(placed.l) == Keys(b.l)[|victims|..];
    forall k: Id | k != id
      ensures LocatedIn(b.m, k, victims) <==> LocatedIn(found.m, k, victims)
    {
    }
  }

  /** A lookup at rest changes no location. */
  lemma LookupKeeps(cfg: Config, g: Geometry, s: Zsm, m: CMap, l: LruQueue<nat>, disk: Data,
                    lastGen: map<Id, Data>, t: Tid, id: Id)
    requires Consistent(cfg, g, s, m, l, disk, lastGen) && Settled(m)
    ensures LookupOk(m, id)
    ensures Consistent(cfg, g, s, Lookup(m, t, id).0, l, disk, lastGen)
    ensures id in m.zoneMap ==> g.Holds(m.zoneMap[id].loc)
  {
    LookupSettles(m, t, id);
    assert id in m.zoneMap ==> IsLocated(m, id, m.zoneMap[id].loc);
    var m' := Lookup(m, t, id).0;
    forall i: Id, loc | IsLocated(m', i, loc)
      ensures IsLocated(m, i, loc)
    {
    }
  }

  /** A read moves its zone in the queue and changes no mapping. */
  lemma ReadKeeps(cfg: Config, g: Geometry, s: Zsm, m: CMap, l: LruQueue<nat>, disk: Data,
                  lastGen: map<Id, Data>, loc: Loc)
    requires Consistent(cfg, g, s, m, l, disk, lastGen) && loc.zone < |m.readers|
    ensures Promotional.UpdateOk(l, loc, Read)
    ensures Consistent(cfg, g, s, DropReader(m, loc.zone), Promotional.Update(l, cfg.maxChunks, loc, Read),
                       disk, lastGen)
  {
    TouchKeepsInv(l, loc.zone);
    var m' := DropReader(m, loc.zone);
    forall i: Id, at
      ensures IsLocated(m', i, at) <==> IsLocated(m, i, at)
      ensures Indexed(m', at, i) <==> Indexed(m, at, i)
    {
    }
  }

  /** Giving a fill up changes no location. */
  lemma FailKeeps(cfg: Config, g: Geometry, s: Zsm, m: CMap, l: LruQueue<nat>, disk: Data,
                  lastGen: map<Id, Data>, id: Id)
    requires Consistent(cfg, g, s, m, l, disk, lastGen) && Filling(m, id)
    ensures FailOk(m, id) && Consistent(cfg, g, s, Fail(m, id), l, disk, lastGen)
  {
    FailSettles(m, id);
    forall i: Id, loc | IsLocated(Fail(m, id), i, loc)
      ensures IsLocated(m, i, loc)
    {
    }
  }

  // ---------- Counting ----------

  ghost function LocatedIds(m: CMap): set<int> {
    set k | k in m.zoneMap && m.zoneMap[k].Located?
  }

  ghost function LocatedBelow(m: CMap, n: nat): set<int> {
    set k | k in m.zoneMap && m.zoneMap[k].Located? && 0 <= m.zoneMap[k].loc.zone < n
  }

  /** How many chunks the first `n` zones hold. */
  ghost function WrittenBelow(cfg: Config, s: Zsm, n: nat): nat
    requires n <= |s.zones|
  {
    if n == 0 then 0 else WrittenBelow(cfg, s, n - 1) + Written(cfg, s, n - 1)
  }

  /** The identifiers a zone's index lists for its first `n` chunks. */
  ghost function Listed(m: CMap, z: nat, n: nat): set<int>
    requires z < |m.dataMap| && forall c: nat :: c < n ==> c in m.dataMap[z]
  {
    set c: nat | c < n :: m.dataMap[z][c]
  }

  lemma {:induction false} ListedCount(m: CMap, z: nat, n: nat)
    requires IndexSound(m) && z < |m.dataMap| && forall c: nat :: c < n ==> c in m.dataMap[z]
    ensures |Listed(m, z, n)| == n
  {
    if n > 0 {
      ListedCount(m, z, n - 1);
      var id := m.dataMap[z][n - 1];
      assert Indexed(m, Loc(z, n - 1), id);
      forall c: nat | c < n - 1
        ensures m.dataMap[z][c] != id
      {
        assert Indexed(m, Loc(z, c), m.dataMap[z][c]);
        assert IsLocated(m, id, Loc(z, n - 1));
      }
      assert Listed(m, z, n) == Listed(m, z, n - 1) + {id};
    }
  }

  lemma ListedAreLocated(cfg: Config, s: Zsm, m: CMap, z: nat)
    requires Agree(cfg, s, m) && z < |s.zones|
    ensures forall c: nat :: c < Written(cfg, s, z) ==> c in m.dataMap[z]
    ensures LocatedBelow(m, z + 1) == LocatedBelow(m, z) + Listed(m, z, Written(cfg, s, z))
    ensures LocatedBelow(m, z) !! Listed(m, z, Written(cfg, s, z))
  {
    var w := Written(cfg, s, z);
    forall c: nat | c < w
      ensures c in m.dataMap[z] && IsLocated(m, m.dataMap[z][c], Loc(z, c))
    {
      assert Indexed(m, Loc(z, c), m.dataMap[z][c]);
    }
    forall k | k in m.zoneMap && m.zoneMap[k].Located? && m.zoneMap[k].loc.zone == z
      ensures k in Listed(m, z, w)
    {
      var loc := m.zoneMap[k].loc;
      assert IsLocated(m, k, loc);
      assert Indexed(m, loc, k);
      assert loc.chunk < w && m.dataMap[z][loc.chunk] == k;
    }
  }

  lemma {:induction false} CountLocated(cfg: Config, s: Zsm, m: CMap, n: nat)
    requires Agree(cfg, s, m) && n <= |s.zones|
    ensures |LocatedBelow(m, n)| == WrittenBelow(cfg, s, n)
  {
    if n == 0 {
      assert LocatedBelow(m, 0) == {};
    } else {
      CountLocated(cfg, s, m, n - 1);
      ListedAreLocated(cfg, s, m, n - 1);
      ListedCount(m, n - 1, Written(cfg, s, n - 1));
      assert LocatedBelow(m, n) == LocatedBelow(m, n - 1) + Listed(m, n - 1, Written(cfg, s, n - 1));
    }
  }

  /** As many identifiers are located as chunks are written, over all zones. */
  lemma LocatedCount(cfg: Config, s: Zsm, m: CMap)
    requires Agree(cfg, s, m)
    ensures |LocatedIds(m)| == WrittenBelow(cfg, s, |s.zones|)
  {
    CountLocated(cfg, s, m, |s.zones|);
    forall k | k in LocatedIds(m)
      ensures k in LocatedBelow(m, |s.zones|)
    {
      assert IsLocated(m, k, m.zoneMap[k].loc);
      assert Indexed(m, m.zoneMap[k].loc, k);
    }
    assert LocatedIds(m) == LocatedBelow(m, |s.zones|);
  }

  /** With no room and no zone lost, the queue holds every zone. */
  lemma QueueOfAll(cfg: Config, s: Zsm, l: LruQueue<nat>)
    requires cfg.Valid() && ZoneState.Inv(cfg, s) && Lru.Inv(l) && HoldsSealed(cfg, s, l) && s.writes == 0
    requires Accounted(cfg, s) && NoRoom(s)
    ensures AllSealed(cfg, s) && |l.queue| == cfg.numZones
  {
    WhenToEvict(cfg, s, l, true);
    QueueLength(l, Below(cfg.numZones));
  }

  /** `LOW - free` in 32 bits is the shortfall exactly when there is no surplus; otherwise it is
      more than any number of zones. */
  lemma ShortfallExactly(cfg: Config, free: nat)
    requires cfg.Valid() && free <= cfg.numZones
    ensures SubWord(EVICT_LOW_THRESH_ZONES, free) == 4 - free <==> free <= 4
    ensures free > 4 ==> SubWord(EVICT_LOW_THRESH_ZONES, free) > cfg.numZones
  {
  }
}
