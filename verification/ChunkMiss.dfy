/** What eviction, garbage collection and a whole miss do under the chunk policy, said of the states
    before and after. */
module ChunkMiss {
  import opened ZnTypes
  import opened Lru
  import opened MinHeap
  import opened ChunkPool
  import opened ZoneState
  import opened CacheMap
  import opened SingleRequest
  import opened ChunkAgreement

  /** What a request finds and leaves behind: zone states, map, and the policy's state. */
  datatype Snapshot = Snapshot(s: Zsm, m: CMap, q: PolicyState)

  // ---------- Evicting chunks ----------

  /** From `m` to `m'` exactly the identifiers located at the given chunks are gone. */
  ghost predicate SparedChunks(m: CMap, m': CMap, evicted: seq<Loc>) {
    && m'.conds == m.conds && m'.nextCond == m.nextCond && m'.readers == m.readers
    && (forall id: Id :: id in m'.zoneMap <==> id in m.zoneMap && !LocatedAt(m, id, evicted))
    && (forall id: Id :: id in m'.zoneMap ==> m'.zoneMap[id] == m.zoneMap[id])
  }

  predicate LocatedAt(m: CMap, id: Id, locs: seq<Loc>) {
    id in m.zoneMap && m.zoneMap[id].Located? && m.zoneMap[id].loc in locs
  }

  lemma OneChunkMore(m: CMap, m1: CMap, evicted: seq<Loc>, loc: Loc)
    requires SparedChunks(m, m1, evicted)
    requires Mirror(m1) && KeysOk(m1) && ClearChunkOk(m1, loc)
    ensures SparedChunks(m, ClearChunk(m1, loc), evicted + [loc])
  {
    ClearChunkRemoves(m1, loc);
    forall id: Id
      ensures LocatedAt(m, id, evicted + [loc]) <==> LocatedAt(m, id, evicted) || (IsLocated(m, id, loc))
    {
    }
  }

  lemma FillSurvives(m: CMap, m': CMap, evicted: seq<Loc>, id: Id)
    requires Filling(m, id) && SparedChunks(m, m', evicted) && KeysOk(m')
    ensures Filling(m', id)
  {
    assert !LocatedAt(m, id, evicted);
  }

  /** The other chunks are in use and indexed as they were, and the heap has the same zones. */
  ghost predicate ChunksKept(b: Snapshot, c: Snapshot, evicted: seq<Loc>) {
    && |c.m.dataMap| == |b.m.dataMap| && |c.q.p| == |b.q.p|
    && (forall at :: SmallAt(c.m, at) <==> SmallAt(b.m, at) && at !in evicted)
    && (forall at :: InUse(c.q.p, at) <==> InUse(b.q.p, at) && at !in evicted)
    && (forall z: nat :: Queued(c.q.p, c.q.view, z) <==> Queued(b.q.p, b.q.view, z))
  }

  /** One chunk went out of queue, pool, heap and map. */
  ghost predicate EvictedChunk(b: Snapshot, c: Snapshot, loc: Loc) {
    && b.q.l.queue != [] && loc == b.q.l.queue[0].key && c.q.l == PopHead(b.q.l) && c.q.uses == b.q.uses + [Popped(loc)]
    && Cleared(b.m, c.m, loc) && Dropped(b.q.p, b.q.view, c.q.p, c.q.view, loc) && c.s == b.s && c.q.total == b.q.total
  }

  /** The evicted chunks were the first keys of the queue, and what they held is gone. */
  ghost predicate EvictedChunks(b: Snapshot, c: Snapshot, evicted: seq<Loc>) {
    && PoppedFrom(b.q.l, b.q.uses, c.q.l, c.q.uses, evicted) && SparedChunks(b.m, c.m, evicted)
    && ChunksKept(b, c, evicted) && c.s == b.s && c.q.total == b.q.total
  }

  lemma NoneEvicted(b: Snapshot)
    ensures EvictedChunks(b, b, [])
  {
    assert b.q.uses + Pops<Loc>([]) == b.q.uses;
  }

  lemma OneMoreEvicted(cfg: Config, b: Snapshot, c: Snapshot, d: Snapshot, evicted: seq<Loc>, loc: Loc)
    requires EvictedChunks(b, c, evicted) && EvictedChunk(c, d, loc)
    requires Mirror(c.m) && KeysOk(c.m) && CountsOk(cfg, c.q.p) && HeapOk(c.q.p, c.q.view)
    ensures EvictedChunks(b, d, evicted + [loc])
  {
    PoppedOneMore(b.q.l, b.q.uses, c.q.l, c.q.uses, evicted);
    OneChunkMore(b.m, c.m, evicted, loc);
    EvictKeepsHeap(cfg, c.q.p, c.q.view, loc);
    SetUseCounts(cfg, c.q.p, loc, false);
    forall at
      ensures SmallAt(ClearChunk(c.m, loc), at) <==> SmallAt(c.m, at) && at != loc
    {
    }
  }

  /** Evicting the `j`-th chunk of the queue faults: there is none, or it fails an assertion. */
  predicate FaultsAt(b: Snapshot, j: nat) {
    j < |b.q.l.queue| ==> !SmallAt(b.m, b.q.l.queue[j].key)
  }

  /** Some eviction among the first `n` does. */
  ghost predicate FaultsWithin(b: Snapshot, n: nat) {
    exists j: nat :: j < n && FaultsAt(b, j)
  }

  /** One of them because the chunk's identifier is too large. */
  ghost predicate LargeWithin(b: Snapshot, n: nat) {
    exists j: nat :: j < n && j < |b.q.l.queue| && FaultsAt(b, j)
  }

  /** The fault of the first `n` evictions, if they have one. */
  ghost function FaultOf(b: Snapshot, n: nat): Option<Fault> {
    if !FaultsWithin(b, n) then None else if LargeWithin(b, n) then Some(LargeId) else Some(NoChunk)
  }

  /** Evictions before it do not decide whether the next one faults. */
  lemma FaultStays(b: Snapshot, c: Snapshot, evicted: seq<Loc>)
    requires Lru.Inv(b.q.l) && EvictedChunks(b, c, evicted)
    ensures FaultsAt(b, |evicted|) <==> c.q.l.queue == [] || !SmallAt(c.m, c.q.l.queue[0].key)
  {
    if c.q.l.queue != [] {
      assert c.q.l.queue[0] == b.q.l.queue[|evicted|];
      assert b.q.l.queue[|evicted|].key !in evicted;
    }
  }

  /** The first fault decides which it is. */
  lemma FirstFault(b: Snapshot, i: nat, n: nat)
    requires i < n && !FaultsWithin(b, i) && FaultsAt(b, i)
    ensures FaultsWithin(b, n) && (LargeWithin(b, n) <==> i < |b.q.l.queue|)
  {
    forall j: nat | j < i
      ensures !FaultsAt(b, j)
    {
    }
  }

  lemma NoFaultYet(b: Snapshot, i: nat)
    requires !FaultsWithin(b, i) && !FaultsAt(b, i)
    ensures !FaultsWithin(b, i + 1)
  {
  }

  /** Faults depend only on the queue and the index. */
  lemma SameFaults(b: Snapshot, c: Snapshot, n: nat)
    requires c.q.l == b.q.l && c.m.dataMap == b.m.dataMap
    ensures FaultsWithin(c, n) <==> FaultsWithin(b, n)
    ensures LargeWithin(c, n) <==> LargeWithin(b, n)
  {
    forall j: nat
      ensures FaultsAt(c, j) <==> FaultsAt(b, j)
    {
    }
  }

  /** How many chunks an eviction must take; none if it is declined. */
  function Due(b: Snapshot): nat {
    Missing(b.q.total, |b.q.l.queue|)
  }

  /** The chunks it takes. */
  ghost function DueChunks(b: Snapshot): seq<Loc> {
    var q := b.q.l.queue;
    seq(if Due(b) < |q| then Due(b) else |q|, i requires 0 <= i < |q| => q[i].key)
  }

  // ---------- Collecting zones ----------

  /** The zones in the heap all of whose chunks in use are among those given. */
  ghost function DeadWithout(p: Pool, view: map<Handle, nat>, evicted: seq<Loc>): set<nat> {
    set z: nat | z < |p| && DiesWithout(p, view, evicted, z)
  }

  ghost predicate DiesWithout(p: Pool, view: map<Handle, nat>, evicted: seq<Loc>, z: nat) {
    Queued(p, view, z) && forall c: nat :: InUse(p, Loc(z, c)) ==> Loc(z, c) in evicted
  }

  /** The zones that are dead after the eviction. */
  ghost function DeadThen(b: Snapshot): set<nat> {
    DeadWithout(b.q.p, b.q.view, DueChunks(b))
  }

  /** After an eviction the dead zones are exactly those that had no other chunk in use. */
  lemma DeadAfterEviction(cfg: Config, b: Snapshot, c: Snapshot, evicted: seq<Loc>)
    requires CountsOk(cfg, c.q.p) && ChunksKept(b, c, evicted)
    ensures Dead(c.q.p, c.q.view) == DeadWithout(b.q.p, b.q.view, evicted)
  {
    forall z: nat | z < |c.q.p|
      ensures IsDead(c.q.p, c.q.view, z) <==> DiesWithout(b.q.p, b.q.view, evicted, z)
    {
      forall k: nat
        ensures k in Live(c.q.p, z) <==> InUse(c.q.p, Loc(z, k))
      {
      }
      if DiesWithout(b.q.p, b.q.view, evicted, z) {
        assert Live(c.q.p, z) == {};
      }
      if c.q.p[z].chunksInUse == 0 {
        assert Live(c.q.p, z) == {};
        assert forall k: nat :: InUse(b.q.p, Loc(z, k)) ==> Loc(z, k) in evicted || InUse(c.q.p, Loc(z, k));
      }
    }
  }

  /** Every dead zone is finished, and the device does the resets. */
  ghost predicate Freeable(cfg: Config, s: Zsm, dead: set<nat>, resets: nat -> bool) {
    && (forall z :: z in dead ==> HasCond(s, z, Full))
    && (forall i: nat :: i < EVICT_LOW_THRESH_ZONES ==> cfg.DeviceOk(resets(i)))
  }

  /** Few zones are free, and not enough dead ones to make up for it. */
  predicate TooFewDead(free: nat, dead: nat) {
    free <= EVICT_HIGH_THRESH_ZONES && free + dead < EVICT_LOW_THRESH_ZONES
  }

  /** A zone in the heap is not among the dead. */
  ghost predicate LiveAmong(p: Pool, view: map<Handle, nat>, dead: set<nat>) {
    exists z: nat :: Queued(p, view, z) && z !in dead
  }

  /** An eviction of chunks leaves the same zones in the heap, the dead ones among them. */
  lemma SameLive(b: Snapshot, c: Snapshot)
    requires ChunksKept(b, c, DueChunks(b)) && Dead(c.q.p, c.q.view) == DeadThen(b)
    ensures LiveAmong(c.q.p, c.q.view, Dead(c.q.p, c.q.view)) <==> LiveAmong(b.q.p, b.q.view, DeadThen(b))
  {
  }

  /** Some of the dead zones were reclaimed: they are free now and out of the heap. */
  ghost predicate Reclaiming(b: Snapshot, c: Snapshot, victims: seq<nat>) {
    var dead, left := Dead(b.q.p, b.q.view), Dead(c.q.p, c.q.view);
    && left <= dead && |left| + |victims| == |dead| && c.s == Freed(b.s, victims) && c.q.p == b.q.p
    && (forall z :: z in victims ==> z in dead && z !in left)
    && (forall z :: z in dead ==> z in left || z in victims)
    && (forall z: nat :: Queued(c.q.p, c.q.view, z) <==> Queued(b.q.p, b.q.view, z) && z !in victims)
  }

  /** One dead zone was. */
  ghost predicate ReclaimedOne(cfg: Config, b: Snapshot, c: Snapshot, z: nat) {
    && z in Dead(b.q.p, b.q.view) && HasCond(b.s, z, Full) && c.s == EvictZone(cfg, b.s, z) && c.q.p == b.q.p
    && Dead(c.q.p, c.q.view) == Dead(b.q.p, b.q.view) - {z}
    && forall y: nat :: Queued(c.q.p, c.q.view, y) <==> Queued(b.q.p, b.q.view, y) && y != z
  }

  /** A dead zone was taken off the heap: clearing it will change nothing, and after its reset all
      parts agree again. */
  ghost predicate TakenDead(cfg: Config, b: Snapshot, c: Snapshot, z: nat) {
    && z in Dead(b.q.p, b.q.view) && c == b.(q := b.q.(view := c.q.view))
    && Dead(c.q.p, c.q.view) == Dead(b.q.p, b.q.view) - {z}
    && (forall y: nat :: Queued(c.q.p, c.q.view, y) <==> Queued(b.q.p, b.q.view, y) && y != z)
    && ClearZoneOk(b.m, z) && ClearZone(b.m, z) == b.m
    && (HasCond(b.s, z, Full) ==> Joined(cfg, EvictZone(cfg, b.s, z), c.m, c.q.p, c.q.view))
  }

  lemma TakesDead(cfg: Config, b: Snapshot, c: Snapshot, e: Handle)
    requires CountsOk(cfg, b.q.p) && HeapOk(b.q.p, b.q.view) && Joined(cfg, b.s, b.m, b.q.p, b.q.view)
    requires e in b.q.view && b.q.p[e.data].chunksInUse == 0 && c == b.(q := b.q.(view := b.q.view - {e}))
    ensures TakenDead(cfg, b, c, e.data)
  {
    OneDeadLess(b.q.p, b.q.view, e);
    LeavesHeap(b.q.p, b.q.view, e);
    DeadIsUnmapped(cfg, b.s, b.m, b.q.p, b.q.view, e.data);
    if HasCond(b.s, e.data, Full) {
      ReclaimKeeps(cfg, b.s, b.m, b.q.p, b.q.view, e);
    }
  }

  lemma NoneReclaimed(b: Snapshot)
    ensures Reclaiming(b, b, [])
  {
    FreedNone(b.s);
  }

  lemma OneMoreReclaimed(cfg: Config, b: Snapshot, c: Snapshot, d: Snapshot, victims: seq<nat>, z: nat)
    requires Reclaiming(b, c, victims) && ReclaimedOne(cfg, c, d, z)
    ensures Reclaiming(b, d, victims + [z])
  {
    FreedOneMore(cfg, b.s, victims, z);
  }

  /** The collection stops at a victim that is not dead only when all dead zones are reclaimed. */
  lemma CollectionStops(cfg: Config, b: Snapshot, c: Snapshot, victims: seq<nat>, resets: nat -> bool, stuck: bool,
                        z: nat)
    requires Reclaiming(b, c, victims) && |b.s.free| + |victims| < EVICT_LOW_THRESH_ZONES
    requires stuck <==> Dead(c.q.p, c.q.view) != {}
    requires stuck ==> z in Dead(c.q.p, c.q.view) && !EvictOk(cfg, c.s, z, resets(|victims|))
    ensures stuck ==> !Freeable(cfg, b.s, Dead(b.q.p, b.q.view), resets)
    ensures !stuck ==> |Dead(b.q.p, b.q.view)| == |victims|
    ensures !stuck ==>
              ((exists y: nat :: Queued(c.q.p, c.q.view, y)) <==> LiveAmong(b.q.p, b.q.view, Dead(b.q.p, b.q.view)))
  {
    if stuck {
      assert z !in victims && c.s.zones == Freed(b.s, victims).zones;
      assert HasCond(c.s, z, Full) <==> HasCond(b.s, z, Full);
    } else {
      if y: nat :| Queued(c.q.p, c.q.view, y) {
        assert Queued(b.q.p, b.q.view, y) && y !in Dead(b.q.p, b.q.view);
      }
      if y: nat :| Queued(b.q.p, b.q.view, y) && y !in Dead(b.q.p, b.q.view) {
        assert Queued(c.q.p, c.q.view, y);
      }
    }
  }

  /** Taking a dead zone off the heap leaves the others. */
  lemma LeavesHeap(p: Pool, view: map<Handle, nat>, e: Handle)
    requires HeapOk(p, view) && e in view
    ensures forall y: nat :: Queued(p, view - {e}, y) <==> Queued(p, view, y) && y != e.data
  {
  }

  // ---------- What an eviction comes to ----------

  /** Why the program stops: it follows the null pointer of an empty queue or an empty heap, or it
      fails an assertion about a chunk with a large identifier, about a zone that is not finished or
      not reset, or about the place for a moved chunk or the entry under which it would publish it. */
  datatype Fault = NoChunk | LargeId | NotFreed | NoVictim | NotMoved

  /** With `Moves` the model stops: the program moves the chunks of a zone. */
  datatype Eviction = Declined | Evicted | Faults(why: Fault) | Moves

  /** With all dead zones reclaimed a zone is active or free. */
  ghost predicate RoomThen(b: Snapshot) {
    !NoRoom(b.s) || DeadThen(b) != {}
  }

  lemma RoomAfter(b: Snapshot, s: Zsm, victims: seq<nat>)
    requires s == Freed(b.s, victims) && |victims| == |DeadThen(b)|
    ensures NoRoom(s) <==> !RoomThen(b)
  {
    FreedNone(b.s);
  }

  /** A moved chunk takes a zone, and is published under identifier 0, which every location the
      allocator hands out carries; `zero` says whether 0 is being filled. */
  ghost function OutcomeOf(b: Snapshot, zero: bool): Eviction {
    if Due(b) == 0 then Declined
    else if FaultOf(b, Due(b)).Some? then Faults(FaultOf(b, Due(b)).value)
    else if !TooFewDead(|b.s.free|, |DeadThen(b)|) then Evicted
    else if !LiveAmong(b.q.p, b.q.view, DeadThen(b)) then Faults(NoVictim)
    else if zero && RoomThen(b) then Moves else Faults(NotMoved)
  }

  /** A dead zone cannot be freed. */
  ghost predicate Stuck(cfg: Config, b: Snapshot, resets: nat -> bool) {
    Due(b) > 0 && !FaultsWithin(b, Due(b)) && !Freeable(cfg, b.s, DeadThen(b), resets)
  }

  /** The outcome is the one above, unless a dead zone cannot be freed. */
  ghost predicate Decided(cfg: Config, b: Snapshot, zero: bool, resets: nat -> bool, r: Eviction) {
    r == OutcomeOf(b, zero) || (r == Faults(NotFreed) && Stuck(cfg, b, resets))
  }

  /** Declined, or at a fault, an eviction ends before it collects zones. */
  lemma EndsEarly(cfg: Config, b: Snapshot, zero: bool, resets: nat -> bool, fault: Option<Fault>)
    requires Due(b) > 0 ==> fault.Some? && fault == FaultOf(b, Due(b))
    ensures Decided(cfg, b, zero, resets, if Due(b) == 0 then Declined else Faults(fault.value))
  {
  }

  /** The chunks and as many dead zones as were missing went. */
  ghost predicate Swept(b: Snapshot, c: Snapshot, victims: seq<nat>) {
    && PoppedFrom(b.q.l, b.q.uses, c.q.l, c.q.uses, DueChunks(b)) && SparedChunks(b.m, c.m, DueChunks(b))
    && c.s == Freed(b.s, victims) && (forall z :: z in victims ==> z in DeadThen(b))
    && |victims| == if |b.s.free| > EVICT_HIGH_THRESH_ZONES then 0 else EVICT_LOW_THRESH_ZONES - |b.s.free|
  }

  lemma Sweeps(b: Snapshot, c: Snapshot, d: Snapshot, victims: seq<nat>)
    requires EvictedChunks(b, c, DueChunks(b)) && d == c.(s := d.s, q := c.q.(view := d.q.view))
    requires d.s == Freed(c.s, victims)
    requires forall z :: z in victims ==> z in DeadThen(b)
    requires |d.s.free| == if |b.s.free| > EVICT_HIGH_THRESH_ZONES then |b.s.free| else EVICT_LOW_THRESH_ZONES
    ensures Swept(b, d, victims)
  {
  }

  /** The state after a lookup between two requests. */
  ghost function Looked(b: Snapshot, id: Id): Snapshot
    requires LookupOk(b.m, id)
  {
    b.(m := Lookup(b.m, 0, id).0)
  }

  /** A lookup found a chunk in use, of which it counts as a reader, or started a fill. */
  ghost predicate Sought(cfg: Config, b: Snapshot, id: Id, c: Snapshot, found: Found) {
    && c == b.(m := c.m) && RestKept(b.m, c.m, id) && c.m.dataMap == b.m.dataMap
    && if id in b.m.zoneMap then
         && found.Hit? && IsLocated(b.m, id, found.loc) && InPool(cfg, found.loc)
         && found.loc.zone < |c.m.readers| && DropReader(c.m, found.loc.zone) == b.m
       else found.Fill? && Filling(c.m, id)
  }

  lemma LooksUp(cfg: Config, b: Snapshot, id: Id)
    requires Joined(cfg, b.s, b.m, b.q.p, b.q.view) && Settled(b.m)
    ensures LookupOk(b.m, id) && Joined(cfg, b.s, Looked(b, id).m, b.q.p, b.q.view)
    ensures Sought(cfg, b, id, Looked(b, id), Lookup(b.m, 0, id).1)
  {
    LookupSettles(b.m, 0, id);
    LookupJoins(cfg, b.s, b.m, b.q.p, b.q.view, 0, id);
  }

  // ---------- What a miss comes to ----------

  /** The evictions of a miss, if it takes any. */
  ghost function EvictedBy(b: Snapshot): seq<Loc> {
    if NoRoom(b.s) then DueChunks(b) else []
  }

  ghost predicate FreedBy(b: Snapshot, victims: seq<nat>) {
    if NoRoom(b.s) then |victims| == EVICT_LOW_THRESH_ZONES && forall z :: z in victims ==> z in DeadThen(b)
    else victims == []
  }

  /** Room was made if there was none, and the allocator was asked. */
  ghost predicate Placed(cfg: Config, b: Snapshot, victims: seq<nat>, openOk: bool, place: Option<Loc>, c: Snapshot) {
    && PoppedFrom(b.q.l, b.q.uses, c.q.l, c.q.uses, EvictedBy(b)) && SparedChunks(b.m, c.m, EvictedBy(b))
    && FreedBy(b, victims) && Obtains(cfg, Freed(b.s, victims), openOk, c.s, place)
  }

  /** The place was filled or handed back, or the entry given up. */
  ghost predicate Ended(cfg: Config, id: Id, b: Snapshot, place: Option<Loc>, written: bool, closeOk: bool,
                        c: Snapshot)
  {
    && HandedBack(cfg, b.s, place, written, closeOk, c.s)
    && (if written then place.Some? && IsLocated(c.m, id, place.value) else id !in c.m.zoneMap)
    && RestKept(b.m, c.m, id)
    && Keys(c.q.l) == Keys(b.q.l) + Entering(place, written)
    && c.q.uses == b.q.uses + FillUses(place, written)
  }

  /** The chunk a fill brings into use, if it does. */
  function Entering(place: Option<Loc>, written: bool): seq<Loc> {
    if place.Some? && written then [place.value] else []
  }

  function FillUses(place: Option<Loc>, written: bool): seq<Use<Loc>> {
    if place.Some? && written then [Filled(place.value)] else []
  }

  /** Apart from `id`, exactly the identifiers located at the given chunks are gone. */
  ghost predicate RestSpared(m: CMap, m': CMap, id: Id, evicted: seq<Loc>) {
    forall k: Id :: k != id ==>
      && (k in m'.zoneMap <==> k in m.zoneMap && !LocatedAt(m, k, evicted))
      && (k in m'.zoneMap ==> m'.zoneMap[k] == m.zoneMap[k])
  }

  /** An answered miss of `id` makes room if there is none, obtains a place and writes a chunk there.
      If it was written, it is mapped, in use and the newest in the queue. */
  ghost predicate Missed(cfg: Config, id: Id, b: Snapshot, victims: seq<nat>, openOk: bool, place: Option<Loc>,
                         written: bool, closeOk: bool, c: Snapshot)
  {
    && FreedBy(b, victims) && MissEnds(cfg, Freed(b.s, victims), openOk, place, written, closeOk, c.s)
    && (if written then place.Some? && IsLocated(c.m, id, place.value) else id !in c.m.zoneMap)
    && RestSpared(b.m, c.m, id, EvictedBy(b))
    && |EvictedBy(b)| <= |b.q.l.queue| && Keys(c.q.l) == Keys(b.q.l)[|EvictedBy(b)|..] + Entering(place, written)
    && c.q.uses == b.q.uses + Pops(EvictedBy(b)) + FillUses(place, written)
  }

  lemma AskPlaces(cfg: Config, b: Snapshot, victims: seq<nat>, openOk: bool, place: Option<Loc>, c: Snapshot,
                  d: Snapshot, turns: nat)
    requires if turns == 0 then c == b && victims == [] else NoRoom(b.s) && Swept(b, c, victims)
    requires d == c.(s := d.s) && Obtains(cfg, c.s, openOk, d.s, place) && (turns == 0 ==> !NoRoom(b.s))
    ensures Placed(cfg, b, victims, openOk, place, d)
  {
    FreedNone(b.s);
    assert b.q.uses + Pops<Loc>([]) == b.q.uses;
  }

  /** What an eviction comes to depends on no entry without a location but that of 0. */
  lemma SameOutcome(cfg: Config, b: Snapshot, c: Snapshot, zero: bool, resets: nat -> bool)
    requires c == b.(m := c.m) && c.m.dataMap == b.m.dataMap
    ensures OutcomeOf(c, zero) == OutcomeOf(b, zero) && (Stuck(cfg, c, resets) <==> Stuck(cfg, b, resets))
  {
    SameFaults(b, c, Due(b));
    assert DeadThen(c) == DeadThen(b);
  }

  lemma MissComposes(cfg: Config, id: Id, b: Snapshot, found: Snapshot, placed: Snapshot, c: Snapshot,
                     victims: seq<nat>, openOk: bool, place: Option<Loc>, written: bool, closeOk: bool)
    requires found == b.(m := found.m) && RestKept(b.m, found.m, id)
    requires Placed(cfg, found, victims, openOk, place, placed)
    requires Ended(cfg, id, placed, place, written, closeOk, c)
    ensures Missed(cfg, id, b, victims, openOk, place, written, closeOk, c)
  {
    var evicted := EvictedBy(b);
    assert EvictedBy(found) == evicted && DeadThen(found) == DeadThen(b);
    assert Keys(placed.q.l) == Keys(b.q.l)[|evicted|..];
    forall k: Id | k != id
      ensures LocatedAt(b.m, k, evicted) <==> LocatedAt(found.m, k, evicted)
    {
    }
  }

  lemma CommitEnds(cfg: Config, id: Id, b: Snapshot, c: Snapshot, loc: Loc, closeOk: bool)
    requires FailedOk(cfg, b.s, loc) && Filling(b.m, id) && InsertOk(b.m, id, loc)
    requires c.s == ReturnActive(cfg, b.s, loc, closeOk) && c.m == Insert(b.m, id, loc)
    requires c.q.l == PushTail(b.q.l, loc) && c.q.uses == b.q.uses + [Filled(loc)]
    ensures Ended(cfg, id, b, Some(loc), true, closeOk, c)
  {
    InsertSettles(b.m, id, loc);
  }

  lemma UndoEnds(cfg: Config, id: Id, b: Snapshot, c: Snapshot, place: Option<Loc>, closeOk: bool)
    requires Filling(b.m, id) && Mirror(b.m) && FailOk(b.m, id)
    requires HandedBack(cfg, b.s, place, false, closeOk, c.s) && c.m == Fail(b.m, id)
    requires c.q.l == b.q.l && c.q.uses == b.q.uses
    ensures Ended(cfg, id, b, place, false, closeOk, c)
  {
    FailSettles(b.m, id);
  }

  /** Once a moved chunk was published under 0, the request that fills 0 can neither publish nor give
      up its own, whatever is cleared in between. */
  lemma MovedUnderZero(m: CMap, loc: Loc, z: nat)
    requires InsertOk(m, 0, loc) && z < |m.dataMap|
    ensures var m' := Insert(m, 0, loc);
            !IsPending(m', 0) && !IsPending(ClearZone(m', z), 0)
  {
  }
}
