/** Requests from an empty cache under the chunk policy that end badly although every command of the
    device succeeds: a request that is never answered, and requests that the program does not survive. */
module ChunkRuns {
  import opened ZnTypes
  import opened Lru
  import opened MinHeap
  import opened ChunkPool
  import opened ZoneState
  import opened CacheMap
  import opened SingleRequest
  import opened ChunkAgreement
  import opened ChunkMiss
  import ChunkCache

  /** What every valid cache between two requests fulfils. */
  ghost predicate Sound(cfg: Config, b: Snapshot) {
    && Joined(cfg, b.s, b.m, b.q.p, b.q.view) && CountsOk(cfg, b.q.p) && HeapOk(b.q.p, b.q.view)
    && Lru.Inv(b.q.l) && HoldsInUse(b.q.l, b.q.p) && b.s.writes == 0
  }

  lemma ValidIsSound(c: ChunkCache.Cache)
    requires c.Valid() && c.AtRest()
    ensures Sound(c.cfg, c.Now())
  {
  }

  /** An empty cache. */
  ghost predicate Empty(cfg: Config, b: Snapshot) {
    && b.s == ZoneState.Init(cfg) && b.m == CacheMap.Init(cfg.numZones) && b.q.l.queue == []
    && b.q.total == cfg.numZones * cfg.maxChunks
  }

  /** Queued chunks are in use, and mapped under small identifiers if all are. */
  lemma QueuedAreSmall(cfg: Config, b: Snapshot, bound: nat)
    requires Sound(cfg, b) && bound <= HALF_WORD && forall k: Id :: k in b.m.zoneMap ==> k < bound
    ensures forall j: nat :: j < |b.q.l.queue| ==> InUse(b.q.p, b.q.l.queue[j].key) && SmallAt(b.m, b.q.l.queue[j].key)
  {
    forall j: nat | j < |b.q.l.queue|
      ensures InUse(b.q.p, b.q.l.queue[j].key) && SmallAt(b.m, b.q.l.queue[j].key)
    {
      var loc := b.q.l.queue[j].key;
      assert InQueue(b.q.l, loc);
      assert InUse(b.q.p, Loc(loc.zone, loc.chunk));
      assert Indexed(b.m, loc, b.m.dataMap[loc.zone][loc.chunk]);
      assert IsLocated(b.m, b.m.dataMap[loc.zone][loc.chunk], loc);
    }
  }

  // ---------- One zone ----------

  /** Identifiers 1 to `i` were stored in the only zone. */
  ghost predicate OneZone(cfg: Config, b: Snapshot, i: nat) {
    && b.s == Zsm([if i == 0 then Zone(Free, 0) else if i < cfg.maxChunks then Zone(Active, i) else Zone(Full, 0)],
                  if 0 < i < cfg.maxChunks then [0] else [], if i == 0 then [0] else [], 0)
    && |b.q.l.queue| == i && b.q.total == cfg.maxChunks && forall k: Id :: k in b.m.zoneMap <==> 1 <= k <= i
  }

  lemma EmptyZone(cfg: Config, b: Snapshot)
    requires cfg.numZones == 1 && cfg.maxChunks > 0 && Empty(cfg, b)
    ensures OneZone(cfg, b, 0)
  {
    assert b.s.zones == [Zone(Free, 0)] && b.s.free == [0];
  }

  lemma StoresNext(cfg: Config, b: Snapshot, c: Snapshot, i: nat, id: Id, victims: seq<nat>, place: Option<Loc>,
                     written: bool)
    requires cfg.Valid() && cfg.numZones == 1 && cfg.backend.Block? && OneZone(cfg, b, i) && i < cfg.maxChunks
    requires id == i + 1 && Missed(cfg, id, b, victims, true, place, written, true, c)
    requires written <==> place.Some?
    requires c.q.total == b.q.total
    ensures OneZone(cfg, c, i + 1)
  {
    FreedNone(b.s);
    assert |Keys(c.q.l)| == |Keys(b.q.l)| + 1;
  }

  /** With its only zone full, the cache has too few chunks to evict, or no zone to collect, or none
      without a live chunk. */
  lemma OneZoneFull(cfg: Config, b: Snapshot, zero: bool, resets: nat -> bool)
    requires cfg.Valid() && cfg.numZones == 1 && cfg.backend.Block? && cfg.maxChunks + 1 < HALF_WORD
    requires OneZone(cfg, b, cfg.maxChunks) && Sound(cfg, b)
    ensures !Stuck(cfg, b, resets)
    ensures OutcomeOf(b, zero) == var n := cfg.maxChunks;
                                  if n < EVICT_LOW_THRESH_CHUNKS then Faults(NoChunk)
                                  else if n == EVICT_LOW_THRESH_CHUNKS then Faults(NoVictim) else Faults(NotMoved)
  {
    var n := cfg.maxChunks;
    QueuedAreSmall(cfg, b, n + 1);
    assert Due(b) == EVICT_LOW_THRESH_CHUNKS;
    assert FaultsAt(b, n);
    if n >= EVICT_LOW_THRESH_CHUNKS {
      assert Queued(b.q.p, b.q.view, 0) by {
        assert Sealed(cfg, b.s, 0);
      }
      ZoneOfFull(cfg, b);
    }
  }

  lemma ZoneOfFull(cfg: Config, b: Snapshot)
    requires cfg.numZones == 1 && OneZone(cfg, b, cfg.maxChunks) && Sound(cfg, b)
    requires cfg.maxChunks >= EVICT_LOW_THRESH_CHUNKS == Due(b) && Queued(b.q.p, b.q.view, 0)
    ensures DeadThen(b) == if cfg.maxChunks == EVICT_LOW_THRESH_CHUNKS then {0} else {}
  {
    var first := DueChunks(b);
    if cfg.maxChunks == EVICT_LOW_THRESH_CHUNKS {
      forall c: nat | InUse(b.q.p, Loc(0, c))
        ensures Loc(0, c) in first
      {
        assert InQueue(b.q.l, Loc(0, c));
        var j :| 0 <= j < |b.q.l.queue| && b.q.l.queue[j].key == Loc(0, c);
        assert first[j] == Loc(0, c);
      }
      assert DiesWithout(b.q.p, b.q.view, first, 0);
    } else {
      var loc := b.q.l.queue[EVICT_LOW_THRESH_CHUNKS].key;
      assert InQueue(b.q.l, loc) && InUse(b.q.p, Loc(loc.zone, loc.chunk));
      assert loc !in first;
      assert !DiesWithout(b.q.p, b.q.view, first, 0);
    }
  }

  /** Store the next identifier. */
  method StoreNext(c: ChunkCache.Cache, i: nat)
    requires c.Valid() && c.AtRest() && OneZone(c.cfg, c.Now(), i) && i < c.cfg.maxChunks && i + 1 < HALF_WORD
    requires c.cfg.numZones == 1 && c.cfg.backend.Block?
    modifies c.policy, c.policy.zonePool, c.policy.heap, c.policy.heap.arr, c.policy.heap.issued
    modifies c.zsm`active, c.zsm`free, c.zsm`writesOccurring, c.zsm.state
    modifies c.entries, c.entries.dataMap, c.entries.activeReaders
    ensures c.Valid() && c.AtRest() && OneZone(c.cfg, c.Now(), i + 1)
    ensures c.policy.heap.arr == old(c.policy.heap.arr)
    ensures forall e :: e in c.policy.heap.issued ==> e in old(c.policy.heap.issued) || fresh(e)
  {
    ghost var b := c.Now();
    var answer;
    ghost var victims, place, turns;
    answer, victims, place, turns := c.Get(i + 1, true, true, true, _ => true);
    StoresNext(c.cfg, b, c.Now(), i, i + 1, victims, place, answer.Stored?);
  }

  /** Store identifiers until the zone is full. */
  method StoreAll(c: ChunkCache.Cache)
    requires c.Valid() && c.AtRest() && OneZone(c.cfg, c.Now(), 0) && c.cfg.maxChunks + 1 < HALF_WORD
    requires c.cfg.numZones == 1 && c.cfg.backend.Block?
    modifies c.policy, c.policy.zonePool, c.policy.heap, c.policy.heap.arr, c.policy.heap.issued
    modifies c.zsm`active, c.zsm`free, c.zsm`writesOccurring, c.zsm.state
    modifies c.entries, c.entries.dataMap, c.entries.activeReaders
    ensures c.Valid() && c.AtRest() && OneZone(c.cfg, c.Now(), c.cfg.maxChunks)
    ensures c.policy.heap.arr == old(c.policy.heap.arr)
    ensures forall e :: e in c.policy.heap.issued ==> e in old(c.policy.heap.issued) || fresh(e)
  {
    for i: nat := 0 to c.cfg.maxChunks
      invariant c.Valid() && c.AtRest() && OneZone(c.cfg, c.Now(), i)
      invariant c.policy.heap.arr == old(c.policy.heap.arr)
      invariant forall e :: e in c.policy.heap.issued ==> e in old(c.policy.heap.issued) || fresh(e)
    {
      StoreNext(c, i);
    }
  }

  /** Ask for one more identifier than the zone holds. */
  method AskFull(c: ChunkCache.Cache, id: Id) returns (answer: ChunkCache.Answer)
    requires c.Valid() && c.AtRest() && OneZone(c.cfg, c.Now(), c.cfg.maxChunks) && c.cfg.maxChunks + 1 < HALF_WORD
    requires c.cfg.numZones == 1 && c.cfg.backend.Block? && !(1 <= id <= c.cfg.maxChunks)
    modifies c.policy, c.policy.zonePool, c.policy.heap, c.policy.heap.arr, c.policy.heap.issued
    modifies c.zsm`active, c.zsm`free, c.zsm`writesOccurring, c.zsm.state
    modifies c.entries, c.entries.dataMap, c.entries.activeReaders
    ensures answer == AnswerOfFull(c.cfg.maxChunks)
  {
    ghost var b := c.Now();
    ValidIsSound(c);
    var resets: nat -> bool := _ => true;
    ghost var victims, place, turns;
    answer, victims, place, turns := c.Get(id, true, true, true, resets);
    AnswersFull(c.cfg, b, id == 0, resets, answer);
  }

  lemma AnswersFull(cfg: Config, b: Snapshot, zero: bool, resets: nat -> bool, answer: ChunkCache.Answer)
    requires cfg.Valid() && cfg.numZones == 1 && cfg.backend.Block? && cfg.maxChunks + 1 < HALF_WORD
    requires OneZone(cfg, b, cfg.maxChunks) && Sound(cfg, b) && ChunkCache.Expected(cfg, b, zero, resets, answer)
    ensures answer == AnswerOfFull(cfg.maxChunks)
  {
    OneZoneFull(cfg, b, zero, resets);
  }

  function AnswerOfFull(n: nat): ChunkCache.Answer {
    if n < EVICT_LOW_THRESH_CHUNKS then ChunkCache.Faulted(NoChunk)
    else if n == EVICT_LOW_THRESH_CHUNKS then ChunkCache.Faulted(NoVictim) else ChunkCache.Faulted(NotMoved)
  }

  /** On a disk of one zone with `n` chunks, after `n` requests the next one follows the null pointer
      of an empty queue or of an empty heap, or fails an assertion because it has no place to move a
      chunk to. */
  method FillOneZone(n: nat, id: Id) returns (answer: ChunkCache.Answer)
    requires 1 <= n && n + 1 < HALF_WORD && !(1 <= id <= n)
    ensures n < 12 ==> answer == ChunkCache.Faulted(NoChunk)
    ensures n == 12 ==> answer == ChunkCache.Faulted(NoVictim)
    ensures n > 12 ==> answer == ChunkCache.Faulted(NotMoved)
  {
    var c := new ChunkCache.Cache(Config(1, 1, n, Block));
    EmptyZone(c.cfg, c.Now());
    StoreAll(c);
    answer := AskFull(c, id);
  }

  // ---------- Two zones ----------

  /** What `i` stores leave of the zone whose first chunk is the `first`-th to be written. */
  function ZoneAfter(i: int, first: nat): Zone {
    if i <= first then Zone(Free, 0)
    else if i < first + 12 then Zone(Active, i - first) else Zone(Full, 0)
  }

  /** Identifiers 1 to `i` were stored in two zones of twelve chunks, in the first one first. */
  ghost predicate TwoZones(b: Snapshot, i: nat) {
    && b.s == Zsm([ZoneAfter(i, 0), ZoneAfter(i, 12)], if 0 < i < 12 then [0] else if 12 < i < 24 then [1] else [],
                  if i == 0 then [0, 1] else if i <= 12 then [1] else [], 0)
    && |b.q.l.queue| == i && b.q.total == 24 && (forall k: Id :: k in b.m.zoneMap <==> 1 <= k <= i)
    && (forall j: nat :: j < i ==> b.q.l.queue[j].key.zone == if j < 12 then 0 else 1)
  }

  lemma EmptyPair(b: Snapshot)
    requires Empty(Config(2, 1, 12, Block), b)
    ensures TwoZones(b, 0)
  {
    assert b.s.zones == [Zone(Free, 0), Zone(Free, 0)] && b.s.free == [0, 1];
  }

  lemma StoresInPair(b: Snapshot, c: Snapshot, i: nat, victims: seq<nat>, place: Option<Loc>, written: bool)
    requires TwoZones(b, i) && i < 24 && (written <==> place.Some?) && c.q.total == b.q.total
    requires Missed(Config(2, 1, 12, Block), i + 1, b, victims, true, place, written, true, c)
    ensures TwoZones(c, i + 1)
  {
    FreedNone(b.s);
    assert |Keys(c.q.l)| == |Keys(b.q.l)| + 1;
    forall j: nat | j < i + 1
      ensures c.q.l.queue[j].key.zone == if j < 12 then 0 else 1
    {
      assert c.q.l.queue[j].key == Keys(c.q.l)[j];
    }
  }

  /** With both zones full, the evictions empty the first one only. */
  lemma PairFull(b: Snapshot, zero: bool, resets: nat -> bool)
    requires TwoZones(b, 24) && Sound(Config(2, 1, 12, Block), b)
    ensures !Stuck(Config(2, 1, 12, Block), b, resets)
    ensures OutcomeOf(b, zero) == if zero then Moves else Faults(NotMoved)
  {
    var cfg := Config(2, 1, 12, Block);
    QueuedAreSmall(cfg, b, 25);
    assert Due(b) == 12;
    assert Sealed(cfg, b.s, 0) && Sealed(cfg, b.s, 1);
    assert Queued(b.q.p, b.q.view, 0) && Queued(b.q.p, b.q.view, 1);
    PairDead(b);
  }

  lemma PairDead(b: Snapshot)
    requires TwoZones(b, 24) && Sound(Config(2, 1, 12, Block), b) && Due(b) == 12
    requires Queued(b.q.p, b.q.view, 0) && Queued(b.q.p, b.q.view, 1)
    ensures DeadThen(b) == {0}
  {
    var first := DueChunks(b);
    forall c: nat | InUse(b.q.p, Loc(0, c))
      ensures Loc(0, c) in first
    {
      assert InQueue(b.q.l, Loc(0, c));
      var j :| 0 <= j < |b.q.l.queue| && b.q.l.queue[j].key == Loc(0, c);
      assert first[j] == Loc(0, c);
    }
    assert DiesWithout(b.q.p, b.q.view, first, 0);
    var loc := b.q.l.queue[12].key;
    assert InQueue(b.q.l, loc) && InUse(b.q.p, Loc(1, loc.chunk)) && loc !in first;
    assert !DiesWithout(b.q.p, b.q.view, first, 1);
  }

  /** Store identifiers until both zones are full. */
  method StorePair(c: ChunkCache.Cache)
    requires c.Valid() && c.AtRest() && TwoZones(c.Now(), 0) && c.cfg == Config(2, 1, 12, Block)
    modifies c.policy, c.policy.zonePool, c.policy.heap, c.policy.heap.arr, c.policy.heap.issued
    modifies c.zsm`active, c.zsm`free, c.zsm`writesOccurring, c.zsm.state
    modifies c.entries, c.entries.dataMap, c.entries.activeReaders
    ensures c.Valid() && c.AtRest() && TwoZones(c.Now(), 24)
    ensures c.policy.heap.arr == old(c.policy.heap.arr)
    ensures forall e :: e in c.policy.heap.issued ==> e in old(c.policy.heap.issued) || fresh(e)
  {
    for i: nat := 0 to 24
      invariant c.Valid() && c.AtRest() && TwoZones(c.Now(), i)
      invariant c.policy.heap.arr == old(c.policy.heap.arr)
      invariant forall e :: e in c.policy.heap.issued ==> e in old(c.policy.heap.issued) || fresh(e)
    {
      StoreInPair(c, i);
    }
  }

  /** Store the next identifier. */
  method StoreInPair(c: ChunkCache.Cache, i: nat)
    requires c.Valid() && c.AtRest() && TwoZones(c.Now(), i) && i < 24 && c.cfg == Config(2, 1, 12, Block)
    modifies c.policy, c.policy.zonePool, c.policy.heap, c.policy.heap.arr, c.policy.heap.issued
    modifies c.zsm`active, c.zsm`free, c.zsm`writesOccurring, c.zsm.state
    modifies c.entries, c.entries.dataMap, c.entries.activeReaders
    ensures c.Valid() && c.AtRest() && TwoZones(c.Now(), i + 1)
    ensures c.policy.heap.arr == old(c.policy.heap.arr)
    ensures forall e :: e in c.policy.heap.issued ==> e in old(c.policy.heap.issued) || fresh(e)
  {
    ghost var b := c.Now();
    var answer;
    ghost var victims, place, turns;
    answer, victims, place, turns := c.Get(i + 1, true, true, true, _ => true);
    StoresInPair(b, c.Now(), i, victims, place, answer.Stored?);
  }

  /** On two zones of twelve chunks, after 24 requests the next one reclaims one zone and then comes to
      live chunks. With 0 it goes on to publish them as chunks of 0, otherwise it fails an assertion. */
  method FillTwoZones(id: Id) returns (answer: ChunkCache.Answer)
    requires !(1 <= id <= 24)
    ensures answer == if id == 0 then ChunkCache.MovesChunks else ChunkCache.Faulted(NotMoved)
  {
    var c := new ChunkCache.Cache(Config(2, 1, 12, Block));
    EmptyPair(c.Now());
    StorePair(c);
    answer := AskPair(c, id);
  }

  method AskPair(c: ChunkCache.Cache, id: Id) returns (answer: ChunkCache.Answer)
    requires c.Valid() && c.AtRest() && TwoZones(c.Now(), 24) && c.cfg == Config(2, 1, 12, Block)
    requires !(1 <= id <= 24)
    modifies c.policy, c.policy.zonePool, c.policy.heap, c.policy.heap.arr, c.policy.heap.issued
    modifies c.zsm`active, c.zsm`free, c.zsm`writesOccurring, c.zsm.state
    modifies c.entries, c.entries.dataMap, c.entries.activeReaders
    ensures answer == if id == 0 then ChunkCache.MovesChunks else ChunkCache.Faulted(NotMoved)
  {
    ValidIsSound(c);
    var resets: nat -> bool := _ => true;
    PairFull(c.Now(), id == 0, resets);
    ghost var victims, place, turns;
    answer, victims, place, turns := c.Get(id, true, true, true, resets);
  }

  // ---------- One chunk per zone ----------

  /** `free` zones are left and the others full, `used` chunks are in use, and identifiers below `next`
      were asked for. */
  ghost predicate OneChunkZones(cfg: Config, b: Snapshot, free: nat, used: nat, next: nat) {
    && (forall z: nat :: z < |b.s.zones| ==> b.s.zones[z] == Zone(Free, 0) || b.s.zones[z] == Zone(Full, 0))
    && (forall z: nat :: z in b.s.free ==> z < |b.s.zones| && b.s.zones[z] == Zone(Free, 0))
    && b.s.active == [] && b.s.writes == 0 && |b.s.free| == free && |b.q.l.queue| == used && b.q.total == cfg.numZones
    && forall k: Id :: k in b.m.zoneMap ==> k < next
  }

  lemma EmptyZones(cfg: Config, b: Snapshot)
    requires cfg.maxChunks == 1 && Empty(cfg, b)
    ensures OneChunkZones(cfg, b, cfg.numZones, 0, 0)
  {
  }

  /** Storing one more takes a free zone, after an eviction one of the four it freed. */
  lemma OneZoneLess(cfg: Config, b: Snapshot, c: Snapshot, free: nat, used: nat, id: Id, victims: seq<nat>,
                    place: Option<Loc>, written: bool)
    requires cfg.Valid() && cfg.maxChunks == 1 && cfg.backend.Block? && OneChunkZones(cfg, b, free, used, id)
    requires Missed(cfg, id, b, victims, true, place, written, true, c) && (written <==> place.Some?)
    requires c.q.total == b.q.total && ZoneState.Inv(cfg, c.s)
    requires free == 0 ==> Due(b) == EVICT_LOW_THRESH_CHUNKS <= used
    ensures written
    ensures free > 0 ==> OneChunkZones(cfg, c, free - 1, used + 1, id + 1)
    ensures free == 0 ==>
              OneChunkZones(cfg, c, EVICT_LOW_THRESH_ZONES - 1, used - EVICT_LOW_THRESH_CHUNKS + 1, id + 1)
  {
    FreedNone(b.s);
    var freed := Freed(b.s, victims);
    assert freed.free != [] && freed.active == [];
    assert |Keys(c.q.l)| == |Keys(b.q.l)| - |EvictedBy(b)| + 1;
  }

  /** With twelve zones or more all full, the eviction frees four of them. */
  lemma EnoughDie(cfg: Config, b: Snapshot, zero: bool, resets: nat -> bool, next: nat)
    requires cfg.Valid() && cfg.maxChunks == 1 && cfg.backend.Block? && Sound(cfg, b) && next <= HALF_WORD
    requires OneChunkZones(cfg, b, 0, cfg.numZones, next) && cfg.numZones >= EVICT_LOW_THRESH_CHUNKS
    ensures Due(b) == EVICT_LOW_THRESH_CHUNKS && OutcomeOf(b, zero) == Evicted && !Stuck(cfg, b, resets)
  {
    QueuedAreSmall(cfg, b, next);
    FourDie(cfg, b, next);
    DeadAreFull(cfg, b, next);
  }

  lemma FourDie(cfg: Config, b: Snapshot, next: nat)
    requires cfg.Valid() && cfg.maxChunks == 1 && Sound(cfg, b)
    requires OneChunkZones(cfg, b, 0, cfg.numZones, next) && Due(b) == EVICT_LOW_THRESH_CHUNKS <= |b.q.l.queue|
    ensures |DeadThen(b)| >= EVICT_LOW_THRESH_ZONES
  {
    var dead := DeadThen(b);
    forall j: nat | j < EVICT_LOW_THRESH_ZONES
      ensures b.q.l.queue[j].key.zone in dead && b.q.l.queue[j].key.chunk == 0
    {
      HeadDies(cfg, b, next, j);
    }
    HeadsApart(b.q.l, dead);
  }

  lemma DeadAreFull(cfg: Config, b: Snapshot, next: nat)
    requires cfg.Valid() && cfg.maxChunks == 1 && Sound(cfg, b) && OneChunkZones(cfg, b, 0, cfg.numZones, next)
    ensures forall z :: z in DeadThen(b) ==> HasCond(b.s, z, Full)
  {
    forall z | z in DeadThen(b)
      ensures HasCond(b.s, z, Full)
    {
      assert Queued(b.q.p, b.q.view, z) && Sealed(cfg, b.s, z);
    }
  }

  lemma AtLeastFour(a: nat, b: nat, c: nat, d: nat, s: set<nat>)
    requires a in s && b in s && c in s && d in s && a != b && a != c && a != d && b != c && b != d && c != d
    ensures |s| >= 4
  {
    Subset({a, b, c, d}, s);
  }

  lemma HeadsApart(l: LruQueue<Loc>, zones: set<nat>)
    requires Lru.Inv(l) && |l.queue| >= EVICT_LOW_THRESH_ZONES
    requires forall j: nat :: j < EVICT_LOW_THRESH_ZONES ==> l.queue[j].key.zone in zones && l.queue[j].key.chunk == 0
    ensures |zones| >= EVICT_LOW_THRESH_ZONES
  {
    assert forall i, j :: 0 <= i < j < |l.queue| ==> l.queue[i].key != l.queue[j].key;
    AtLeastFour(l.queue[0].key.zone, l.queue[1].key.zone, l.queue[2].key.zone, l.queue[3].key.zone, zones);
  }

  lemma HeadDies(cfg: Config, b: Snapshot, next: nat, j: nat)
    requires cfg.Valid() && cfg.maxChunks == 1 && Sound(cfg, b) && j < EVICT_LOW_THRESH_ZONES
    requires OneChunkZones(cfg, b, 0, cfg.numZones, next) && Due(b) == EVICT_LOW_THRESH_CHUNKS <= |b.q.l.queue|
    ensures b.q.l.queue[j].key.zone in DeadThen(b) && b.q.l.queue[j].key.chunk == 0
  {
    var loc := b.q.l.queue[j].key;
    assert InQueue(b.q.l, loc) && InUse(b.q.p, Loc(loc.zone, loc.chunk));
    assert loc.chunk < Written(cfg, b.s, loc.zone) <= 1;
    assert Sealed(cfg, b.s, loc.zone) && Queued(b.q.p, b.q.view, loc.zone);
    assert DueChunks(b)[j] == loc;
    assert DiesWithout(b.q.p, b.q.view, DueChunks(b), loc.zone);
  }

  /** Ask for the next identifier; it is stored. */
  method AskNext(c: ChunkCache.Cache, ghost free: nat, ghost used: nat, id: Id)
    requires c.Valid() && c.AtRest() && OneChunkZones(c.cfg, c.Now(), free, used, id) && id + 1 < HALF_WORD
    requires c.cfg.maxChunks == 1 && c.cfg.backend.Block? && c.cfg.numZones >= EVICT_LOW_THRESH_CHUNKS
    requires free == 0 ==> used == c.cfg.numZones
    modifies c.policy, c.policy.zonePool, c.policy.heap, c.policy.heap.arr, c.policy.heap.issued
    modifies c.zsm`active, c.zsm`free, c.zsm`writesOccurring, c.zsm.state
    modifies c.entries, c.entries.dataMap, c.entries.activeReaders
    ensures c.Valid() && c.AtRest()
    ensures free > 0 ==> OneChunkZones(c.cfg, c.Now(), free - 1, used + 1, id + 1)
    ensures free == 0 ==>
              OneChunkZones(c.cfg, c.Now(), EVICT_LOW_THRESH_ZONES - 1, used - EVICT_LOW_THRESH_CHUNKS + 1, id + 1)
    ensures c.policy.heap.arr == old(c.policy.heap.arr)
    ensures forall e :: e in c.policy.heap.issued ==> e in old(c.policy.heap.issued) || fresh(e)
  {
    ghost var b := c.Now();
    ValidIsSound(c);
    if free == 0 {
      EnoughDie(c.cfg, b, id == 0, _ => true, id);
    }
    var answer;
    ghost var victims, place, turns;
    answer, victims, place, turns := c.Get(id, true, true, true, _ => true);
    OneZoneLess(c.cfg, b, c.Now(), free, used, id, victims, place, answer.Stored?);
  }

  /** Ask for identifiers, as many as there are zones and four more. */
  method AskAll(c: ChunkCache.Cache)
    requires c.Valid() && c.AtRest() && OneChunkZones(c.cfg, c.Now(), c.cfg.numZones, 0, 0)
    requires c.cfg.maxChunks == 1 && c.cfg.backend.Block?
    requires c.cfg.numZones >= EVICT_LOW_THRESH_CHUNKS && c.cfg.numZones + 6 < HALF_WORD
    modifies c.policy, c.policy.zonePool, c.policy.heap, c.policy.heap.arr, c.policy.heap.issued
    modifies c.zsm`active, c.zsm`free, c.zsm`writesOccurring, c.zsm.state
    modifies c.entries, c.entries.dataMap, c.entries.activeReaders
    ensures c.Valid() && c.AtRest()
    ensures OneChunkZones(c.cfg, c.Now(), 0, c.cfg.numZones - 8, c.cfg.numZones + 4)
    ensures c.policy.heap.arr == old(c.policy.heap.arr)
    ensures forall e :: e in c.policy.heap.issued ==> e in old(c.policy.heap.issued) || fresh(e)
  {
    ghost var free: nat, used: nat := c.cfg.numZones, 0;
    for i: nat := 0 to c.cfg.numZones + 4
      invariant c.Valid() && c.AtRest() && OneChunkZones(c.cfg, c.Now(), free, used, i)
      invariant if i <= c.cfg.numZones then free == c.cfg.numZones - i && used == i
                else free == c.cfg.numZones + 4 - i && used == i - 12
      invariant c.policy.heap.arr == old(c.policy.heap.arr)
      invariant forall e :: e in c.policy.heap.issued ==> e in old(c.policy.heap.issued) || fresh(e)
    {
      AskNext(c, free, used, i);
      assert free == 0 ==> used >= EVICT_LOW_THRESH_CHUNKS;
      free, used := if free > 0 then free - 1 else 3, if free > 0 then used + 1 else used - 11;
    }
  }

  /** With one chunk per zone, the evictions free twelve chunks but only four zones. Once those are
      full again more than six chunks count as free, and the next request is never answered. */
  method StarveOneChunkZones(n: nat) returns (answer: ChunkCache.Answer)
    requires 12 <= n && n + 6 < HALF_WORD
    ensures answer.Starved?
  {
    var c := new ChunkCache.Cache(Config(n, 1, 1, Block));
    EmptyZones(c.cfg, c.Now());
    answer := AskBeyond(c);
  }

  /** Ask for four more identifiers than there are zones, and then for one more. */
  method AskBeyond(c: ChunkCache.Cache) returns (answer: ChunkCache.Answer)
    requires c.Valid() && c.AtRest() && OneChunkZones(c.cfg, c.Now(), c.cfg.numZones, 0, 0)
    requires c.cfg.maxChunks == 1 && c.cfg.backend.Block?
    requires c.cfg.numZones >= EVICT_LOW_THRESH_CHUNKS && c.cfg.numZones + 6 < HALF_WORD
    modifies c.policy, c.policy.zonePool, c.policy.heap, c.policy.heap.arr, c.policy.heap.issued
    modifies c.zsm`active, c.zsm`free, c.zsm`writesOccurring, c.zsm.state
    modifies c.entries, c.entries.dataMap, c.entries.activeReaders
    ensures answer.Starved?
  {
    AskAll(c);
    answer := AskStarved(c, c.cfg.numZones + 4);
  }

  method AskStarved(c: ChunkCache.Cache, id: Id) returns (answer: ChunkCache.Answer)
    requires c.Valid() && c.AtRest() && c.cfg.numZones >= 8 && OneChunkZones(c.cfg, c.Now(), 0, c.cfg.numZones - 8, id)
    modifies c.policy, c.policy.zonePool, c.policy.heap, c.policy.heap.arr, c.policy.heap.issued
    modifies c.zsm`active, c.zsm`free, c.zsm`writesOccurring, c.zsm.state
    modifies c.entries, c.entries.dataMap, c.entries.activeReaders
    ensures answer.Starved?
  {
    assert Due(c.Now()) == 0;
    ghost var victims, place, turns;
    answer, victims, place, turns := c.Get(id, true, true, true, _ => true);
  }
}
