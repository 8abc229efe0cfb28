/** The chunk policy's pool: which chunks of which zones are in use, how many each zone has, and
    which zones are candidates for reclaiming. */
module ChunkPool {
  import opened ZnTypes
  import opened Lru
  import opened MinHeap

  /** `entry` is the zone's handle in the heap, null until the zone was filled once. */
  datatype PoolZone = PoolZone(chunks: seq<bool>, chunksInUse: nat, filled: bool, entry: Handle?)

  type Pool = seq<PoolZone>

  /** Pool, heap and queue of the policy, the history of the queue, and the number of chunks there are. */
  datatype PolicyState = PolicyState(p: Pool, view: map<Handle, nat>, l: LruQueue<Loc>, uses: seq<Use<Loc>>, total: nat)

  /** A read moves the chunk to the tail of the queue if it is still there. */
  function TouchedBy(q: PolicyState, loc: Loc): PolicyState
    requires TouchOk(q.l, loc)
  {
    q.(l := Touch(q.l, loc), uses := q.uses + [Touched(loc)])
  }

  function Init(cfg: Config): Pool {
    seq(cfg.numZones, _ => PoolZone(seq(cfg.maxChunks, _ => false), 0, false, null))
  }

  predicate InUse(p: Pool, loc: Loc) {
    loc.zone < |p| && loc.chunk < |p[loc.zone].chunks| && p[loc.zone].chunks[loc.chunk]
  }

  predicate InPool(cfg: Config, loc: Loc) {
    loc.zone < cfg.numZones && loc.chunk < cfg.maxChunks
  }

  ghost function Live(p: Pool, z: nat): set<nat>
    requires z < |p|
  {
    set c: nat | c < |p[z].chunks| && p[z].chunks[c]
  }

  /** Each zone counts its chunks in use. */
  ghost predicate CountsOk(cfg: Config, p: Pool) {
    && |p| == cfg.numZones
    && forall z: nat :: z < |p| ==> |p[z].chunks| == cfg.maxChunks && p[z].chunksInUse == |Live(p, z)|
  }

  /** A chunk starts or stops being in use. */
  function SetUse(p: Pool, loc: Loc, use: bool): Pool
    requires loc.zone < |p| && loc.chunk < |p[loc.zone].chunks|
    requires !use ==> p[loc.zone].chunksInUse > 0
  {
    var zone := p[loc.zone];
    p[loc.zone := zone.(chunks := zone.chunks[loc.chunk := use],
                        chunksInUse := if use then zone.chunksInUse + 1 else zone.chunksInUse - 1)]
  }

  lemma LiveNotEmpty(cfg: Config, p: Pool, loc: Loc)
    requires CountsOk(cfg, p) && InUse(p, loc)
    ensures p[loc.zone].chunksInUse > 0
  {
    assert loc.chunk in Live(p, loc.zone);
  }

  lemma SetUseCounts(cfg: Config, p: Pool, loc: Loc, use: bool)
    requires CountsOk(cfg, p) && InPool(cfg, loc) && InUse(p, loc) == !use
    ensures !use ==> p[loc.zone].chunksInUse > 0
    ensures CountsOk(cfg, SetUse(p, loc, use))
    ensures forall at :: InUse(SetUse(p, loc, use), at) <==> if at == loc then use else InUse(p, at)
  {
    var z := loc.zone;
    if !use {
      LiveNotEmpty(cfg, p, loc);
    }
    var p' := SetUse(p, loc, use);
    if use {
      assert Live(p', z) == Live(p, z) + {loc.chunk};
    } else {
      assert Live(p', z) == Live(p, z) - {loc.chunk};
    }
    forall y: nat | y < |p| && y != z
      ensures Live(p', y) == Live(p, y)
    {
    }
  }

  // ---------- The queue ----------

  /** The LRU queue holds exactly the chunks in use. */
  ghost predicate HoldsInUse(l: LruQueue<Loc>, p: Pool) {
    forall loc :: InQueue(l, loc) <==> InUse(p, loc)
  }

  lemma InitHolds(cfg: Config, l: LruQueue<Loc>)
    requires l.queue == [] && forall loc :: loc in l.nodeOf ==> l.nodeOf[loc] == None
    ensures CountsOk(cfg, Init(cfg)) && HeapOk(Init(cfg), map[])
    ensures Lru.Inv(l) && HoldsInUse(l, Init(cfg)) && Lru.Ordered(l, [])
  {
    var p := Init(cfg);
    forall z: nat | z < cfg.numZones
      ensures Live(p, z) == {}
    {
    }
  }

  ghost function LocsOf(z: nat, chunks: set<nat>): set<Loc> {
    set c | c in chunks :: Loc(z, c)
  }

  ghost function LiveBelow(p: Pool, n: nat): set<Loc>
    requires n <= |p|
  {
    if n == 0 then {} else LiveBelow(p, n - 1) + LocsOf(n - 1, Live(p, n - 1))
  }

  /** The zones' counters together. */
  ghost function InUseBelow(p: Pool, n: nat): nat
    requires n <= |p|
  {
    if n == 0 then 0 else InUseBelow(p, n - 1) + p[n - 1].chunksInUse
  }

  lemma {:induction false} CountLocs(z: nat, chunks: set<nat>)
    ensures |LocsOf(z, chunks)| == |chunks|
  {
    if chunks != {} {
      var d :| d in chunks;
      CountLocs(z, chunks - {d});
      assert LocsOf(z, chunks) == LocsOf(z, chunks - {d}) + {Loc(z, d)};
    }
  }

  lemma {:induction false} InLiveBelow(p: Pool, n: nat, loc: Loc)
    requires n <= |p|
    ensures loc in LiveBelow(p, n) <==> loc.zone < n && InUse(p, loc)
  {
    if n > 0 {
      InLiveBelow(p, n - 1, loc);
      assert loc.zone == n - 1 && InUse(p, loc) ==> loc.chunk in Live(p, n - 1) && loc == Loc(n - 1, loc.chunk);
    }
  }

  lemma {:induction false} CountLive(cfg: Config, p: Pool, n: nat)
    requires CountsOk(cfg, p) && n <= |p|
    ensures |LiveBelow(p, n)| == InUseBelow(p, n) <= n * cfg.maxChunks
  {
    if n > 0 {
      var m := n - 1;
      CountLive(cfg, p, m);
      CountLocs(m, Live(p, m));
      assert LiveBelow(p, m) !! LocsOf(m, Live(p, m)) by {
        forall loc | loc in LiveBelow(p, m)
          ensures loc.zone != m
        {
          InLiveBelow(p, m, loc);
        }
      }
      Subset(Live(p, m), Below(cfg.maxChunks));
      OneMore(m, cfg.maxChunks);
    }
  }

  lemma OneMore(m: nat, k: nat)
    ensures (m + 1) * k == m * k + k
  {
  }

  lemma Subset(a: set<nat>, b: set<nat>)
    requires a <= b
    ensures |a| <= |b|
  {
    assert b == a + (b - a);
  }

  /** The queue is as long as all counters together, and no longer than there are chunks. */
  lemma QueueCounts(cfg: Config, p: Pool, l: LruQueue<Loc>)
    requires CountsOk(cfg, p) && Lru.Inv(l) && HoldsInUse(l, p)
    ensures |l.queue| == InUseBelow(p, |p|) <= cfg.numZones * cfg.maxChunks
  {
    CountLive(cfg, p, |p|);
    forall loc
      ensures InQueue(l, loc) <==> loc in LiveBelow(p, |p|)
    {
      InLiveBelow(p, |p|, loc);
    }
    QueueLength(l, LiveBelow(p, |p|));
  }

  /** A chunk that comes into use and is appended keeps the queue exactly the chunks in use. */
  lemma UseKeepsHolds(cfg: Config, p: Pool, l: LruQueue<Loc>, loc: Loc)
    requires CountsOk(cfg, p) && Lru.Inv(l) && HoldsInUse(l, p) && InPool(cfg, loc) && !InUse(p, loc)
    ensures Lru.Inv(PushTail(l, loc)) && HoldsInUse(PushTail(l, loc), SetUse(p, loc, true))
    ensures CountsOk(cfg, SetUse(p, loc, true)) && !InQueue(l, loc)
  {
    PushTailKeepsInv(l, loc);
    SetUseCounts(cfg, p, loc, true);
  }

  /** Moving a chunk to the tail keeps the queue exactly the chunks in use, in order of use. */
  lemma TouchKeepsHolds(p: Pool, l: LruQueue<Loc>, uses: seq<Use<Loc>>, loc: Loc)
    requires Lru.Inv(l) && HoldsInUse(l, p) && Ordered(l, uses)
    ensures TouchOk(l, loc) && Lru.Inv(Touch(l, loc)) && HoldsInUse(Touch(l, loc), p)
    ensures Ordered(Touch(l, loc), uses + [Touched(loc)])
    ensures forall at :: at in l.nodeOf ==> at in Touch(l, loc).nodeOf
  {
    TouchKeepsInv(l, loc);
    OrderedAfterTouch(l, uses, loc);
  }

  // ---------- The heap ----------

  /** Zones in the heap have their handle in the pool, and their priority is their counter. */
  ghost predicate HeapOk(p: Pool, view: map<Handle, nat>) {
    && (forall e :: e in view ==> e.data < |p| && p[e.data].entry == e && view[e] == p[e.data].chunksInUse)
    && (forall z: nat :: z < |p| && p[z].entry != null ==> p[z].entry.data == z)
  }

  predicate Queued(p: Pool, view: map<Handle, nat>, z: nat) {
    z < |p| && p[z].entry != null && p[z].entry in view
  }

  /** A fill puts its chunk into use at the tail of the queue, and its zone into the heap with the last
      chunk. */
  ghost predicate FilledBy(cfg: Config, b: PolicyState, c: PolicyState, loc: Loc) {
    && |c.p| == |b.p| && c.total == b.total && c.l == PushTail(b.l, loc) && c.uses == b.uses + [Filled(loc)]
    && (forall at :: InUse(c.p, at) <==> InUse(b.p, at) || at == loc)
    && (forall z: nat :: Queued(c.p, c.view, z) <==>
          Queued(b.p, b.view, z) || (loc.chunk + 1 == cfg.maxChunks && z == loc.zone))
  }

  /** Zones in the heap without a chunk in use. */
  ghost function Dead(p: Pool, view: map<Handle, nat>): set<nat> {
    set z: nat | z < |p| && IsDead(p, view, z)
  }

  predicate IsDead(p: Pool, view: map<Handle, nat>, z: nat) {
    Queued(p, view, z) && p[z].chunksInUse == 0
  }

  ghost function ZonesOf(elems: seq<Handle>): seq<nat> {
    seq(|elems|, i requires 0 <= i < |elems| => elems[i].data)
  }

  /** A zone that is not in the heap leaves room for it there. */
  lemma HeapHasRoom(p: Pool, view: map<Handle, nat>, elems: seq<Handle>, z: nat)
    requires HeapOk(p, view) && NoDup(elems) && z < |p| && !Queued(p, view, z)
    requires forall e :: e in elems ==> e in view
    ensures |elems| < |p|
  {
    var zones := ZonesOf(elems) + [z];
    forall i: nat
      ensures BelowAt(zones, i, |p|)
      ensures i < |elems| ==> zones[i] != z && p[zones[i]].entry == elems[i]
    {
      assert i < |elems| ==> elems[i] in elems;
    }
    NoDupBound(zones, |p|);
  }

  /** The zone is in the heap, and none there has fewer chunks in use. */
  ghost predicate Fewest(p: Pool, view: map<Handle, nat>, z: nat) {
    Queued(p, view, z) && forall y: nat :: Queued(p, view, y) ==> p[z].chunksInUse <= p[y].chunksInUse
  }

  /** A least entry is a filled zone with fewest chunks in use; it is dead exactly when some zone is. */
  lemma LeastIsFewest(p: Pool, view: map<Handle, nat>, e: Handle)
    requires HeapOk(p, view) && e in view && forall f :: f in view ==> view[e] <= view[f]
    ensures Fewest(p, view, e.data)
    ensures IsDead(p, view, e.data) <==> Dead(p, view) != {}
  {
    assert e.data in Dead(p, view) <==> IsDead(p, view, e.data);
    if z :| z in Dead(p, view) {
      assert view[p[z].entry] == 0;
    }
  }

  /** Taking a dead zone off the heap leaves the others. */
  lemma OneDeadLess(p: Pool, view: map<Handle, nat>, e: Handle)
    requires HeapOk(p, view) && e in view && p[e.data].chunksInUse == 0
    ensures Dead(p, view - {e}) == Dead(p, view) - {e.data} && e.data in Dead(p, view)
  {
    assert IsDead(p, view, e.data);
    forall y: nat
      ensures Queued(p, view - {e}, y) <==> Queued(p, view, y) && y != e.data
    {
    }
  }

  // ---------- Eviction arithmetic ----------

  /** Some chunk is in use and few are free. */
  predicate FewFree(total: nat, inLru: nat) {
    0 < inLru && total - inLru <= EVICT_HIGH_THRESH_CHUNKS
  }

  /** How many chunks an eviction must take until 12 are free. */
  function Missing(total: nat, inLru: nat): nat {
    if FewFree(total, inLru) then EVICT_LOW_THRESH_CHUNKS - (total - inLru) else 0
  }

  /** With at least one chunk in use and few free, the number of chunks to evict is between 6 and
      12, and there are as many in the queue exactly when the disk has at least 12 chunks. */
  lemma EvictArithmetic(total: nat, inLru: nat)
    requires 0 < inLru <= total < WORD && total - inLru <= EVICT_HIGH_THRESH_CHUNKS
    ensures SubWord(total, inLru) == total - inLru
    ensures SubWord(EVICT_LOW_THRESH_CHUNKS, total - inLru) == 12 - (total - inLru)
    ensures SubWord(EVICT_LOW_THRESH_CHUNKS, total - inLru) <= inLru <==> total >= 12
  {
  }
}
