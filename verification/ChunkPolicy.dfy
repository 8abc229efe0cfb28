/** The chunk eviction policy: chunks in order of use, and full zones by how few of their chunks are
    still in use. */
module ChunkPolicy {
  import opened ZnTypes
  import opened Lru
  import opened MinHeap
  import opened ChunkPool
  import opened ChunkAgreement

  class Policy {
    const cfg: Config
    const totalChunks: nat
    const zonePool: array<PoolZone>
    const heap: Heap
    var lruQueue: seq<Link<Loc>>
    var chunkToLru: map<Loc, Option<nat>>
    var nextNode: nat
    /** Everything the policy was told and every chunk it gave up. */
    ghost var uses: seq<Use<Loc>>

    ghost function Queue(): LruQueue<Loc>
      reads this
    {
      LruQueue(lruQueue, chunkToLru, nextNode)
    }

    ghost function State(): PolicyState
      reads this, zonePool, heap, heap.members
    {
      PolicyState(zonePool[..], heap.View(), Queue(), uses, totalChunks)
    }

    /** The queue holds the chunks in use, in order of their last use. */
    ghost predicate QueueValid()
      reads this, zonePool
    {
      && cfg.Valid() && totalChunks == cfg.numZones * cfg.maxChunks < WORD
      && Lru.Inv(Queue()) && Ordered(Queue(), uses)
      && CountsOk(cfg, zonePool[..]) && HoldsInUse(Queue(), zonePool[..])
      && (forall loc :: InPool(cfg, loc) ==> loc in chunkToLru)
    }

    /** The heap's priorities are the zones' counters. */
    ghost predicate HeapValid()
      reads zonePool, heap, heap.arr, heap.members, heap.issued
    {
      && heap.Valid() && HeapOk(zonePool[..], heap.View()) && zonePool.Length <= heap.arr.Length
      && (forall z: nat :: z < zonePool.Length && zonePool[z].entry != null ==> zonePool[z].entry in heap.issued)
    }

    ghost predicate Valid()
      reads this, zonePool, heap, heap.arr, heap.members, heap.issued
    {
      QueueValid() && HeapValid()
    }

    constructor (cfg: Config)
      requires cfg.Valid() && cfg.numZones * cfg.maxChunks < WORD
      ensures this.cfg == cfg && Valid() && lruQueue == [] && uses == []
      ensures zonePool[..] == ChunkPool.Init(cfg) && heap.View() == map[]
      ensures fresh(zonePool) && fresh(heap) && fresh(heap.arr) && heap.issued == {}
    {
      this.cfg := cfg;
      totalChunks := cfg.numZones * cfg.maxChunks;
      zonePool := new PoolZone[cfg.numZones](_ => PoolZone([], 0, false, null));
      heap := new Heap(cfg.numZones);
      lruQueue := [];
      chunkToLru := map[];
      nextNode := 0;
      uses := [];
      new;
      chunkToLru := SetUpPool(cfg, zonePool);
      InitHolds(cfg, Queue());
    }

    method PushChunk(loc: Loc)
      modifies this`lruQueue, this`chunkToLru, this`nextNode
      ensures Queue() == PushTail(old(Queue()), loc)
    {
      lruQueue := lruQueue + [Link(nextNode, loc)];
      chunkToLru := chunkToLru[loc := Some(nextNode)];
      nextNode := nextNode + 1;
    }

    /** A chunk comes into use as the most recently used one. */
    method UseChunk(loc: Loc)
      requires Valid() && InPool(cfg, loc) && !InUse(zonePool[..], loc)
      requires !Queued(zonePool[..], heap.View(), loc.zone)
      modifies this, zonePool
      ensures Valid() && Queue() == PushTail(old(Queue()), loc) && uses == old(uses) + [Filled(loc)]
      ensures old(InPool(cfg, loc) && CountsOk(cfg, zonePool[..]))
      ensures zonePool[..] == SetUse(old(zonePool[..]), loc, true)
    {
      ghost var l, p := Queue(), zonePool[..];
      assert loc in chunkToLru;
      UseKeepsHolds(cfg, p, l, loc);
      OrderedAfterFill(l, uses, loc);
      UseKeepsPool(cfg, p, heap.View(), loc);
      uses := uses + [Filled(loc)];
      var zone := zonePool[loc.zone];
      zonePool[loc.zone] := zone.(chunks := zone.chunks[loc.chunk := true], chunksInUse := zone.chunksInUse + 1);
      PushChunk(loc);
      assert zonePool[..] == SetUse(p, loc, true);
    }

    /** A zone whose last chunk was written becomes a candidate for reclaiming. */
    method EnterHeap(z: nat)
      requires Valid() && z < cfg.numZones && !Queued(zonePool[..], heap.View(), z)
      modifies zonePool, heap, heap.arr, heap.members`index
      ensures Valid() && zonePool[z].entry != null
      ensures zonePool[..] == old(zonePool[..])[z := old(zonePool[z]).(filled := true, entry := zonePool[z].entry)]
      ensures fresh(zonePool[z].entry) && heap.View() == old(heap.View())[zonePool[z].entry := zonePool[z].chunksInUse]
      ensures heap.arr == old(heap.arr)
      ensures forall e :: e in heap.issued ==> e in old(heap.issued) || fresh(e)
    {
      ghost var p, view := zonePool[..], heap.View();
      HeapHasRoom(p, view, heap.elems, z);
      var e := heap.Insert(z, zonePool[z].chunksInUse);
      EntryKeepsPool(cfg, p, view, z, e);
      zonePool[z] := zonePool[z].(filled := true, entry := e);
    }

    /** Unlink the node of a chunk, if it has one, and append a new one carrying the same data. */
    method MoveToTail(loc: Loc)
      requires Lru.Inv(Queue())
      modifies this`lruQueue, this`chunkToLru, this`nextNode
      ensures old(TouchOk(Queue(), loc)) && Queue() == Touch(old(Queue()), loc)
    {
      ghost var before := Queue();
      TouchKeepsInv(before, loc);
      if loc in chunkToLru && chunkToLru[loc].Some? {
        var node := IndexOf(lruQueue, chunkToLru[loc].value);
        var at := lruQueue[node].key;
        lruQueue := lruQueue[..node] + lruQueue[node + 1..];
        ghost var i := TouchMoves(before, loc);
        assert at == loc by {
          assert before.queue[i].handle == before.queue[node].handle;
        }
        PushChunk(at);
      }
    }

    /** A chunk that was read moves to the tail of the queue if it is still there. */
    method TouchChunk(loc: Loc)
      requires Valid()
      modifies this
      ensures Valid() && old(TouchOk(Queue(), loc)) && State() == TouchedBy(old(State()), loc)
    {
      ghost var b := State();
      TouchKeepsHolds(zonePool[..], Queue(), uses, loc);
      uses := uses + [Touched(loc)];
      MoveToTail(loc);
      assert State() == TouchedBy(b, loc);
    }

    /** The policy's entry point. A write must be of a chunk that is not in use, in a zone that is
        not in the heap. */
    method Update(loc: Loc, io: Io)
      requires Valid() && InPool(cfg, loc)
      requires io.Write? ==> !InUse(zonePool[..], loc) && !Queued(zonePool[..], heap.View(), loc.zone)
      modifies this, zonePool, heap, heap.arr, heap.members`index
      ensures Valid()
      ensures io.Read? ==>
                && uses == old(uses) + [Touched(loc)]
                && old(TouchOk(Queue(), loc)) && Queue() == Touch(old(Queue()), loc)
                && zonePool[..] == old(zonePool[..]) && heap.View() == old(heap.View())
      ensures io.Write? ==> FilledBy(cfg, old(State()), State(), loc)
      ensures heap.arr == old(heap.arr)
      ensures forall e :: e in heap.issued ==> e in old(heap.issued) || fresh(e)
    {
      assert loc in chunkToLru;
      if io.Write? {
        FillChunk(loc);
      } else {
        TouchChunk(loc);
      }
    }

    /** A chunk was written. The last one of a zone enters the zone in the heap. */
    method FillChunk(loc: Loc)
      requires Valid() && InPool(cfg, loc)
      requires !InUse(zonePool[..], loc) && !Queued(zonePool[..], heap.View(), loc.zone)
      modifies this, zonePool, heap, heap.arr, heap.members`index
      ensures Valid() && FilledBy(cfg, old(State()), State(), loc) && heap.arr == old(heap.arr)
      ensures forall e :: e in heap.issued ==> e in old(heap.issued) || fresh(e)
    {
      ghost var b := State();
      UseKeepsPool(cfg, b.p, b.view, loc);
      UseChunk(loc);
      assert State() == b.(p := SetUse(b.p, loc, true), l := PushTail(b.l, loc), uses := b.uses + [Filled(loc)]);
      if loc.chunk == cfg.maxChunks - 1 {
        ghost var p1 := zonePool[..];
        EnterHeap(loc.zone);
        EntryKeepsPool(cfg, p1, b.view, loc.zone, zonePool[loc.zone].entry);
      }
    }

    /** Take the least recently used chunk out of the queue and out of use. */
    method PopChunk() returns (loc: Loc)
      requires QueueValid() && lruQueue != []
      modifies this, zonePool
      ensures QueueValid() && loc == old(lruQueue)[0].key && Queue() == PopHead(old(Queue()))
      ensures uses == old(uses) + [Popped(loc)]
      ensures old(InUse(zonePool[..], loc)) && old(zonePool[loc.zone].chunksInUse) > 0
      ensures zonePool[..] == SetUse(old(zonePool[..]), loc, false)
      ensures LastUse(old(uses), loc).Some?
      ensures forall at :: at != loc && LastUse(old(uses), at).Some? ==>
                LastUse(old(uses), loc).value < LastUse(old(uses), at).value
    {
      ghost var p, l := zonePool[..], Queue();
      loc := lruQueue[0].key;
      forall at | at != loc && LastUse(uses, at).Some?
        ensures LastUse(uses, loc).Some? && LastUse(uses, loc).value < LastUse(uses, at).value
      {
        HeadIsOldest(l, uses, at);
      }
      assert InQueue(l, loc);
      PopHeadKeepsInv(l);
      OrderedAfterPop(l, uses);
      SetUseCounts(cfg, p, loc, false);
      uses := uses + [Popped(loc)];
      lruQueue := lruQueue[1..];
      chunkToLru := chunkToLru[loc := None];
      var zone := zonePool[loc.zone];
      zonePool[loc.zone] := zone.(chunks := zone.chunks[loc.chunk := false], chunksInUse := zone.chunksInUse - 1);
    }

    /** Give up the least recently used chunk and lower its zone's priority, if the zone is in the
        heap. */
    method DropChunk() returns (loc: Loc)
      requires Valid() && lruQueue != []
      modifies this, zonePool, heap`elems, heap`prios, heap.arr, heap.issued
      ensures Valid() && loc == old(lruQueue)[0].key && Queue() == PopHead(old(Queue()))
      ensures uses == old(uses) + [Popped(loc)]
      ensures Dropped(old(zonePool[..]), old(heap.View()), zonePool[..], heap.View(), loc)
    {
      ghost var b := State();
      loc := PopChunk();
      EvictKeepsHeap(cfg, b.p, b.view, loc);
      LowerZone(loc.zone);
    }

    /** Tell the heap how many chunks of a zone are in use now, if the zone is in it. */
    method LowerZone(z: nat)
      requires QueueValid() && heap.Valid() && z < zonePool.Length && zonePool.Length <= heap.arr.Length
      requires forall y: nat :: y < zonePool.Length && zonePool[y].entry != null ==> zonePool[y].entry in heap.issued
      modifies heap`elems, heap`prios, heap.arr, heap.issued
      ensures QueueValid() && heap.Valid()
      ensures heap.View() == var e := zonePool[z].entry;
                             if e in old(heap.View()) then old(heap.View())[e := zonePool[z].chunksInUse]
                             else old(heap.View())
    {
      var _ := heap.UpdateByEntry(zonePool[z].entry, zonePool[z].chunksInUse);
    }

    /** Zones in the heap without a chunk in use. */
    ghost function DeadZones(): set<nat>
      reads zonePool, heap, heap.members
    {
      Dead(zonePool[..], heap.View())
    }

    /** Take a zone with fewest chunks in use off the heap, and look whether it has any. */
    method TakeVictim() returns (e: Handle?, dead: bool)
      requires Valid()
      modifies heap, heap.arr, heap.members`index
      ensures Valid()
      ensures heap.arr == old(heap.arr) && heap.issued == old(heap.issued) && heap.members <= old(heap.members)
      ensures e == null <==> old(heap.View()) == map[]
      ensures e != null ==> e in old(heap.View()) && heap.View() == old(heap.View()) - {e}
      ensures e != null ==> Fewest(zonePool[..], old(heap.View()), e.data) && zonePool[e.data].entry == e
      ensures e != null ==> (dead <==> zonePool[e.data].chunksInUse == 0)
      ensures e != null && dead <==> old(DeadZones()) != {}
      ensures e != null && dead ==> e.data in old(DeadZones()) && DeadZones() == old(DeadZones()) - {e.data}
    {
      ghost var p, view := zonePool[..], heap.View();
      e := heap.ExtractMin();
      dead := true;
      if e == null {
        assert Dead(p, view) == {};
        return null, false;
      }
      LeastIsFewest(p, view, e);
      for c: nat := 0 to cfg.maxChunks
        invariant forall d: nat :: d < c ==> !p[e.data].chunks[d]
      {
        if zonePool[e.data].chunks[c] {
          assert c in Live(p, e.data);
          dead := false;
          break;
        }
      }
      if dead {
        assert Live(p, e.data) == {};
        OneDeadLess(p, view, e);
      }
    }

    /** The cached bytes as the policy counts them: chunks in use. */
    method CacheSize(chunkSize: nat) returns (size: nat)
      requires Valid()
      ensures size == InUseBelow(zonePool[..], cfg.numZones) * chunkSize
    {
      QueueCounts(cfg, zonePool[..], Queue());
      size := |lruQueue| * chunkSize;
    }
  }

  /** Every chunk of every zone is set up out of use, with an entry in the table and no node. */
  method SetUpPool(cfg: Config, pool: array<PoolZone>) returns (table: map<Loc, Option<nat>>)
    requires pool.Length == cfg.numZones
    modifies pool
    ensures pool[..] == ChunkPool.Init(cfg)
    ensures forall loc :: loc in table <==> InPool(cfg, loc)
    ensures forall loc :: loc in table ==> table[loc] == None
  {
    table := map[];
    for z: nat := 0 to cfg.numZones
      invariant forall y: nat :: y < z ==> pool[y] == ChunkPool.Init(cfg)[y]
      invariant forall loc :: loc in table <==> loc.zone < z && loc.chunk < cfg.maxChunks
      invariant forall loc :: loc in table ==> table[loc] == None
    {
      pool[z] := PoolZone([], 0, false, null);
      for c: nat := 0 to cfg.maxChunks
        invariant forall y: nat :: y < z ==> pool[y] == ChunkPool.Init(cfg)[y]
        invariant pool[z] == PoolZone(seq(c, _ => false), 0, false, null)
        invariant forall loc :: loc in table <==>
                    loc.chunk < cfg.maxChunks && (loc.zone < z || (loc.zone == z && loc.chunk < c))
        invariant forall loc :: loc in table ==> table[loc] == None
      {
        pool[z] := pool[z].(chunks := pool[z].chunks + [false]);
        assert pool[z].chunks == seq(c + 1, _ => false);
        table := table[Loc(z, c) := None];
      }
    }
  }
}
