/** How the chunk policy's pool, queue and heap agree with the zone states and the cache map. */
module ChunkAgreement {
  import opened ZnTypes
  import opened Lru
  import opened MinHeap
  import opened ChunkPool
  import opened ZoneState
  import opened CacheMap
  import opened SingleRequest

  /** Mapped chunks are exactly those in use, all of them written, and the zones in the heap are
      exactly those all of whose chunks are written. */
  ghost predicate Joined(cfg: Config, s: Zsm, m: CMap, p: Pool, view: map<Handle, nat>) {
    && ZoneState.Inv(cfg, s) && |m.dataMap| == |m.readers| == |s.zones| == |p|
    && Mirror(m) && KeysOk(m)
    && (forall z: nat, c: nat :: z < |p| ==> (c in m.dataMap[z] <==> InUse(p, Loc(z, c))))
    && (forall z: nat, c: nat :: z < |p| && InUse(p, Loc(z, c)) ==> c < Written(cfg, s, z))
    && (forall z: nat :: Sealed(cfg, s, z) <==> Queued(p, view, z))
  }

  lemma InitJoined(cfg: Config)
    ensures Joined(cfg, ZoneState.Init(cfg), CacheMap.Init(cfg.numZones), ChunkPool.Init(cfg), map[])
  {
    InitInv(cfg);
  }

  /** Identifiers in the map and chunks in use correspond one to one. */
  lemma Bijection(cfg: Config, s: Zsm, m: CMap, p: Pool, view: map<Handle, nat>)
    requires Joined(cfg, s, m, p, view)
    ensures forall id: Id, loc :: IsLocated(m, id, loc) ==> InUse(p, loc)
    ensures forall loc :: InUse(p, loc) ==> exists id: Id :: IsLocated(m, id, loc)
    ensures forall a: Id, b: Id, loc :: IsLocated(m, a, loc) && IsLocated(m, b, loc) ==> a == b
  {
    forall id: Id, loc | IsLocated(m, id, loc)
      ensures Indexed(m, loc, id) && InUse(p, loc)
    {
      assert Indexed(m, loc, id);
      assert InUse(p, Loc(loc.zone, loc.chunk));
    }
    forall loc | InUse(p, loc)
      ensures exists id: Id :: IsLocated(m, id, loc)
    {
      assert InUse(p, Loc(loc.zone, loc.chunk));
      assert Indexed(m, loc, m.dataMap[loc.zone][loc.chunk]);
      assert IsLocated(m, m.dataMap[loc.zone][loc.chunk], loc);
    }
  }

  // ---------- Looking up, allocating, giving back ----------

  /** Only the pending entries, condition variables and reader counts changed. */
  lemma MapJoins(cfg: Config, s: Zsm, m: CMap, p: Pool, view: map<Handle, nat>, m': CMap)
    requires Joined(cfg, s, m, p, view)
    requires m'.dataMap == m.dataMap && |m'.readers| == |m.readers| && KeysOk(m')
    requires forall id: Id, loc :: IsLocated(m', id, loc) <==> IsLocated(m, id, loc)
    ensures Joined(cfg, s, m', p, view)
  {
    forall id: Id, loc
      ensures Indexed(m', loc, id) <==> Indexed(m, loc, id)
    {
    }
  }

  /** A lookup keeps everything together, whether it hits, waits or starts a fill. */
  lemma LookupJoins(cfg: Config, s: Zsm, m: CMap, p: Pool, view: map<Handle, nat>, t: Tid, id: Id)
    requires Joined(cfg, s, m, p, view) && (IsPending(m, id) ==> m.zoneMap[id].cond in m.conds)
    ensures LookupOk(m, id) && Joined(cfg, s, Lookup(m, t, id).0, p, view)
    ensures Lookup(m, t, id).1.Hit? ==> InUse(p, Lookup(m, t, id).1.loc) && InPool(cfg, Lookup(m, t, id).1.loc)
  {
    if id in m.zoneMap && m.zoneMap[id].Located? {
      var loc := m.zoneMap[id].loc;
      assert IsLocated(m, id, loc);
      assert Indexed(m, loc, id);
      assert InUse(p, Loc(loc.zone, loc.chunk));
      assert Written(cfg, s, loc.zone) <= cfg.maxChunks by {
        assert OffsetOk(cfg, s.zones[loc.zone]);
      }
    }
    MapJoins(cfg, s, m, p, view, Lookup(m, t, id).0);
  }

  lemma FailJoins(cfg: Config, s: Zsm, m: CMap, p: Pool, view: map<Handle, nat>, id: Id)
    requires Joined(cfg, s, m, p, view) && FailOk(m, id)
    ensures Joined(cfg, s, Fail(m, id), p, view)
  {
    MapJoins(cfg, s, m, p, view, Fail(m, id));
  }

  lemma DropReaderJoins(cfg: Config, s: Zsm, m: CMap, p: Pool, view: map<Handle, nat>, z: nat)
    requires Joined(cfg, s, m, p, view) && z < |m.readers|
    ensures Joined(cfg, s, DropReader(m, z), p, view)
  {
    MapJoins(cfg, s, m, p, view, DropReader(m, z));
  }

  /** The allocator keeps everything together, and hands out a chunk that is not in use, in a zone
      that is not in the heap. */
  lemma AllocationJoins(cfg: Config, s: Zsm, m: CMap, p: Pool, view: map<Handle, nat>, openOk: bool)
    requires cfg.Valid() && Joined(cfg, s, m, p, view)
    ensures GetActiveOk(cfg, s)
    ensures var (s', r) := GetActive(cfg, s, openOk);
            && Joined(cfg, s', m, p, view)
            && (r.Success? ==>
                  && InPool(cfg, r.loc) && s'.zones[r.loc.zone] == Zone(WriteOccurring, r.loc.chunk)
                  && !InUse(p, r.loc) && !Queued(p, view, r.loc.zone))
  {
    GetActiveInv(cfg, s, openOk);
    var (s', r) := GetActive(cfg, s, openOk);
    ZonesKept(cfg, s, openOk);
    if r.Success? {
      BeingFilled(cfg, s', m, p, view, r.loc);
    }
  }

  /** Handing out a chunk changes neither how much is written nor which zones are sealed. */
  lemma ZonesKept(cfg: Config, s: Zsm, openOk: bool)
    requires cfg.Valid() && ZoneState.Inv(cfg, s)
    ensures GetActiveOk(cfg, s)
    ensures var (s', r) := GetActive(cfg, s, openOk);
            && |s'.zones| == |s.zones|
            && (forall z: nat :: z < |s.zones| ==> Written(cfg, s', z) == Written(cfg, s, z))
            && (forall z: nat :: Sealed(cfg, s', z) <==> Sealed(cfg, s, z))
            && (r.Success? ==>
                  && InPool(cfg, r.loc) && s'.zones[r.loc.zone] == Zone(WriteOccurring, r.loc.chunk))
  {
    GetActiveInv(cfg, s, openOk);
    assert s.active != [] ==> s.active[0] in s.active;
    assert s.free != [] ==> s.free[0] in s.free;
    forall z: nat | z < |s.zones|
      ensures OffsetOk(cfg, s.zones[z])
    {
    }
  }

  /** Undoing an allocation keeps everything together. */
  lemma UndoJoins(cfg: Config, s: Zsm, m: CMap, p: Pool, view: map<Handle, nat>, loc: Loc)
    requires Joined(cfg, s, m, p, view) && InPool(cfg, loc)
    requires s.zones[loc.zone] == Zone(WriteOccurring, loc.chunk)
    ensures FailedOk(cfg, s, loc) && Joined(cfg, FailedToWrite(cfg, s, loc), m, p, view)
  {
    FailedToWriteInv(cfg, s, loc);
    var s' := FailedToWrite(cfg, s, loc);
    forall z: nat | z < |s.zones|
      ensures Written(cfg, s', z) == Written(cfg, s, z)
    {
    }
  }

  // ---------- Evicting a chunk ----------

  /** The chunk is indexed, under an identifier that survives the trip through an `int`. */
  predicate SmallAt(m: CMap, loc: Loc) {
    loc.zone < |m.dataMap| && loc.chunk in m.dataMap[loc.zone] && m.dataMap[loc.zone][loc.chunk] < HALF_WORD
  }

  /** Taking a chunk in use out of the map passes its assertions exactly for small identifiers. */
  lemma ClearChunkExactly(cfg: Config, s: Zsm, m: CMap, p: Pool, view: map<Handle, nat>, loc: Loc)
    requires Joined(cfg, s, m, p, view) && InUse(p, loc)
    ensures ClearChunkOk(m, loc) <==> SmallAt(m, loc)
  {
    assert InUse(p, Loc(loc.zone, loc.chunk));
    var id := m.dataMap[loc.zone][loc.chunk];
    assert Indexed(m, loc, id);
    KeySurvivesClearing(m, loc, id);
  }

  /** The heap after the counter of a chunk's zone went down. */
  ghost function Lowered(p: Pool, view: map<Handle, nat>, loc: Loc): map<Handle, nat>
    requires loc.zone < |p| && p[loc.zone].chunksInUse > 0
  {
    if Queued(p, view, loc.zone) then view[p[loc.zone].entry := p[loc.zone].chunksInUse - 1] else view
  }

  /** A chunk went out of use, and its zone's priority in the heap went down with its counter. */
  ghost predicate Dropped(p: Pool, view: map<Handle, nat>, p': Pool, view': map<Handle, nat>, loc: Loc) {
    && InUse(p, loc) && p[loc.zone].chunksInUse > 0
    && p' == SetUse(p, loc, false) && view' == Lowered(p, view, loc)
  }

  /** A chunk's identifier went out of the map. */
  ghost predicate Cleared(m: CMap, m': CMap, loc: Loc) {
    ClearChunkOk(m, loc) && m' == ClearChunk(m, loc)
  }

  lemma EvictKeepsHeap(cfg: Config, p: Pool, view: map<Handle, nat>, loc: Loc)
    requires CountsOk(cfg, p) && HeapOk(p, view) && InUse(p, loc)
    ensures p[loc.zone].chunksInUse > 0
    ensures HeapOk(SetUse(p, loc, false), Lowered(p, view, loc))
    ensures forall z: nat :: Queued(SetUse(p, loc, false), Lowered(p, view, loc), z) <==> Queued(p, view, z)
  {
    LiveNotEmpty(cfg, p, loc);
  }

  /** Taking a chunk out of use, out of the map, and down in the heap keeps all of them together. */
  lemma EvictChunkKeeps(cfg: Config, s: Zsm, m: CMap, p: Pool, view: map<Handle, nat>, loc: Loc,
                        p': Pool, view': map<Handle, nat>)
    requires CountsOk(cfg, p) && HeapOk(p, view) && Joined(cfg, s, m, p, view) && Dropped(p, view, p', view', loc)
    ensures ClearChunkOk(m, loc) <==> SmallAt(m, loc)
    ensures SmallAt(m, loc) ==> Joined(cfg, s, ClearChunk(m, loc), p', view')
  {
    ClearChunkExactly(cfg, s, m, p, view, loc);
    if !SmallAt(m, loc) {
      return;
    }
    ClearChunkRemoves(m, loc);
    SetUseCounts(cfg, p, loc, false);
    EvictKeepsHeap(cfg, p, view, loc);
    var m' := ClearChunk(m, loc);
    forall z: nat, c: nat | z < |p'|
      ensures c in m'.dataMap[z] <==> InUse(p', Loc(z, c))
      ensures InUse(p', Loc(z, c)) ==> c < Written(cfg, s, z)
    {
      assert c in m.dataMap[z] <==> InUse(p, Loc(z, c));
    }
  }

  // ---------- Filling a chunk ----------

  /** A chunk of a zone that is not in the heap comes into use. */
  lemma UseKeepsPool(cfg: Config, p: Pool, view: map<Handle, nat>, loc: Loc)
    requires CountsOk(cfg, p) && HeapOk(p, view) && InPool(cfg, loc) && !InUse(p, loc)
    requires !Queued(p, view, loc.zone)
    ensures var p' := SetUse(p, loc, true);
            && CountsOk(cfg, p') && HeapOk(p', view)
            && (forall at :: InUse(p', at) <==> InUse(p, at) || at == loc)
            && (forall z: nat :: Queued(p', view, z) <==> Queued(p, view, z))
  {
    SetUseCounts(cfg, p, loc, true);
    forall f | f in view
      ensures f.data != loc.zone
    {
    }
  }

  /** A filled zone enters the heap with its counter. */
  lemma EntryKeepsPool(cfg: Config, p: Pool, view: map<Handle, nat>, z: nat, e: Handle)
    requires CountsOk(cfg, p) && HeapOk(p, view) && z < |p| && !Queued(p, view, z)
    requires e.data == z && e !in view
    ensures var p', view' := p[z := p[z].(filled := true, entry := e)], view[e := p[z].chunksInUse];
            && CountsOk(cfg, p') && HeapOk(p', view')
            && (forall at :: InUse(p', at) <==> InUse(p, at))
            && (forall y: nat :: Queued(p', view', y) <==> Queued(p, view, y) || y == z)
  {
    var p' := p[z := p[z].(filled := true, entry := e)];
    forall y: nat | y < |p'|
      ensures Live(p', y) == Live(p, y)
    {
    }
    forall f | f in view
      ensures f.data != z
    {
    }
  }

  /** Publishing a chunk that came into use keeps the index exactly the chunks in use. */
  lemma FillIndexes(cfg: Config, s: Zsm, m: CMap, p: Pool, view: map<Handle, nat>, id: Id, loc: Loc, closeOk: bool,
                    p': Pool)
    requires Joined(cfg, s, m, p, view) && InPool(cfg, loc) && HandBackOk(cfg, s, loc) && InsertOk(m, id, loc)
    requires |p'| == |p| && forall at :: InUse(p', at) <==> InUse(p, at) || at == loc
    ensures Mirror(Insert(m, id, loc))
    ensures forall z: nat, c: nat :: z < |p'| ==> (c in Insert(m, id, loc).dataMap[z] <==> InUse(p', Loc(z, c)))
    ensures forall z: nat, c: nat :: z < |p'| && InUse(p', Loc(z, c)) ==>
              c < Written(cfg, ReturnActive(cfg, s, loc, closeOk), z)
  {
    assert Written(cfg, s, loc.zone) == loc.chunk;
    assert !InUse(p, Loc(loc.zone, loc.chunk));
    InsertKeepsMirror(m, id, loc);
    var s', m' := ReturnActive(cfg, s, loc, closeOk), Insert(m, id, loc);
    forall z: nat, c: nat | z < |p'|
      ensures c in m'.dataMap[z] <==> InUse(p', Loc(z, c))
      ensures InUse(p', Loc(z, c)) ==> c < Written(cfg, s', z)
    {
      assert c in m.dataMap[z] <==> InUse(p, Loc(z, c));
    }
  }

  /** The tail of a miss under the chunk policy. */
  lemma FillKeeps(cfg: Config, s: Zsm, m: CMap, q: PolicyState, id: Id, loc: Loc, closeOk: bool, q': PolicyState)
    requires Joined(cfg, s, m, q.p, q.view) && InPool(cfg, loc)
    requires s.zones[loc.zone] == Zone(WriteOccurring, loc.chunk) && InsertOk(m, id, loc)
    requires FilledBy(cfg, q, q', loc)
    ensures HandBackOk(cfg, s, loc)
    ensures Joined(cfg, ReturnActive(cfg, s, loc, closeOk), Insert(m, id, loc), q'.p, q'.view)
  {
    ReturnActiveInv(cfg, s, loc, closeOk);
    FillIndexes(cfg, s, m, q.p, q.view, id, loc, closeOk, q'.p);
    var s' := ReturnActive(cfg, s, loc, closeOk);
    forall z: nat
      ensures Sealed(cfg, s', z) <==> Queued(q'.p, q'.view, z)
    {
      assert Sealed(cfg, s, z) <==> Queued(q.p, q.view, z);
    }
  }

  /** A zone being written has no chunk at the write position in use and is not in the heap. */
  lemma BeingFilled(cfg: Config, s: Zsm, m: CMap, p: Pool, view: map<Handle, nat>, loc: Loc)
    requires Joined(cfg, s, m, p, view) && loc.zone < |s.zones| && loc.chunk < cfg.maxChunks
    requires s.zones[loc.zone] == Zone(WriteOccurring, loc.chunk)
    ensures !InUse(p, loc) && !Queued(p, view, loc.zone)
  {
    assert Written(cfg, s, loc.zone) == loc.chunk;
    assert !InUse(p, Loc(loc.zone, loc.chunk));
    assert Queued(p, view, loc.zone) ==> Sealed(cfg, s, loc.zone);
  }

  // ---------- Reclaiming a dead zone ----------

  /** Nothing is mapped into a zone whose counter is zero, so clearing it changes nothing. */
  lemma DeadIsUnmapped(cfg: Config, s: Zsm, m: CMap, p: Pool, view: map<Handle, nat>, z: nat)
    requires CountsOk(cfg, p) && Joined(cfg, s, m, p, view) && z < |p| && p[z].chunksInUse == 0
    ensures m.dataMap[z] == map[] && ClearZoneOk(m, z) && ClearZone(m, z) == m
    ensures forall id: Id, loc :: IsLocated(m, id, loc) ==> loc.zone != z
    ensures forall c: nat :: !InUse(p, Loc(z, c))
  {
    assert Live(p, z) == {};
    forall c: nat
      ensures !InUse(p, Loc(z, c)) && c !in m.dataMap[z]
    {
      assert c in Live(p, z) <==> InUse(p, Loc(z, c));
      assert c in m.dataMap[z] <==> InUse(p, Loc(z, c));
    }
    assert m.dataMap[z] == map[];
    assert m.dataMap[z := map[]] == m.dataMap;
    ClearedKeys(m, z);
    assert KeysOf(m.dataMap[z], m.dataMap[z].Keys) == {};
    forall id: Id, loc | IsLocated(m, id, loc)
      ensures loc.zone != z
    {
      assert Indexed(m, loc, id);
    }
  }

  lemma NothingInDead(cfg: Config, s: Zsm, m: CMap, p: Pool, view: map<Handle, nat>)
    requires CountsOk(cfg, p) && Joined(cfg, s, m, p, view)
    ensures forall id: Id, loc :: IsLocated(m, id, loc) ==> loc.zone !in Dead(p, view)
  {
    forall id: Id, loc | IsLocated(m, id, loc)
      ensures loc.zone !in Dead(p, view)
    {
      if loc.zone in Dead(p, view) {
        DeadIsUnmapped(cfg, s, m, p, view, loc.zone);
        assert false;
      }
    }
  }

  /** Resetting a dead zone taken off the heap keeps everything together. */
  lemma ReclaimKeeps(cfg: Config, s: Zsm, m: CMap, p: Pool, view: map<Handle, nat>, e: Handle)
    requires CountsOk(cfg, p) && HeapOk(p, view) && Joined(cfg, s, m, p, view)
    requires e in view && p[e.data].chunksInUse == 0 && HasCond(s, e.data, Full)
    ensures HeapOk(p, view - {e}) && Joined(cfg, EvictZone(cfg, s, e.data), m, p, view - {e})
  {
    var z := e.data;
    assert Queued(p, view, z);
    DeadIsUnmapped(cfg, s, m, p, view, z);
    EvictZoneInv(cfg, s, z);
    var s', view' := EvictZone(cfg, s, z), view - {e};
    forall y: nat
      ensures Queued(p, view', y) <==> Queued(p, view, y) && y != z
      ensures Sealed(cfg, s', y) <==> Sealed(cfg, s, y) && y != z
    {
      assert Sealed(cfg, s, y) <==> Queued(p, view, y);
    }
    forall y: nat, c: nat | y < |p| && InUse(p, Loc(y, c))
      ensures c < Written(cfg, s', y)
    {
    }
  }
}
