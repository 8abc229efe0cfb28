/** Requests from an empty cache under the promotional policy that end badly: one that is never
    answered because every zone was lost, and one whose write starts beside the write pointer. */
module PromotionalRuns {
  import opened ZnTypes
  import opened Lru
  import opened ZoneState
  import opened CacheMap
  import opened SingleRequest
  import opened Disk
  import opened Coherence
  import Cache

  // ---------- Losing every zone ----------

  /** Nothing was ever stored, and all but `free` zones are in no place. */
  ghost predicate Losing(b: Stage, free: nat) {
    && b.s.active == [] && b.s.writes == 0 && |b.s.free| == free && b.l.queue == [] && b.m.zoneMap == map[]
  }

  /** A zone that the device does not open is lost. */
  lemma OneZoneLost(cfg: Config, g: Geometry, id: Id, b: Stage, c: Stage, free: nat, victims: seq<nat>,
                    place: Option<Loc>, written: bool, reached: nat, closeOk: bool)
    requires cfg.Valid() && cfg.backend.Zns? && g.Valid() && Losing(b, free) && free > 0 && victims == []
    requires Missed(cfg, g, id, b, victims, false, place, written, reached, closeOk, c) && KeysOk(c.m)
    ensures Losing(c, free - 1)
  {
    FreedNone(b.s);
    assert Keys(c.l) == [] && |Keys(c.l)| == |c.l.queue|;
    assert forall k: Id :: k !in c.m.zoneMap;
    assert c.m.zoneMap == map[];
  }

  /** A miss whose zone the device does not open. */
  method LoseZone(c: Cache.PromotionalCache, buffer: Data, ghost free: nat) returns (answer: Cache.Answer)
    requires c.Valid() && c.AtRest() && |buffer| == c.geo.chunkSize && c.cfg.backend.Zns?
    requires Losing(c.Now(), free) && free > 0
    modifies c`lastGen, c`pointers, c`sequential, c.zsm`free, c.zsm`active, c.zsm`writesOccurring, c.zsm.state
    modifies c.entries, c.entries.dataMap, c.entries.activeReaders, c.policy, c.disk
    ensures c.Valid() && c.AtRest() && Losing(c.Now(), free - 1)
  {
    ghost var b := c.Now();
    ghost var victims, place, turns;
    answer, victims, place, turns := c.Get(0, buffer, false, true, None, true, _ => true);
    OneZoneLost(c.cfg, c.geo, 0, b, c.Now(), free, victims, place, answer.Bytes?, c.Reached(None), true);
  }

  /** After as many failing opens as there are zones, the next miss is never answered. */
  method LoseEveryZone(cfg: Config, geo: Geometry, disk: array<byte>, buffer: Data) returns (answer: Cache.Answer)
    requires SameShape(cfg, geo) && disk.Length == geo.zoneSize * geo.numZones && cfg.backend.Zns?
    requires |buffer| == geo.chunkSize
    modifies disk
    ensures answer.Starved?
  {
    var c := new Cache.PromotionalCache(cfg, geo, disk);
    for i: nat := 0 to cfg.numZones
      invariant c.Valid() && c.AtRest() && Losing(c.Now(), cfg.numZones - i)
    {
      answer := LoseZone(c, buffer, cfg.numZones - i);
    }
    ghost var victims, place, turns;
    answer, victims, place, turns := c.Get(0, buffer, true, true, None, true, _ => true);
  }

  // ---------- Writing part of a chunk ----------

  /** Identifier 0 failed to be written: its zone is active at its first chunk, part of which is on
      the disk. */
  ghost predicate PartWritten(b: Stage) {
    && b.s.active == [0] && b.s.writes == 0 && |b.s.zones| > 0 && b.s.zones[0] == Zone(Active, 0)
    && |b.pointers| == |b.s.zones| && b.pointers[0] > 0 && 0 !in b.m.zoneMap
  }

  lemma PartIsWritten(cfg: Config, g: Geometry, b: Stage, c: Stage, place: Option<Loc>, reached: nat)
    requires cfg.Valid() && g.Valid() && reached > 0
    requires b.s == ZoneState.Init(cfg) && |b.pointers| == cfg.numZones
    requires Missed(cfg, g, 0, b, [], true, place, false, reached, true, c)
    ensures PartWritten(c)
  {
    FreedNone(b.s);
    assert b.s.free[0] == 0;
  }

  lemma StartsElsewhere(cfg: Config, g: Geometry, b: Stage, c: Stage, place: Option<Loc>, written: bool, reached: nat)
    requires cfg.Valid() && g.Valid() && PartWritten(b)
    requires Missed(cfg, g, 0, b, [], true, place, written, reached, true, c)
    ensures place == Some(Loc(0, 0)) && !c.sequential
  {
    FreedNone(b.s);
    assert Rewound(b.pointers, [])[0] == b.pointers[0];
  }

  /** The first block of identifier 0 reaches the disk, and the write fails. */
  method WriteFirst(c: Cache.PromotionalCache, buffer: Data) returns (answer: Cache.Answer)
    requires c.Valid() && c.AtRest() && |buffer| == c.geo.chunkSize && c.zsm.Abs() == ZoneState.Init(c.cfg)
    requires c.entries.zoneMap == map[] && |c.pointers| == c.cfg.numZones
    modifies c`lastGen, c`pointers, c`sequential, c.zsm`free, c.zsm`active, c.zsm`writesOccurring, c.zsm.state
    modifies c.entries, c.entries.dataMap, c.entries.activeReaders, c.policy, c.disk
    ensures c.Valid() && c.AtRest() && PartWritten(c.Now()) && answer.NoBytes?
  {
    ghost var b := c.Now();
    ghost var victims, place, turns;
    answer, victims, place, turns := c.Get(0, buffer, true, true, Some(Failure(0, true)), true, _ => true);
    PartIsWritten(c.cfg, c.geo, b, c.Now(), place, c.Reached(Some(Failure(0, true))));
  }

  /** The chunk is written again. */
  method WriteSecond(c: Cache.PromotionalCache, buffer: Data) returns (answer: Cache.Answer)
    requires c.Valid() && c.AtRest() && |buffer| == c.geo.chunkSize && PartWritten(c.Now())
    modifies c`lastGen, c`pointers, c`sequential, c.zsm`free, c.zsm`active, c.zsm`writesOccurring, c.zsm.state
    modifies c.entries, c.entries.dataMap, c.entries.activeReaders, c.policy, c.disk
    ensures answer.Bytes? && !c.sequential
  {
    ghost var b := c.Now();
    ghost var victims, place, turns;
    answer, victims, place, turns := c.Get(0, buffer, true, true, None, true, _ => true);
    StartsElsewhere(c.cfg, c.geo, b, c.Now(), place, answer.Bytes?, c.Reached(None));
  }

  /** A write fails after its first block reached the disk. The next request of the identifier writes
      the chunk again from its start, which is no longer where the device expects a write. */
  method WriteTwice(cfg: Config, geo: Geometry, disk: array<byte>, buffer: Data)
    returns (first: Cache.Answer, second: Cache.Answer, c: Cache.PromotionalCache)
    requires SameShape(cfg, geo) && disk.Length == geo.zoneSize * geo.numZones && |buffer| == geo.chunkSize
    modifies disk
    ensures first.NoBytes? && second.Bytes? && !c.sequential
  {
    c := new Cache.PromotionalCache(cfg, geo, disk);
    first := WriteFirst(c, buffer);
    second := WriteSecond(c, buffer);
  }
}
