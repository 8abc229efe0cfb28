/** The cache map and the zone states while one request runs at a time, whatever the policy. */
module SingleRequest {
  import opened ZnTypes
  import opened ZoneState
  import opened CacheMap

  ghost predicate NoReaders(m: CMap) {
    forall z: nat :: z < |m.readers| ==> m.readers[z] == 0
  }

  /** No condition variable, no reader, nothing pending. */
  ghost predicate Settled(m: CMap) {
    NoReaders(m) && m.conds == map[] && forall k :: k in m.zoneMap ==> m.zoneMap[k].Located?
  }

  /** No write is under way. */
  ghost predicate Resting(s: Zsm, m: CMap) {
    s.writes == 0 && Settled(m)
  }

  /** The one request there is fills the entry of `id`. */
  ghost predicate Filling(m: CMap, id: Id) {
    && NoReaders(m)
    && id in m.zoneMap && m.zoneMap[id].Pending?
    && (exists v :: m.conds == map[m.zoneMap[id].cond := v] && v.refs == 1)
    && (forall k :: k in m.zoneMap && k != id ==> m.zoneMap[k].Located?)
  }

  /** Every entry but that of `id` stays. */
  ghost predicate RestKept(m: CMap, m': CMap, id: Id) {
    forall k: Id :: k != id ==>
      && (k in m'.zoneMap <==> k in m.zoneMap)
      && (k in m'.zoneMap ==> m'.zoneMap[k] == m.zoneMap[k])
  }

  /** No chunk can be handed out. */
  predicate NoRoom(s: Zsm) {
    s.active == [] && s.free == []
  }

  /** At rest the allocator never asks to retry, and it asks for an eviction exactly when no zone is
      active or free. */
  lemma AllocateAtRest(cfg: Config, s: Zsm, openOk: bool)
    requires cfg.Valid() && ZoneState.Inv(cfg, s) && s.writes == 0
    ensures GetActiveOk(cfg, s) && !GetActive(cfg, s, openOk).1.Retry?
    ensures GetActive(cfg, s, openOk).1.Evict? <==> NoRoom(s)
    ensures GetActive(cfg, s, openOk).1.Error? ==> !cfg.DeviceOk(openOk)
  {
    GetActiveInv(cfg, s, openOk);
  }

  /** The zone states after the given zones were freed in this order. */
  ghost function Freed(s: Zsm, victims: seq<nat>): Zsm {
    s.(zones := seq(|s.zones|, z requires 0 <= z < |s.zones| => if z in victims then Zone(Free, 0) else s.zones[z]),
       free := s.free + victims)
  }

  lemma FreedNone(s: Zsm)
    ensures Freed(s, []) == s
  {
    assert Freed(s, []).zones == s.zones;
  }

  lemma FreedOneMore(cfg: Config, s: Zsm, victims: seq<nat>, z: nat)
    requires HasCond(Freed(s, victims), z, Full)
    ensures EvictZone(cfg, Freed(s, victims), z) == Freed(s, victims + [z])
  {
    assert EvictZone(cfg, Freed(s, victims), z).zones == Freed(s, victims + [z]).zones;
  }

  /** The allocator hands out the place, or fails to open a zone if there is none. */
  ghost predicate Obtains(cfg: Config, s: Zsm, openOk: bool, s': Zsm, place: Option<Loc>) {
    GetActiveOk(cfg, s) &&
    GetActive(cfg, s, openOk) == (s', if place.Some? then Success(place.value) else Error)
  }

  /** The place, if there is one, was handed back with its chunk written or not. */
  ghost predicate HandedBack(cfg: Config, s: Zsm, place: Option<Loc>, written: bool, closeOk: bool, s': Zsm) {
    if place.None? then s' == s
    else FailedOk(cfg, s, place.value) &&
         s' == if written then ReturnActive(cfg, s, place.value, closeOk) else FailedToWrite(cfg, s, place.value)
  }

  /** What an answered miss does to the zone states once it has made room. */
  ghost predicate MissEnds(cfg: Config, s: Zsm, openOk: bool, place: Option<Loc>, written: bool, closeOk: bool,
                           s': Zsm) {
    GetActiveOk(cfg, s) &&
    var taken := GetActive(cfg, s, openOk).0;
    Obtains(cfg, s, openOk, taken, place) && HandedBack(cfg, taken, place, written, closeOk, s')
  }

  /** A lookup at rest hits what is located, and otherwise makes the caller fill the entry. */
  lemma LookupSettles(m: CMap, t: Tid, id: Id)
    requires Settled(m) && Mirror(m) && KeysOk(m) && |m.readers| == |m.dataMap|
    ensures LookupOk(m, id)
    ensures var (m', found) := Lookup(m, t, id);
            && Mirror(m') && KeysOk(m') && m'.dataMap == m.dataMap && RestKept(m, m', id)
            && (id in m.zoneMap ==>
                  && found == Hit(m.zoneMap[id].loc) && m'.zoneMap == m.zoneMap
                  && m.zoneMap[id].loc.zone < |m.readers| && DropReader(m', m.zoneMap[id].loc.zone) == m)
            && (id !in m.zoneMap ==> found.Fill? && Filling(m', id))
  {
    if id in m.zoneMap {
      assert IsLocated(m, id, m.zoneMap[id].loc);
      assert Indexed(m, m.zoneMap[id].loc, id);
    }
    LookupKeepsIndex(m, t, id);
  }

  lemma InsertSettles(m: CMap, id: Id, loc: Loc)
    requires Filling(m, id) && loc.zone < |m.dataMap|
    ensures InsertOk(m, id, loc) && Settled(Insert(m, id, loc)) && IsLocated(Insert(m, id, loc), id, loc)
    ensures RestKept(m, Insert(m, id, loc), id)
  {
  }

  /** Giving the fill up takes the entry away and nothing else. */
  lemma FailSettles(m: CMap, id: Id)
    requires Filling(m, id) && Mirror(m)
    ensures FailOk(m, id) && Settled(Fail(m, id)) && id !in Fail(m, id).zoneMap
    ensures RestKept(m, Fail(m, id), id) && Mirror(Fail(m, id))
  {
    FailKeepsIndex(m, id);
  }
}
