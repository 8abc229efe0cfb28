/** The cache map: where an identifier's data lives, or which condition variable to sleep on while
    some thread writes it; the reverse index of each zone; and the reader count of each zone. Each
    function is what one critical section under the map's lock does. */
module CacheMap {
  import opened ZnTypes

  datatype Entry = Pending(cond: nat) | Located(loc: Loc)

  /** A reference-counted condition variable. `asleep` are the threads it has still to wake;
      `id` and `owner` record for whose fill it was made and are never read by the map. */
  datatype Cond = Cond(refs: int, asleep: set<Tid>, id: Id, owner: Tid)

  /** Keys of `zoneMap` are pointers made from integers. Condition variables that were freed are
      no longer in `conds`, and `nextCond` is above every one ever made. */
  datatype CMap = CMap(zoneMap: map<int, Entry>, dataMap: seq<map<nat, Id>>, readers: seq<int>,
                       conds: map<nat, Cond>, nextCond: nat)

  datatype Found = Hit(loc: Loc) | Wait(cond: nat) | Fill

  function Init(numZones: nat): CMap {
    CMap(map[], seq(numZones, _ => map[]), seq(numZones, _ => 0), map[], 0)
  }

  /** The pointer for an identifier that went through an `int` on the way, as it does in the two
      clearing operations: an upper-half identifier comes back sign-extended. */
  function SignedKey(id: Id): int {
    if id < HALF_WORD then id else id - WORD
  }

  /** That is the one signed 32-bit number congruent to the identifier. */
  lemma SignedKeyWraps(id: Id, key: int)
    ensures key == SignedKey(id) <==> -0x8000_0000 <= key < 0x8000_0000 && (key - id) % 0x1_0000_0000 == 0
  {
  }

  /** No use of a freed condition variable, and a reader count for the zone exists. */
  predicate LookupOk(m: CMap, id: Id) {
    id in m.zoneMap ==>
      match m.zoneMap[id]
      case Pending(c) => c in m.conds
      case Located(loc) => loc.zone < |m.readers|
  }

  /** One pass of the lookup loop. A thread that finds nothing becomes the one that must fill the
      entry; one that finds a fill under way takes a reference and goes to sleep; one that finds a
      location is counted as a reader of its zone before the lock is released. */
  function Lookup(m: CMap, t: Tid, id: Id): (CMap, Found)
    requires LookupOk(m, id)
  {
    if id !in m.zoneMap then
      (m.(zoneMap := m.zoneMap[id := Pending(m.nextCond)],
          conds := m.conds[m.nextCond := Cond(1, {}, id, t)],
          nextCond := m.nextCond + 1),
       Fill)
    else match m.zoneMap[id]
      case Pending(c) =>
        var v := m.conds[c];
        (m.(conds := m.conds[c := v.(refs := v.refs + 1, asleep := v.asleep + {t})]), Wait(c))
      case Located(loc) =>
        (m.(readers := m.readers[loc.zone := m.readers[loc.zone] + 1]), Hit(loc))
  }

  /** Give up a reference; the last one frees the condition variable. */
  function Release(m: CMap, c: nat): CMap
    requires c in m.conds
  {
    var v := m.conds[c];
    if v.refs == 1 then m.(conds := m.conds - {c})
    else m.(conds := m.conds[c := v.(refs := v.refs - 1)])
  }

  function Broadcast(m: CMap, c: nat): CMap
    requires c in m.conds
  {
    m.(conds := m.conds[c := m.conds[c].(asleep := {})])
  }

  predicate IsPending(m: CMap, id: Id) {
    id in m.zoneMap && m.zoneMap[id].Pending?
  }

  predicate IsLocated(m: CMap, id: Id, loc: Loc) {
    id in m.zoneMap && m.zoneMap[id] == Located(loc)
  }

  predicate InsertOk(m: CMap, id: Id, loc: Loc) {
    IsPending(m, id) && m.zoneMap[id].cond in m.conds && loc.zone < |m.dataMap|
  }

  /** The fill is done: publish the location both ways, wake the waiters, drop the writer's
      reference. */
  function Insert(m: CMap, id: Id, loc: Loc): CMap
    requires InsertOk(m, id, loc)
  {
    var c := m.zoneMap[id].cond;
    var index: map<nat, Id> := m.dataMap[loc.zone][loc.chunk := id];
    var m1 := m.(zoneMap := m.zoneMap[id := Located(loc)], dataMap := m.dataMap[loc.zone := index]);
    Release(Broadcast(m1, c), c)
  }

  predicate FailOk(m: CMap, id: Id) {
    IsPending(m, id) && m.zoneMap[id].cond in m.conds
  }

  /** The fill failed: one of the woken waiters will have to try again. */
  function Fail(m: CMap, id: Id): CMap
    requires FailOk(m, id)
  {
    var c := m.zoneMap[id].cond;
    var m1 := Release(Broadcast(m, c), c);
    m1.(zoneMap := m1.zoneMap - {id})
  }

  /** The assertions made about each identifier a zone's index lists. */
  predicate ClearableAt(m: CMap, z: nat, c: nat)
    requires z < |m.dataMap| && c in m.dataMap[z]
  {
    var key := SignedKey(m.dataMap[z][c]);
    key in m.zoneMap && m.zoneMap[key].Located? && m.zoneMap[key].loc.zone == z
  }

  predicate ClearZoneOk(m: CMap, z: nat) {
    z < |m.dataMap| && forall c :: c in m.dataMap[z] ==> ClearableAt(m, z, c)
  }

  /** Forget everything a zone holds. */
  function ClearZone(m: CMap, z: nat): CMap
    requires z < |m.dataMap|
  {
    m.(zoneMap := m.zoneMap - (set c | c in m.dataMap[z] :: SignedKey(m.dataMap[z][c])),
       dataMap := m.dataMap[z := map[]])
  }

  /** The assertions of clearing one chunk; a chunk the index does not list reads as identifier 0. */
  predicate ClearChunkOk(m: CMap, loc: Loc) {
    loc.zone < |m.dataMap| && (
      var key := SignedKey(IndexedId(m, loc));
      key in m.zoneMap && m.zoneMap[key] == Located(loc))
  }

  function IndexedId(m: CMap, loc: Loc): Id
    requires loc.zone < |m.dataMap|
  {
    if loc.chunk in m.dataMap[loc.zone] then m.dataMap[loc.zone][loc.chunk] else 0
  }

  function ClearChunk(m: CMap, loc: Loc): CMap
    requires loc.zone < |m.dataMap|
  {
    m.(zoneMap := m.zoneMap - {SignedKey(IndexedId(m, loc))},
       dataMap := m.dataMap[loc.zone := m.dataMap[loc.zone] - {loc.chunk}])
  }

  /** A reader is done with its zone. */
  function DropReader(m: CMap, z: nat): CMap
    requires z < |m.readers|
  {
    m.(readers := m.readers[z := m.readers[z] - 1])
  }

  // ---------- How the two directions of the map agree ----------

  predicate Indexed(m: CMap, loc: Loc, id: Id) {
    loc.zone < |m.dataMap| && loc.chunk in m.dataMap[loc.zone] && m.dataMap[loc.zone][loc.chunk] == id
  }

  /** What a zone's index lists is where the map says it is. */
  ghost predicate IndexSound(m: CMap) {
    forall loc, id :: Indexed(m, loc, id) ==> IsLocated(m, id, loc)
  }

  /** What the map locates is listed by its zone's index. */
  ghost predicate IndexComplete(m: CMap) {
    forall loc, id :: IsLocated(m, id, loc) ==> Indexed(m, loc, id)
  }

  ghost predicate Mirror(m: CMap) {
    IndexSound(m) && IndexComplete(m)
  }

  /** The id-to-pointer conversions agree exactly for identifiers that fit in an `int`. */
  lemma KeySurvivesClearing(m: CMap, loc: Loc, id: Id)
    requires IndexSound(m) && Indexed(m, loc, id)
    requires forall k :: k in m.zoneMap ==> 0 <= k < WORD
    ensures ClearableAt(m, loc.zone, loc.chunk) <==> id < HALF_WORD
    ensures ClearChunkOk(m, loc) <==> id < HALF_WORD
  {
    assert IsLocated(m, id, loc);
  }

  lemma InsertKeepsSound(m: CMap, id: Id, loc: Loc)
    requires IndexSound(m) && InsertOk(m, id, loc)
    ensures IndexSound(Insert(m, id, loc))
  {
    var m' := Insert(m, id, loc);
    forall l, i | Indexed(m', l, i)
      ensures IsLocated(m', i, l)
    {
      if l != loc {
        assert Indexed(m, l, i);
        assert IsLocated(m, i, l);
      }
    }
  }

  /** Publishing at a chunk nothing is mapped to keeps the map and the indexes inverse. */
  lemma InsertKeepsMirror(m: CMap, id: Id, loc: Loc)
    requires Mirror(m) && InsertOk(m, id, loc) && loc.chunk !in m.dataMap[loc.zone]
    ensures Mirror(Insert(m, id, loc))
  {
    InsertKeepsSound(m, id, loc);
    var m' := Insert(m, id, loc);
    forall l, i | IsLocated(m', i, l)
      ensures Indexed(m', l, i)
    {
      if i != id {
        assert IsLocated(m, i, l);
        assert Indexed(m, l, i);
      }
    }
  }

  /** Clearing a zone removes exactly the identifiers located in it that its index lists. */
  lemma ClearZoneRemoves(m: CMap, z: nat)
    requires IndexSound(m) && ClearZoneOk(m, z)
    requires forall k :: k in m.zoneMap ==> 0 <= k < WORD
    ensures IndexSound(ClearZone(m, z))
    ensures Mirror(m) ==> Mirror(ClearZone(m, z))
    ensures forall id: Id :: id in ClearZone(m, z).zoneMap <==>
              id in m.zoneMap && !(exists c :: Indexed(m, Loc(z, c), id))
    ensures Mirror(m) ==> forall id: Id, loc :: IsLocated(ClearZone(m, z), id, loc) ==> loc.zone != z
  {
    var m' := ClearZone(m, z);
    forall id: Id
      ensures id in m'.zoneMap <==> id in m.zoneMap && !(exists c :: Indexed(m, Loc(z, c), id))
    {
      forall c | c in m.dataMap[z]
        ensures SignedKey(m.dataMap[z][c]) == id <==> m.dataMap[z][c] == id
      {
        assert ClearableAt(m, z, c);
      }
      if c :| Indexed(m, Loc(z, c), id) {
        assert c in m.dataMap[z] && SignedKey(m.dataMap[z][c]) == id;
      }
      if id in m.zoneMap && id !in m'.zoneMap {
        var c :| c in m.dataMap[z] && SignedKey(m.dataMap[z][c]) == id;
        assert Indexed(m, Loc(z, c), id);
      }
    }
    forall l, i | Indexed(m', l, i)
      ensures IsLocated(m', i, l)
    {
      assert Indexed(m, l, i);
      assert IsLocated(m, i, l);
      assert forall c :: Indexed(m, Loc(z, c), i) ==> IsLocated(m, i, Loc(z, c));
    }
    if Mirror(m) {
      forall l, i: Id | IsLocated(m', i, l)
        ensures Indexed(m', l, i) && l.zone != z
      {
        assert IsLocated(m, i, l);
        assert Indexed(m, l, i);
        assert l.zone == z ==> Indexed(m, Loc(z, l.chunk), i);
      }
    }
  }

  /** Clearing a chunk removes exactly the identifier located there. */
  lemma ClearChunkRemoves(m: CMap, loc: Loc)
    requires Mirror(m) && KeysOk(m) && ClearChunkOk(m, loc)
    ensures Indexed(m, loc, SignedKey(IndexedId(m, loc)))
    ensures Mirror(ClearChunk(m, loc)) && KeysOk(ClearChunk(m, loc))
    ensures forall id: Id :: id in ClearChunk(m, loc).zoneMap <==> id in m.zoneMap && !IsLocated(m, id, loc)
  {
    var key := SignedKey(IndexedId(m, loc));
    assert IsLocated(m, key, loc);
    assert Indexed(m, loc, key);
    var m' := ClearChunk(m, loc);
    forall l, i | Indexed(m', l, i)
      ensures IsLocated(m', i, l)
    {
      assert Indexed(m, l, i);
      assert IsLocated(m, i, l);
    }
    forall l, i | IsLocated(m', i, l)
      ensures Indexed(m', l, i)
    {
      assert IsLocated(m, i, l);
      assert Indexed(m, l, i);
    }
    forall id: Id | id in m.zoneMap && IsLocated(m, id, loc)
      ensures id == key
    {
      assert Indexed(m, loc, id);
    }
  }

  /** Keys are identifiers. */
  ghost predicate KeysOk(m: CMap) {
    forall k :: k in m.zoneMap ==> 0 <= k < WORD
  }

  // ---------- The object ----------

  class Map {
    var zoneMap: map<int, Entry>
    const dataMap: array<map<nat, Id>>
    const activeReaders: array<int>
    var conds: map<nat, Cond>
    var nextCond: nat

    ghost function Abs(): CMap
      reads this, dataMap, activeReaders
    {
      CMap(zoneMap, dataMap[..], activeReaders[..], conds, nextCond)
    }

    ghost predicate Valid()
      reads this, dataMap, activeReaders
    {
      dataMap.Length == activeReaders.Length && KeysOk(Abs()) && IndexSound(Abs())
    }

    constructor (numZones: nat)
      ensures Valid() && Abs() == Init(numZones) && fresh(dataMap) && fresh(activeReaders)
    {
      zoneMap := map[];
      dataMap := new map<nat, Id>[numZones](_ => map[]);
      activeReaders := new int[numZones](_ => 0);
      conds := map[];
      nextCond := 0;
      new;
      assert Abs() == Init(numZones);
    }

    method ReleaseCond(c: nat)
      requires c in conds
      modifies this`conds
      ensures Abs() == Release(old(Abs()), c)
    {
      var v := conds[c];
      if v.refs == 1 {
        conds := conds - {c};
      } else {
        conds := conds[c := v.(refs := v.refs - 1)];
      }
    }

    /** One turn of the lookup loop, by thread `t`. */
    method FindTurn(t: Tid, id: Id) returns (found: Found)
      requires Valid() && LookupOk(Abs(), id)
      modifies this`zoneMap, this`conds, this`nextCond, activeReaders
      ensures Valid() && (Abs(), found) == Lookup(old(Abs()), t, id)
    {
      if id in zoneMap {
        match zoneMap[id] {
          case Pending(c) =>
            conds := conds[c := conds[c].(refs := conds[c].refs + 1, asleep := conds[c].asleep + {t})];
            found := Wait(c);
          case Located(loc) =>
            activeReaders[loc.zone] := activeReaders[loc.zone] + 1;
            found := Hit(loc);
        }
      } else {
        conds := conds[nextCond := Cond(1, {}, id, t)];
        zoneMap := zoneMap[id := Pending(nextCond)];
        nextCond := nextCond + 1;
        found := Fill;
      }
      assert Abs() == Lookup(old(Abs()), t, id).0;
      LookupKeepsIndex(old(Abs()), t, id);
    }

    method InsertEntry(id: Id, loc: Loc)
      requires Valid() && InsertOk(Abs(), id, loc)
      modifies this`zoneMap, this`conds, dataMap
      ensures Valid() && Abs() == Insert(old(Abs()), id, loc)
    {
      InsertKeepsSound(Abs(), id, loc);
      var c := zoneMap[id].cond;
      zoneMap := zoneMap[id := Located(loc)];
      dataMap[loc.zone] := dataMap[loc.zone][loc.chunk := id];
      conds := conds[c := conds[c].(asleep := {})];
      ReleaseCond(c);
      assert Abs() == Insert(old(Abs()), id, loc);
    }

    method FailEntry(id: Id)
      requires Valid() && FailOk(Abs(), id)
      modifies this`zoneMap, this`conds
      ensures Valid() && Abs() == Fail(old(Abs()), id)
    {
      FailKeepsIndex(Abs(), id);
      var c := zoneMap[id].cond;
      conds := conds[c := conds[c].(asleep := {})];
      ReleaseCond(c);
      zoneMap := zoneMap - {id};
      assert Abs() == Fail(old(Abs()), id);
    }

    /** Take one chunk's identifier out of the map. False stands for a failed assertion. */
    method ClearChunkEntry(loc: Loc) returns (ok: bool)
      requires Valid() && Mirror(Abs()) && loc.zone < dataMap.Length
      modifies this`zoneMap, dataMap
      ensures Valid() && Mirror(Abs()) && (ok <==> old(ClearChunkOk(Abs(), loc)))
      ensures Abs() == if ok then ClearChunk(old(Abs()), loc) else old(Abs())
    {
      var index := dataMap[loc.zone];
      var key := SignedKey(if loc.chunk in index then index[loc.chunk] else 0);
      ok := key in zoneMap && zoneMap[key] == Located(loc);
      if !ok {
        return;
      }
      ClearChunkRemoves(Abs(), loc);
      zoneMap := zoneMap - {key};
      dataMap[loc.zone] := index - {loc.chunk};
      assert Abs() == ClearChunk(old(Abs()), loc);
    }

    /** Every listed identifier is taken out of the map, in whatever order the table yields them.
        False stands for a failed assertion. */
    method ClearZoneEntries(z: nat) returns (ok: bool)
      requires Valid() && z < dataMap.Length
      modifies this`zoneMap, dataMap
      ensures ok <==> old(ClearZoneOk(Abs(), z))
      ensures ok ==> Valid() && Abs() == ClearZone(old(Abs()), z)
    {
      ghost var m := Abs();
      var index := dataMap[z];
      var left := index.Keys;
      while left != {}
        invariant left <= index.Keys
        invariant forall c :: c in index && c !in left ==> ClearableAt(m, z, c)
        invariant zoneMap == m.zoneMap - KeysOf(index, index.Keys - left)
        invariant dataMap[..] == m.dataMap
        decreases left
      {
        var c :| c in left;
        var key := SignedKey(index[c]);
        OneChunkPerKey(m, z, left, c);
        if !(key in zoneMap && zoneMap[key].Located? && zoneMap[key].loc.zone == z) {
          assert !ClearableAt(m, z, c);
          return false;
        }
        zoneMap := zoneMap - {key};
        left := left - {c};
      }
      dataMap[z] := map[];
      ClearedKeys(m, z);
      assert index.Keys - left == index.Keys;
      assert Abs() == ClearZone(m, z);
      ClearZoneRemoves(m, z);
      ok := true;
    }

    method DropReaderOf(z: nat)
      requires Valid() && z < activeReaders.Length
      modifies activeReaders
      ensures Valid() && Abs() == DropReader(old(Abs()), z)
    {
      activeReaders[z] := activeReaders[z] - 1;
      SameIndex(old(Abs()), Abs());
    }
  }

  lemma SameIndex(m: CMap, m': CMap)
    requires IndexSound(m) && m'.dataMap == m.dataMap
    requires forall k, loc :: IsLocated(m, k, loc) ==> IsLocated(m', k, loc)
    ensures IndexSound(m')
  {
    forall l, i | Indexed(m', l, i)
      ensures IsLocated(m', i, l)
    {
      assert Indexed(m, l, i);
    }
  }

  lemma LookupKeepsIndex(m: CMap, t: Tid, id: Id)
    requires IndexSound(m) && LookupOk(m, id)
    ensures IndexSound(Lookup(m, t, id).0)
    ensures IndexComplete(m) ==> IndexComplete(Lookup(m, t, id).0)
  {
    var m' := Lookup(m, t, id).0;
    SameIndex(m, m');
    if IndexComplete(m) {
      forall l, i | IsLocated(m', i, l)
        ensures Indexed(m', l, i)
      {
        assert IsLocated(m, i, l);
        assert Indexed(m, l, i);
      }
    }
  }

  lemma FailKeepsIndex(m: CMap, id: Id)
    requires IndexSound(m) && FailOk(m, id)
    ensures IndexSound(Fail(m, id))
    ensures IndexComplete(m) ==> IndexComplete(Fail(m, id))
  {
    var m' := Fail(m, id);
    SameIndex(m, m');
    if IndexComplete(m) {
      forall l, i | IsLocated(m', i, l)
        ensures Indexed(m', l, i)
      {
        assert IsLocated(m, i, l);
        assert Indexed(m, l, i);
      }
    }
  }

  ghost function KeysOf(index: map<nat, Id>, chunks: set<nat>): set<int>
    requires chunks <= index.Keys
  {
    set c | c in chunks :: SignedKey(index[c])
  }

  lemma ClearedKeys(m: CMap, z: nat)
    requires z < |m.dataMap|
    ensures ClearZone(m, z).zoneMap == m.zoneMap - KeysOf(m.dataMap[z], m.dataMap[z].Keys)
  {
    assert KeysOf(m.dataMap[z], m.dataMap[z].Keys) == set c | c in m.dataMap[z] :: SignedKey(m.dataMap[z][c]);
  }

  /** No two chunks of a zone are cleared through the same key, so each key that was in the map
      still is when its turn comes. */
  lemma OneChunkPerKey(m: CMap, z: nat, left: set<nat>, c: nat)
    requires IndexSound(m) && z < |m.dataMap| && c in left && left <= m.dataMap[z].Keys
    ensures var index := m.dataMap[z];
            var key := SignedKey(index[c]);
            && key !in KeysOf(index, index.Keys - left)
            && KeysOf(index, index.Keys - (left - {c})) == KeysOf(index, index.Keys - left) + {key}
  {
    var index := m.dataMap[z];
    var key := SignedKey(index[c]);
    forall d | d in index && SignedKey(index[d]) == key
      ensures d == c
    {
      assert Indexed(m, Loc(z, c), index[c]) && Indexed(m, Loc(z, d), index[c]);
      assert IsLocated(m, index[c], Loc(z, c)) && IsLocated(m, index[c], Loc(z, d));
    }
    assert index.Keys - (left - {c}) == (index.Keys - left) + {c};
    forall k
      ensures k in KeysOf(index, index.Keys - (left - {c})) <==> k in KeysOf(index, index.Keys - left) || k == key
    {
      if k == key {
        assert c in index.Keys - (left - {c});
      }
    }
  }
}
