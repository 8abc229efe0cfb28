/** The zone state manager: which zone the next chunk goes to. The functions say what each call
    made under the manager's lock does to its state; the class changes that state in place. */
module ZoneState {
  import opened ZnTypes
  import Lru

  datatype Condition = Free | Full | Active | WriteOccurring

  datatype Zone = Zone(cond: Condition, offset: nat)

  /** Zones are named by their index, which is what the queues' pointers into the zone array
      amount to. */
  datatype Zsm = Zsm(zones: seq<Zone>, active: seq<nat>, free: seq<nat>, writes: int)

  datatype GetResult = Success(loc: Loc) | Retry | Error | Evict

  function Init(cfg: Config): Zsm {
    Zsm(seq(cfg.numZones, _ => Zone(Free, 0)), [], seq(cfg.numZones, i => i), 0)
  }

  predicate HasCond(s: Zsm, z: nat, cond: Condition) {
    z < |s.zones| && s.zones[z].cond == cond
  }

  predicate CanOpen(cfg: Config, s: Zsm) {
    s.active == [] && s.writes < cfg.maxActive && s.free != []
  }

  /** The assertions on the zone taken from either queue. */
  predicate GetActiveOk(cfg: Config, s: Zsm) {
    if s.active != [] then HasCond(s, s.active[0], Active)
    else CanOpen(cfg, s) ==> HasCond(s, s.free[0], Free)
  }

  /** Take the oldest active zone, opening a free one first if none is active. When opening
      fails the zone is in neither queue any more. */
  function GetActive(cfg: Config, s: Zsm, openOk: bool): (Zsm, GetResult)
    requires GetActiveOk(cfg, s)
  {
    if |s.active| + s.writes == 0 && s.free == [] then (s, Evict)
    else if s.active == [] then
      if !CanOpen(cfg, s) then (s, Retry)
      else if !cfg.DeviceOk(openOk) then (s.(free := s.free[1..]), Error)
      else
        (Zsm(s.zones[s.free[0] := Zone(WriteOccurring, 0)], [], s.free[1..], s.writes + 1),
         Success(Loc(s.free[0], 0)))
    else
      var z := s.active[0];
      (Zsm(s.zones[z := s.zones[z].(cond := WriteOccurring)], s.active[1..], s.free, s.writes + 1),
       Success(Loc(z, s.zones[z].offset)))
  }

  /** The assertions on a location handed back after a write, successful or not. */
  predicate HandBackOk(cfg: Config, s: Zsm, loc: Loc) {
    && |s.active| + s.writes <= cfg.maxActive
    && loc.zone < |s.zones|
    && s.zones[loc.zone] == Zone(WriteOccurring, loc.chunk)
  }

  /** The chunk was written: the zone takes more chunks or, after its last one, is finished. A
      zone that cannot be finished keeps its condition. */
  function ReturnActive(cfg: Config, s: Zsm, loc: Loc, closeOk: bool): Zsm
    requires HandBackOk(cfg, s, loc)
  {
    if loc.chunk + 1 == cfg.maxChunks then
      var zone := if cfg.DeviceOk(closeOk) then Zone(Full, 0) else Zone(WriteOccurring, loc.chunk + 1);
      s.(zones := s.zones[loc.zone := zone], writes := s.writes - 1)
    else
      s.(zones := s.zones[loc.zone := Zone(Active, loc.chunk + 1)],
         active := s.active + [loc.zone], writes := s.writes - 1)
  }

  predicate FailedOk(cfg: Config, s: Zsm, loc: Loc) {
    HandBackOk(cfg, s, loc) && loc.chunk < cfg.maxChunks
  }

  /** The write failed: the same chunk will be handed out again. */
  function FailedToWrite(cfg: Config, s: Zsm, loc: Loc): Zsm
    requires FailedOk(cfg, s, loc)
  {
    s.(zones := s.zones[loc.zone := Zone(Active, loc.chunk)],
       active := s.active + [loc.zone], writes := s.writes - 1)
  }

  /** The assertions of an eviction: the zone is full, and the device resets it (the test of the
      reset's result is inverted, so a failing reset runs into the assertion that the zone is free). */
  predicate EvictOk(cfg: Config, s: Zsm, z: nat, resetOk: bool) {
    HasCond(s, z, Full) && cfg.DeviceOk(resetOk)
  }

  function EvictZone(cfg: Config, s: Zsm, z: nat): Zsm
    requires HasCond(s, z, Full)
  {
    s.(zones := s.zones[z := Zone(Free, 0)], free := s.free + [z])
  }

  // ---------- What every call keeps ----------

  /** Zones some thread holds a location in and has still to hand back. */
  ghost function BeingWritten(cfg: Config, s: Zsm): set<nat> {
    set z: nat | z < |s.zones| && IsBeingWritten(cfg, s, z)
  }

  predicate IsBeingWritten(cfg: Config, s: Zsm, z: nat) {
    z < |s.zones| && s.zones[z].cond == WriteOccurring && s.zones[z].offset < cfg.maxChunks
  }

  /** All chunks of the zone are written: it is full, or finishing it failed. */
  predicate Sealed(cfg: Config, s: Zsm, z: nat) {
    HasCond(s, z, Full) || (z < |s.zones| && s.zones[z] == Zone(WriteOccurring, cfg.maxChunks))
  }

  predicate OffsetOk(cfg: Config, zone: Zone) {
    match zone.cond
    case Free => zone.offset == 0
    case Full => zone.offset == 0
    case Active => zone.offset < cfg.maxChunks
    case WriteOccurring => zone.offset <= cfg.maxChunks
  }

  ghost predicate QueuesOk(s: Zsm) {
    && NoDup(s.active) && NoDup(s.free)
    && (forall z :: z in s.active <==> HasCond(s, z, Active))
    && (forall z :: z in s.free ==> HasCond(s, z, Free))
  }

  ghost predicate Inv(cfg: Config, s: Zsm) {
    && |s.zones| == cfg.numZones
    && QueuesOk(s)
    && (forall z :: 0 <= z < |s.zones| ==> OffsetOk(cfg, s.zones[z]))
    && s.writes == |BeingWritten(cfg, s)|
    && |s.active| + s.writes <= cfg.maxActive
  }

  /** Every zone is queued as free, queued as active, being written, or full. */
  ghost predicate NoneLost(cfg: Config, s: Zsm) {
    forall z :: 0 <= z < |s.zones| ==>
      z in s.free || z in s.active || IsBeingWritten(cfg, s, z) || s.zones[z].cond == Full
  }

  /** How many chunks of a zone hold data. */
  function Written(cfg: Config, s: Zsm, z: nat): nat
    requires z < |s.zones|
  {
    if s.zones[z].cond == Full then cfg.maxChunks else s.zones[z].offset
  }

  lemma InitInv(cfg: Config)
    ensures Inv(cfg, Init(cfg)) && NoneLost(cfg, Init(cfg))
  {
    var s := Init(cfg);
    assert BeingWritten(cfg, s) == {};
    forall z | 0 <= z < cfg.numZones
      ensures z in s.free
    {
      assert s.free[z] == z;
    }
  }

  lemma OneMoreWritten(cfg: Config, s: Zsm, s': Zsm, z: nat)
    requires |s.zones| == |s'.zones|
    requires forall y :: 0 <= y < |s.zones| && y != z ==> s.zones[y] == s'.zones[y]
    requires !IsBeingWritten(cfg, s, z) && IsBeingWritten(cfg, s', z)
    ensures |BeingWritten(cfg, s')| == |BeingWritten(cfg, s)| + 1
  {
    assert BeingWritten(cfg, s') == BeingWritten(cfg, s) + {z};
  }

  /** In any condition the four places a zone can be in exclude each other. */
  lemma AtMostOnePlace(cfg: Config, s: Zsm, z: nat)
    requires Inv(cfg, s)
    ensures z in s.free ==> z !in s.active && !IsBeingWritten(cfg, s, z) && !Sealed(cfg, s, z)
    ensures z in s.active ==> !IsBeingWritten(cfg, s, z) && !Sealed(cfg, s, z)
    ensures IsBeingWritten(cfg, s, z) ==> !Sealed(cfg, s, z)
  {
    assert z in s.free ==> HasCond(s, z, Free);
    assert z in s.active ==> HasCond(s, z, Active);
  }

  lemma GetActiveInv(cfg: Config, s: Zsm, openOk: bool)
    requires cfg.Valid() && Inv(cfg, s)
    ensures GetActiveOk(cfg, s)
    ensures Inv(cfg, GetActive(cfg, s, openOk).0)
    ensures NoneLost(cfg, s) && !GetActive(cfg, s, openOk).1.Error? ==> NoneLost(cfg, GetActive(cfg, s, openOk).0)
    ensures GetActive(cfg, s, openOk).1.Error? ==> !cfg.DeviceOk(openOk)
  {
    assert s.active != [] ==> s.active[0] in s.active;
    assert s.free != [] ==> s.free[0] in s.free;
    var (s', r) := GetActive(cfg, s, openOk);
    if r.Success? {
      var z := r.loc.zone;
      assert OffsetOk(cfg, s.zones[z]);
      if s.active == [] {
        PopNoDup(s.free);
      } else {
        PopNoDup(s.active);
      }
      OneMoreWritten(cfg, s, s', z);
    } else if r.Error? {
      PopNoDup(s.free);
      assert BeingWritten(cfg, s') == BeingWritten(cfg, s);
    }
  }

  /** A zone handed back is one less being written. */
  lemma HandBackInv(cfg: Config, s: Zsm, s': Zsm, loc: Loc)
    requires Inv(cfg, s) && loc.zone < |s.zones|
    requires s.zones[loc.zone] == Zone(WriteOccurring, loc.chunk) && loc.chunk < cfg.maxChunks
    requires |s'.zones| == |s.zones|
    requires forall y :: 0 <= y < |s.zones| && y != loc.zone ==> s'.zones[y] == s.zones[y]
    requires !IsBeingWritten(cfg, s', loc.zone) && OffsetOk(cfg, s'.zones[loc.zone])
    requires s'.zones[loc.zone].cond != Free && s'.free == s.free && s'.writes == s.writes - 1
    requires s'.active == if s'.zones[loc.zone].cond == Active then s.active + [loc.zone] else s.active
    ensures HandBackOk(cfg, s, loc) && Inv(cfg, s')
  {
    assert loc.zone in s.active ==> HasCond(s, loc.zone, Active);
    assert loc.zone in s.free ==> HasCond(s, loc.zone, Free);
    PushNoDup(s.active, loc.zone);
    OneMoreWritten(cfg, s', s, loc.zone);
  }

  lemma ReturnActiveInv(cfg: Config, s: Zsm, loc: Loc, closeOk: bool)
    requires Inv(cfg, s) && loc.zone < |s.zones|
    requires s.zones[loc.zone] == Zone(WriteOccurring, loc.chunk) && loc.chunk < cfg.maxChunks
    ensures HandBackOk(cfg, s, loc)
    ensures Inv(cfg, ReturnActive(cfg, s, loc, closeOk))
    ensures loc.chunk + 1 == cfg.maxChunks <==> Sealed(cfg, ReturnActive(cfg, s, loc, closeOk), loc.zone)
    ensures NoneLost(cfg, s) && cfg.DeviceOk(closeOk) ==> NoneLost(cfg, ReturnActive(cfg, s, loc, closeOk))
  {
    HandBackInv(cfg, s, ReturnActive(cfg, s, loc, closeOk), loc);
  }

  lemma FailedToWriteInv(cfg: Config, s: Zsm, loc: Loc)
    requires Inv(cfg, s) && loc.zone < |s.zones|
    requires s.zones[loc.zone] == Zone(WriteOccurring, loc.chunk) && loc.chunk < cfg.maxChunks
    ensures FailedOk(cfg, s, loc)
    ensures Inv(cfg, FailedToWrite(cfg, s, loc))
    ensures NoneLost(cfg, s) ==> NoneLost(cfg, FailedToWrite(cfg, s, loc))
  {
    HandBackInv(cfg, s, FailedToWrite(cfg, s, loc), loc);
  }

  lemma EvictZoneInv(cfg: Config, s: Zsm, z: nat)
    requires Inv(cfg, s) && HasCond(s, z, Full)
    ensures Inv(cfg, EvictZone(cfg, s, z))
    ensures NoneLost(cfg, s) ==> NoneLost(cfg, EvictZone(cfg, s, z))
  {
    var s' := EvictZone(cfg, s, z);
    assert z in s.active ==> HasCond(s, z, Active);
    assert z in s.free ==> HasCond(s, z, Free);
    PushNoDup(s.free, z);
    assert BeingWritten(cfg, s') == BeingWritten(cfg, s);
  }

  // ---------- Zones take turns ----------

  /** A zone was put into a queue (`Filled`) or taken out of it (`Popped`). */
  type Turn = Lru.Use<nat>

  /** The queue holds exactly the zones put in and not taken out since, in the order they were put in. */
  ghost predicate InTurn(q: seq<nat>, h: seq<Turn>) {
    && (forall z: nat :: z in q <==> Lru.LastUse(h, z).Some?)
    && (forall i, j :: 0 <= i < j < |q| ==> Lru.LastUse(h, q[i]).Some? && Lru.LastUse(h, q[j]).Some?
                                            && Lru.LastUse(h, q[i]).value < Lru.LastUse(h, q[j]).value)
  }

  lemma PutKeepsTurns(q: seq<nat>, h: seq<Turn>, z: nat)
    requires InTurn(q, h) && z !in q
    ensures InTurn(q + [z], h + [Lru.Filled(z)])
  {
    forall y: nat
      ensures Lru.LastUse(h + [Lru.Filled(z)], y) == if y == z then Some(|h|) else Lru.LastUse(h, y)
      ensures Lru.LastUse(h, y).Some? ==> Lru.LastUse(h, y).value < |h|
    {
      Lru.LastUseAfter(h, Lru.Filled(z), y);
      Lru.LastUseIsPast(h, y);
    }
  }

  /** Taking a zone out that is not in the queue changes nothing. */
  lemma TakeKeepsTurns(q: seq<nat>, h: seq<Turn>, z: nat)
    requires InTurn(q, h) && NoDup(q) && (z in q ==> z == q[0])
    ensures InTurn(if z in q then q[1..] else q, h + [Lru.Popped(z)])
  {
    forall y: nat
      ensures Lru.LastUse(h + [Lru.Popped(z)], y) == if y == z then None else Lru.LastUse(h, y)
    {
      Lru.LastUseAfter(h, Lru.Popped(z), y);
    }
    if z in q {
      PopNoDup(q);
      assert forall i :: 0 <= i < |q| - 1 ==> q[1..][i] == q[i + 1] && q[i + 1] != z;
    }
  }

  lemma HeadHasTurn(q: seq<nat>, h: seq<Turn>)
    requires InTurn(q, h) && q != []
    ensures Lru.IsOldest(h, q[0])
  {
    assert q[0] in q;
    forall z: nat | z != q[0] && Lru.LastUse(h, z).Some?
      ensures Lru.LastUse(h, q[0]).value < Lru.LastUse(h, z).value
    {
      assert z in q;
      var i :| 0 <= i < |q| && q[i] == z;
    }
  }

  /** A zone handed back is active again unless its last chunk was written. */
  function HandBackTurn(cfg: Config, loc: Loc, written: bool): seq<Turn> {
    if written && loc.chunk + 1 == cfg.maxChunks then [] else [Lru.Filled(loc.zone)]
  }

  lemma ReturnActiveTurns(cfg: Config, s: Zsm, loc: Loc, closeOk: bool, h: seq<Turn>)
    requires Inv(cfg, s) && HandBackOk(cfg, s, loc) && InTurn(s.active, h)
    ensures InTurn(ReturnActive(cfg, s, loc, closeOk).active, h + HandBackTurn(cfg, loc, true))
  {
    assert loc.zone in s.active ==> HasCond(s, loc.zone, Active);
    if loc.chunk + 1 == cfg.maxChunks {
      assert h + [] == h;
    } else {
      PutKeepsTurns(s.active, h, loc.zone);
    }
  }

  lemma FailedToWriteTurns(cfg: Config, s: Zsm, loc: Loc, h: seq<Turn>)
    requires Inv(cfg, s) && FailedOk(cfg, s, loc) && InTurn(s.active, h)
    ensures InTurn(FailedToWrite(cfg, s, loc).active, h + HandBackTurn(cfg, loc, false))
  {
    assert loc.zone in s.active ==> HasCond(s, loc.zone, Active);
    PutKeepsTurns(s.active, h, loc.zone);
  }

  lemma EvictZoneTurns(cfg: Config, s: Zsm, z: nat, h: seq<Turn>)
    requires Inv(cfg, s) && HasCond(s, z, Full) && InTurn(s.free, h)
    ensures InTurn(EvictZone(cfg, s, z).free, h + [Lru.Filled(z)])
  {
    assert z in s.free ==> HasCond(s, z, Free);
    PutKeepsTurns(s.free, h, z);
  }

  /** The place handed out is in the zone handed back longest ago and, if none is active, in the one
      that has been free longest. */
  lemma GetActiveTurns(cfg: Config, s: Zsm, openOk: bool, h: seq<Turn>, f: seq<Turn>)
    requires cfg.Valid() && Inv(cfg, s) && InTurn(s.active, h) && InTurn(s.free, f)
    ensures GetActiveOk(cfg, s)
    ensures var (s', r) := GetActive(cfg, s, openOk);
            if r.Success? then
              && Lru.IsOldest(if s.active != [] then h else f, r.loc.zone)
              && InTurn(s'.active, h + [Lru.Popped(r.loc.zone)]) && InTurn(s'.free, f + [Lru.Popped(r.loc.zone)])
            else s'.active == s.active
                 && if r.Error? then Lru.IsOldest(f, s.free[0]) && InTurn(s'.free, f + [Lru.Popped(s.free[0])])
                    else s'.free == s.free
  {
    GetActiveInv(cfg, s, openOk);
    var (s', r) := GetActive(cfg, s, openOk);
    if r.Success? || r.Error? {
      var z := if s.active != [] then s.active[0] else s.free[0];
      assert z in s.active ==> HasCond(s, z, Active);
      assert z in s.free ==> HasCond(s, z, Free);
      TakeKeepsTurns(s.active, h, z);
      TakeKeepsTurns(s.free, f, z);
      if s.active != [] {
        HeadHasTurn(s.active, h);
      } else {
        HeadHasTurn(s.free, f);
      }
    }
  }

  // ---------- The object ----------

  /** How many zones are full. */
  ghost function FullZones(s: Zsm): set<nat> {
    set z: nat | z < |s.zones| && HasCond(s, z, Full)
  }

  class ZoneStateManager {
    const cfg: Config
    const state: array<Zone>
    var active: seq<nat>
    var free: seq<nat>
    var writesOccurring: int

    ghost function Abs(): Zsm
      reads this, state
    {
      Zsm(state[..], active, free, writesOccurring)
    }

    ghost predicate Valid()
      reads this, state
    {
      cfg.Valid() && Inv(cfg, Abs())
    }

    constructor (cfg: Config)
      requires cfg.Valid()
      ensures this.cfg == cfg && fresh(state) && Valid() && Abs() == Init(cfg)
    {
      this.cfg := cfg;
      writesOccurring := 0;
      active := [];
      free := [];
      state := new Zone[cfg.numZones](_ => Zone(Free, 0));
      new;
      for i: nat := 0 to cfg.numZones
        invariant active == [] && writesOccurring == 0 && state.Length == cfg.numZones
        invariant fresh(state)
        invariant free == seq(i, j => j)
        invariant forall j :: 0 <= j < state.Length ==> state[j] == Zone(Free, 0)
      {
        state[i] := Zone(Free, 0);
        free := free + [i];
      }
      assert Abs() == Init(cfg);
      InitInv(cfg);
    }

    /** Move a free zone to the active queue, if the device opens it. */
    method OpenZone(z: nat, openOk: bool) returns (ok: bool)
      requires z < state.Length && state[z].cond == Free
      modifies this`active, state
      ensures ok <==> |old(active)| + writesOccurring < cfg.maxActive && cfg.DeviceOk(openOk)
      ensures ok ==> active == old(active) + [z] && state[..] == old(state[..])[z := Zone(Active, 0)]
      ensures !ok ==> active == old(active) && state[..] == old(state[..])
    {
      if |active| + writesOccurring >= cfg.maxActive {
        return false;
      }
      if cfg.backend.Zns? {
        if !openOk {
          return false;
        }
      }
      state[z] := Zone(Active, 0);
      active := active + [z];
      ok := true;
    }

    method GetActiveZone(openOk: bool) returns (r: GetResult)
      requires Valid()
      modifies this`active, this`free, this`writesOccurring, state
      ensures Valid() && (Abs(), r) == GetActive(cfg, old(Abs()), openOk)
      ensures old(NoneLost(cfg, Abs())) && !r.Error? ==> NoneLost(cfg, Abs())
      ensures r.Error? ==> !cfg.DeviceOk(openOk)
      ensures r.Success? ==>
                forall h, f :: InTurn(old(active), h) && InTurn(old(free), f) ==>
                  && Lru.IsOldest(if old(active) != [] then h else f, r.loc.zone)
                  && InTurn(active, h + [Lru.Popped(r.loc.zone)]) && InTurn(free, f + [Lru.Popped(r.loc.zone)])
    {
      GetActiveInv(cfg, Abs(), openOk);
      forall h, f | InTurn(active, h) && InTurn(free, f)
        ensures var (s', r) := GetActive(cfg, Abs(), openOk);
                r.Success? ==>
                  && Lru.IsOldest(if active != [] then h else f, r.loc.zone)
                  && InTurn(s'.active, h + [Lru.Popped(r.loc.zone)]) && InTurn(s'.free, f + [Lru.Popped(r.loc.zone)])
      {
        GetActiveTurns(cfg, Abs(), openOk, h, f);
      }
      if |active| + writesOccurring == 0 && |free| == 0 {
        return GetResult.Evict;
      }
      if |active| == 0 {
        if |active| + writesOccurring < cfg.maxActive && |free| > 0 {
          var z := free[0];
          free := free[1..];
          var isOpen := OpenZone(z, openOk);
          if !isOpen {
            return Error;
          }
        } else {
          return Retry;
        }
      }
      var z := active[0];
      active := active[1..];
      r := Success(Loc(z, state[z].offset));
      state[z] := state[z].(cond := WriteOccurring);
      writesOccurring := writesOccurring + 1;
      assert state[..] == GetActive(cfg, old(Abs()), openOk).0.zones;
    }

    /** Finish a zone, if the device does. */
    method CloseZone(z: nat, closeOk: bool) returns (ok: bool)
      requires z < state.Length
      modifies state
      ensures ok <==> old(state[z]).cond == Full || cfg.DeviceOk(closeOk)
      ensures state[..] == if ok && old(state[z]).cond != Full then old(state[..])[z := Zone(Full, 0)]
                           else old(state[..])
    {
      if state[z].cond == Full {
        return true;
      }
      if cfg.backend.Zns? {
        if !closeOk {
          return false;
        }
      }
      state[z] := Zone(Full, 0);
      ok := true;
    }

    method ReturnActiveZone(loc: Loc, closeOk: bool) returns (ok: bool)
      requires Valid() && loc.zone < state.Length
      requires state[loc.zone] == Zone(WriteOccurring, loc.chunk) && loc.chunk < cfg.maxChunks
      modifies this`active, this`writesOccurring, state
      ensures Valid() && old(HandBackOk(cfg, Abs(), loc))
      ensures Abs() == ReturnActive(cfg, old(Abs()), loc, closeOk)
      ensures ok <==> loc.chunk + 1 < cfg.maxChunks || cfg.DeviceOk(closeOk)
      ensures old(NoneLost(cfg, Abs())) && cfg.DeviceOk(closeOk) ==> NoneLost(cfg, Abs())
      ensures forall h :: InTurn(old(active), h) ==> InTurn(active, h + HandBackTurn(cfg, loc, true))
    {
      ReturnActiveInv(cfg, Abs(), loc, closeOk);
      forall h | InTurn(active, h)
        ensures InTurn(ReturnActive(cfg, Abs(), loc, closeOk).active, h + HandBackTurn(cfg, loc, true))
      {
        ReturnActiveTurns(cfg, Abs(), loc, closeOk, h);
      }
      assert |active| + writesOccurring <= cfg.maxActive;
      writesOccurring := writesOccurring - 1;
      state[loc.zone] := Zone(WriteOccurring, loc.chunk + 1);
      ok := true;
      if state[loc.zone].offset == cfg.maxChunks {
        ok := CloseZone(loc.zone, closeOk);
      } else {
        state[loc.zone] := state[loc.zone].(cond := Active);
        active := active + [loc.zone];
      }
      assert state[..] == ReturnActive(cfg, old(Abs()), loc, closeOk).zones;
    }

    method FailedToWriteZone(loc: Loc)
      requires Valid() && loc.zone < state.Length
      requires state[loc.zone] == Zone(WriteOccurring, loc.chunk) && loc.chunk < cfg.maxChunks
      modifies this`active, this`writesOccurring, state
      ensures Valid() && old(FailedOk(cfg, Abs(), loc)) && Abs() == FailedToWrite(cfg, old(Abs()), loc)
      ensures old(NoneLost(cfg, Abs())) ==> NoneLost(cfg, Abs())
      ensures forall h :: InTurn(old(active), h) ==> InTurn(active, h + HandBackTurn(cfg, loc, false))
    {
      FailedToWriteInv(cfg, Abs(), loc);
      forall h | InTurn(active, h)
        ensures InTurn(FailedToWrite(cfg, Abs(), loc).active, h + HandBackTurn(cfg, loc, false))
      {
        FailedToWriteTurns(cfg, Abs(), loc, h);
      }
      writesOccurring := writesOccurring - 1;
      state[loc.zone] := state[loc.zone].(cond := Active);
      active := active + [loc.zone];
    }

    /** Empty a zone, if the device does; an empty one stays as it is. */
    method ResetZone(z: nat, resetOk: bool) returns (ok: bool)
      requires z < state.Length
      modifies this`free, state
      ensures ok <==> old(state[z]).cond == Free || cfg.DeviceOk(resetOk)
      ensures ok && old(state[z]).cond != Free ==>
                free == old(free) + [z] && state[..] == old(state[..])[z := Zone(Free, 0)]
      ensures !ok || old(state[z]).cond == Free ==> free == old(free) && state[..] == old(state[..])
    {
      if state[z].cond == Free {
        return true;
      }
      if cfg.backend.Zns? {
        if !resetOk {
          return false;
        }
      }
      state[z] := Zone(Free, 0);
      free := free + [z];
      ok := true;
    }

    /** Free an evicted zone. False stands for a failed assertion. */
    method Evict(z: nat, resetOk: bool) returns (ok: bool)
      requires Valid() && z < state.Length
      modifies this`free, state
      ensures Valid() && (ok <==> old(EvictOk(cfg, Abs(), z, resetOk)))
      ensures ok ==> old(HasCond(Abs(), z, Full)) && Abs() == EvictZone(cfg, old(Abs()), z)
      ensures !ok ==> Abs() == old(Abs())
      ensures ok ==> forall f :: InTurn(old(free), f) ==> InTurn(free, f + [Lru.Filled(z)])
    {
      ok := state[z].cond == Full;
      if !ok {
        return;
      }
      EvictZoneInv(cfg, Abs(), z);
      forall f | InTurn(free, f)
        ensures InTurn(EvictZone(cfg, Abs(), z).free, f + [Lru.Filled(z)])
      {
        EvictZoneTurns(cfg, Abs(), z, f);
      }
      var wasReset := ResetZone(z, resetOk);
      if wasReset {
        return;
      }
      ok := state[z].cond == Free;
    }

    method NumActiveZones() returns (n: int)
      requires Valid()
      ensures n == |active| + |BeingWritten(cfg, Abs())| <= cfg.maxActive
    {
      n := |active| + writesOccurring;
    }

    function NumFreeZones(): nat
      reads this
    {
      |free|
    }

    method NumFullZones() returns (count: nat)
      requires Valid()
      ensures count == |FullZones(Abs())|
    {
      count := 0;
      ghost var s := Abs();
      ghost var counted: set<nat> := {};
      for i: nat := 0 to cfg.numZones
        invariant forall z: nat :: z in counted <==> z < i && HasCond(s, z, Full)
        invariant count == |counted|
      {
        if state[i].cond == Full {
          count := count + 1;
          counted := counted + {i};
        }
      }
      assert counted == FullZones(s);
    }
  }
}
