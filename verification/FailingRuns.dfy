/** Runs in which an assertion of the program fails, on a device of one zone with one chunk: an
    identifier that does not fit in an `int`, a zone the device failed to finish, a reset that fails;
    and a run that loses a zone because the device failed to open it. */
module FailingRuns {
  import opened ZnTypes
  import opened Protocol
  import opened Lru
  import opened Z = ZoneState
  import opened C = CacheMap
  import opened Buffers
  import opened FineRuns

  const BUFFER: Data := [0, 0, 0, 0]

  const PLACE: Loc := Loc(0, 0)

  function Device(backend: Backend): Config {
    Config(1, 1, 1, backend)
  }

  /** Thread 0 fills an identifier; `ok` is whether the device finishes the zone. */
  function Fill(id: Id, ok: bool): seq<Step> {
    [LookupStep(0, id), Allocate(0, true), Generate(0, BUFFER), WriteDisk(0, true), Commit(0, ok)]
  }

  /** Thread 9 takes the zone and clears it. */
  const CLEAR: seq<Step> := [StartEvict(9), PopVictim(9), ClearZone(9)]

  /** It resets the zone; `ok` is whether the device does. */
  function Finish(ok: bool): seq<Step> {
    [PassDrain(9), ResetZone(9, ok)]
  }

  ghost function Writing1(backend: Backend, id: Id): State {
    State(Zsm([Zone(WriteOccurring, 0)], [], [], 1),
          CMap(map[id := Pending(0)], [map[]], [0], map[0 := Cond(1, {}, id, 0)], 1),
          EMPTY, map[], map[0 := Writing(id, PLACE, WriteBuffer(id, BUFFER))], false, [],
          map[id := WriteBuffer(id, BUFFER)], [])
  }

  lemma StartFill(backend: Backend, id: Id)
    ensures Exec(Device(backend), Fill(id, true)[..3]) == Writing1(backend, id)
  {
    var cfg := Device(backend);
    var s0 := Protocol.Init(cfg);
    assert s0.zsm == Zsm([Zone(Free, 0)], [], [0], 0);
    assert s0.cm == CMap(map[], [map[]], [0], map[], 0);
    var s1 := Apply(cfg, s0, LookupStep(0, id));
    assert s1.threads == map[0 := Allocating(id)];
    var s2 := Apply(cfg, s1, Allocate(0, true));
    assert s2.threads == map[0 := Allocated(id, PLACE)];
    assert s2.zsm == Zsm([Zone(WriteOccurring, 0)], [], [], 1);
    var s3 := Apply(cfg, s2, Generate(0, BUFFER));
    assert s3.threads == Writing1(backend, id).threads && s3.cm == Writing1(backend, id).cm;
    OneStepMore(cfg, [], LookupStep(0, id));
    OneStepMore(cfg, [LookupStep(0, id)], Allocate(0, true));
    OneStepMore(cfg, [LookupStep(0, id), Allocate(0, true)], Generate(0, BUFFER));
    assert [LookupStep(0, id), Allocate(0, true)] + [Generate(0, BUFFER)] == Fill(id, true)[..3];
  }

  /** The zone's condition after its chunk was handed back. */
  function Finished(backend: Backend, ok: bool): Zone {
    if backend.Block? || ok then Zone(Full, 0) else Zone(WriteOccurring, 1)
  }

  ghost function Committed(backend: Backend, id: Id, ok: bool): State {
    State(Zsm([Finished(backend, ok)], [], [], 0),
          CMap(map[id := Located(PLACE)], [map[0 := id]], [0], map[], 1),
          LruQueue([Link(0, 0)], map[0 := Some(0)], 1), map[PLACE := WriteBuffer(id, BUFFER)], map[0 := Idle], false,
          [Lru.Filled(0)], map[id := WriteBuffer(id, BUFFER)], [])
  }

  ghost function Stored(backend: Backend, id: Id): State {
    Writing1(backend, id).(threads := map[0 := Protocol.Written(id, PLACE, WriteBuffer(id, BUFFER))],
                           disk := map[PLACE := WriteBuffer(id, BUFFER)])
  }

  ghost function HandedBack(backend: Backend, id: Id, ok: bool): State {
    Stored(backend, id).(zsm := Zsm([Finished(backend, ok)], [], [], 0),
                         threads := map[0 := Returned(id, PLACE, WriteBuffer(id, BUFFER))])
  }

  lemma Store(backend: Backend, id: Id)
    ensures Apply(Device(backend), Writing1(backend, id), WriteDisk(0, true)) == Stored(backend, id)
  {
    var s := Apply(Device(backend), Writing1(backend, id), WriteDisk(0, true));
    assert s.threads == Stored(backend, id).threads && s.disk == Stored(backend, id).disk;
  }

  lemma HandBack(backend: Backend, id: Id, ok: bool)
    ensures GiveBack(Device(backend), Stored(backend, id), 0, At(Stored(backend, id).threads, 0), ok)
            == HandedBack(backend, id, ok)
  {
    var s := GiveBack(Device(backend), Stored(backend, id), 0, At(Stored(backend, id).threads, 0), ok);
    assert s.zsm == HandedBack(backend, id, ok).zsm && s.threads == HandedBack(backend, id, ok).threads;
  }

  lemma PublishLast(backend: Backend, id: Id, ok: bool)
    ensures var p := Returned(id, PLACE, WriteBuffer(id, BUFFER));
            var q := Listed(id, PLACE, WriteBuffer(id, BUFFER));
            Publish(List(Device(backend), HandedBack(backend, id, ok), 0, p), 0, q) == Committed(backend, id, ok)
  {
    var p, q := Returned(id, PLACE, WriteBuffer(id, BUFFER)), Listed(id, PLACE, WriteBuffer(id, BUFFER));
    var s := List(Device(backend), HandedBack(backend, id, ok), 0, p);
    assert s.threads == map[0 := q];
    assert s.lru == Committed(backend, id, ok).lru && s.uses == [Lru.Filled(0)];
    var s' := Publish(s, 0, q);
    assert s'.threads == map[0 := Idle] && s'.cm == Committed(backend, id, ok).cm;
  }

  lemma CommitLast(backend: Backend, id: Id, ok: bool)
    ensures Apply(Device(backend), Stored(backend, id), Commit(0, ok)) == Committed(backend, id, ok)
  {
    HandBack(backend, id, ok);
    PublishLast(backend, id, ok);
  }

  lemma StoredRun(backend: Backend, id: Id)
    ensures Exec(Device(backend), Fill(id, true)[..3] + [WriteDisk(0, true)]) == Stored(backend, id)
  {
    StartFill(backend, id);
    Store(backend, id);
    OneStepMore(Device(backend), Fill(id, true)[..3], WriteDisk(0, true));
  }

  lemma EndOfFill(backend: Backend, id: Id, ok: bool)
    ensures Exec(Device(backend), Fill(id, ok)) == Committed(backend, id, ok)
  {
    var cfg, start := Device(backend), Fill(id, ok)[..3];
    assert start == Fill(id, true)[..3];
    StoredRun(backend, id);
    CommitLast(backend, id, ok);
    OneStepMore(cfg, start + [WriteDisk(0, true)], Commit(0, ok));
    assert start + [WriteDisk(0, true)] + [Commit(0, ok)] == Fill(id, ok);
  }

  ghost function Taken(backend: Backend, id: Id, ok: bool): State {
    Committed(backend, id, ok).(
      lru := LruQueue([], map[0 := None], 1), uses := [Lru.Filled(0), Lru.Popped(0)],
      threads := map[0 := Idle, 9 := Clearing(0, None)])
  }

  ghost function Started(backend: Backend, id: Id, ok: bool): State {
    Committed(backend, id, ok).(threads := map[0 := Idle, 9 := Evicting(None)])
  }

  lemma Start9(backend: Backend, id: Id, ok: bool)
    ensures Apply(Device(backend), Committed(backend, id, ok), StartEvict(9)) == Started(backend, id, ok)
  {
    var s := Apply(Device(backend), Committed(backend, id, ok), StartEvict(9));
    assert s.threads == Started(backend, id, ok).threads;
  }

  lemma Pop9(backend: Backend, id: Id, ok: bool)
    ensures Apply(Device(backend), Started(backend, id, ok), PopVictim(9)) == Taken(backend, id, ok)
  {
    var s := Apply(Device(backend), Started(backend, id, ok), PopVictim(9));
    assert s.threads == Taken(backend, id, ok).threads && s.lru == Taken(backend, id, ok).lru;
  }

  lemma Take(backend: Backend, id: Id, ok: bool)
    ensures Exec(Device(backend), Fill(id, ok) + CLEAR[..2]) == Taken(backend, id, ok)
  {
    var cfg, fill := Device(backend), Fill(id, ok);
    EndOfFill(backend, id, ok);
    Start9(backend, id, ok);
    Pop9(backend, id, ok);
    OneStepMore(cfg, fill, StartEvict(9));
    OneStepMore(cfg, fill + [StartEvict(9)], PopVictim(9));
    assert fill + [StartEvict(9)] + [PopVictim(9)] == fill + CLEAR[..2];
  }

  ghost function Emptied(backend: Backend, id: Id, ok: bool): State {
    Taken(backend, id, ok).(cm := CMap(map[], [map[]], [0], map[], 1),
                            threads := map[0 := Idle, 9 := Draining(0, None)])
  }

  lemma Clear9(backend: Backend, id: Id, ok: bool)
    ensures var s := Apply(Device(backend), Taken(backend, id, ok), ClearZone(9));
            if id < HALF_WORD then s == Emptied(backend, id, ok) else s.aborted
  {
    var m := Taken(backend, id, ok).cm;
    assert m.dataMap[0] == map[0 := id] && 0 in m.dataMap[0];
    assert ClearableAt(m, 0, 0) <==> id < HALF_WORD;
    assert ClearZoneOk(m, 0) <==> ClearableAt(m, 0, 0);
    if id < HALF_WORD {
      assert (set c | c in m.dataMap[0] :: SignedKey(m.dataMap[0][c])) == {id};
      assert C.ClearZone(m, 0) == Emptied(backend, id, ok).cm;
      var s' := Apply(Device(backend), Taken(backend, id, ok), ClearZone(9));
      assert s'.threads == Emptied(backend, id, ok).threads;
    }
  }

  /** Clearing the zone fails an assertion exactly if the identifier does not fit in an `int`. */
  lemma Clear1(backend: Backend, id: Id, ok: bool)
    ensures var s := Exec(Device(backend), Fill(id, ok) + CLEAR);
            if id < HALF_WORD then s == Emptied(backend, id, ok) else s.aborted
  {
    Take(backend, id, ok);
    Clear9(backend, id, ok);
    OneStepMore(Device(backend), Fill(id, ok) + CLEAR[..2], ClearZone(9));
    assert Fill(id, ok) + CLEAR[..2] + [ClearZone(9)] == Fill(id, ok) + CLEAR;
  }

  ghost function Drained(backend: Backend, id: Id, ok: bool): State {
    Emptied(backend, id, ok).(threads := map[0 := Idle, 9 := Resetting(0, None)])
  }

  lemma Drain9(backend: Backend, id: Id, ok: bool)
    ensures Apply(Device(backend), Emptied(backend, id, ok), PassDrain(9)) == Drained(backend, id, ok)
  {
    assert Apply(Device(backend), Emptied(backend, id, ok), PassDrain(9)).threads == Drained(backend, id, ok).threads;
  }

  lemma Reset9(backend: Backend, id: Id, ok: bool, resetOk: bool)
    ensures Apply(Device(backend), Drained(backend, id, ok), ResetZone(9, resetOk)).aborted
            <==> backend.Zns? && (!ok || !resetOk)
  {
  }

  lemma Finish1(backend: Backend, id: Id, ok: bool, resetOk: bool)
    requires id < HALF_WORD
    ensures Exec(Device(backend), Fill(id, ok) + CLEAR + Finish(resetOk)).aborted
            <==> backend.Zns? && (!ok || !resetOk)
  {
    var cfg, run := Device(backend), Fill(id, ok) + CLEAR;
    Clear1(backend, id, ok);
    Drain9(backend, id, ok);
    Reset9(backend, id, ok, resetOk);
    OneStepMore(cfg, run, PassDrain(9));
    OneStepMore(cfg, run + [PassDrain(9)], ResetZone(9, resetOk));
    assert run + [PassDrain(9)] + [ResetZone(9, resetOk)] == run + Finish(resetOk);
  }

  /** Every device command succeeds, and evicting identifier 2^31 fails an assertion. */
  lemma UpperHalfAborts()
    ensures DeviceSucceeds(Device(Block), Fill(HALF_WORD, true) + CLEAR)
    ensures Exec(Device(Block), Fill(HALF_WORD, true) + CLEAR).aborted
  {
    Clear1(Block, HALF_WORD, true);
  }

  /** The device fails only to finish the zone, and its later reset fails an assertion. */
  lemma UnfinishedAborts()
    ensures SmallIds(Fill(1, false) + CLEAR + Finish(true))
    ensures Exec(Device(Zns), Fill(1, false) + CLEAR + Finish(true)).aborted
  {
    Finish1(Zns, 1, false, true);
  }

  /** The device fails only to reset the zone, which fails an assertion. */
  lemma FailedResetAborts()
    ensures SmallIds(Fill(1, true) + CLEAR + Finish(false))
    ensures Exec(Device(Zns), Fill(1, true) + CLEAR + Finish(false)).aborted
  {
    Finish1(Zns, 1, true, false);
  }

  /** The device fails to open the only zone, which is in no place ever after. */
  lemma FailedOpenLoses(more: seq<Step>)
    ensures Gone(Exec(Device(Zns), [LookupStep(0, 1), Allocate(0, false)] + more).zsm, 0)
  {
    var cfg, steps := Device(Zns), [LookupStep(0, 1), Allocate(0, false)];
    var s0 := Protocol.Init(cfg);
    assert s0.zsm == Zsm([Zone(Free, 0)], [], [0], 0);
    OneStepMore(cfg, [], LookupStep(0, 1));
    assert (steps + more)[..1] == [] + [LookupStep(0, 1)] && (steps + more)[1] == Allocate(0, false);
    assert OpenFailsAt(cfg, steps + more, 1, 0);
    FailuresExactly(cfg, steps + more, 0);
  }
}
