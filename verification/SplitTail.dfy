/** Why the tail of a miss must not be interrupted: a run in which an evictor takes the zone between
    the policy's update and the insertion, and a later hit returns another identifier's bytes. */
module SplitTail {
  import opened ZnTypes
  import opened Protocol
  import opened L = Lru
  import opened Z = ZoneState
  import opened C = CacheMap
  import opened Buffers
  import opened FineRuns

  /** One zone of one chunk on a zoned device. */
  const CFG := Config(1, 1, 1, Zns)

  const BUFFER: Data := [0, 0, 0, 0]

  const CHUNK := Loc(0, 0)

  function Bytes(id: Id): Data {
    WriteBuffer(id, BUFFER)
  }

  /** The state with everything that stays constant between the stages of the run filled in. */
  ghost function Stage(zone: Zone, free: seq<nat>, zoneMap: map<int, Entry>, index: map<nat, Id>,
                       conds: map<nat, Cond>, nextCond: nat, lru: LruQueue<nat>, disk: map<Loc, Data>,
                       threads: map<Tid, Phase>, uses: seq<Use<nat>>, lastGen: map<Id, Data>): State {
    State(Zsm([zone], [], free, 0), CMap(zoneMap, [index], [0], conds, nextCond), lru, disk, threads, false,
          uses, lastGen, [])
  }

  /** Thread 0 has filled identifier 1 and told the policy, but not yet inserted the location. */
  ghost function Filled1(): State {
    Stage(Zone(Full, 0), [], map[1 := Pending(0)], map[], map[0 := Cond(1, {}, 1, 0)], 1,
          LruQueue([Link(0, 0)], map[0 := Some(0)], 1), map[CHUNK := Bytes(1)],
          map[0 := Listed(1, CHUNK, Bytes(1))], [Filled(0)], map[1 := Bytes(1)])
  }

  /** The run `steps` reaches the state `s`. */
  ghost predicate Reaches(steps: seq<Step>, s: State) {
    Exec(CFG, steps) == s
  }

  /** One step after another. */
  lemma Extend3(steps: seq<Step>, s: State, x: Step, s1: State, y: Step, s2: State, z: Step)
    requires Reaches(steps, s) && s1 == Apply(CFG, s, x) && s2 == Apply(CFG, s1, y)
    ensures Reaches(steps + [x, y, z], Apply(CFG, s2, z))
  {
    OneStepMore(CFG, steps, x);
    OneStepMore(CFG, steps + [x], y);
    OneStepMore(CFG, steps + [x] + [y], z);
    assert steps + [x, y, z] == steps + [x] + [y] + [z];
  }

  const FILL: seq<Step> := [LookupStep(0, 1), Allocate(0, true), Generate(0, BUFFER)]

  const STORE: seq<Step> := [WriteDisk(0, true), ReturnZone(0, true), ListZone(0)]

  const VICTIM: seq<Step> := [StartEvict(9), PopVictim(9), ClearZone(9)]

  const EVICT: seq<Step> := [PassDrain(9), ResetZone(9, true), InsertEntry(0)]

  const REFILL: seq<Step> := [LookupStep(1, 2), Allocate(1, true), Generate(1, BUFFER)]

  const RESTORE: seq<Step> := [WriteDisk(1, true), ReturnZone(1, true), ListZone(1)]

  const ASK: seq<Step> := [InsertEntry(1), LookupStep(2, 1), ReadDisk(2, true)]

  const ANSWER: seq<Step> := [Promote(2), DropReader(2)]

  ghost function Filling1(): State {
    Stage(Zone(WriteOccurring, 0), [], map[1 := Pending(0)], map[], map[0 := Cond(1, {}, 1, 0)], 1,
          EMPTY, map[], map[0 := Writing(1, CHUNK, Bytes(1))], [], map[1 := Bytes(1)]).(
            zsm := Zsm([Zone(WriteOccurring, 0)], [], [], 1))
  }

  lemma FillRuns()
    ensures Reaches(FILL, Filling1())
  {
    var s0 := Protocol.Init(CFG);
    assert s0.zsm == Zsm([Zone(Free, 0)], [], [0], 0);
    assert s0.cm == CMap(map[], [map[]], [0], map[], 0);
    var s1 := Apply(CFG, s0, FILL[0]);
    assert s1.threads == map[0 := Allocating(1)];
    assert s1.cm == CMap(map[1 := Pending(0)], [map[]], [0], map[0 := Cond(1, {}, 1, 0)], 1);
    var s2 := Apply(CFG, s1, FILL[1]);
    assert s2.threads == map[0 := Allocated(1, CHUNK)];
    assert s2.zsm == Zsm([Zone(WriteOccurring, 0)], [], [], 1);
    var s3 := Apply(CFG, s2, FILL[2]);
    assert s3.threads == map[0 := Writing(1, CHUNK, Bytes(1))];
    Extend3([], s0, FILL[0], s1, FILL[1], s2, FILL[2]);
    assert [] + [FILL[0], FILL[1], FILL[2]] == FILL;
  }

  ghost function Returned1(): State {
    Filling1().(zsm := Zsm([Zone(Full, 0)], [], [], 0), disk := map[CHUNK := Bytes(1)],
                threads := map[0 := Returned(1, CHUNK, Bytes(1))])
  }

  lemma StoreReturns()
    ensures Apply(CFG, Apply(CFG, Filling1(), STORE[0]), STORE[1]) == Returned1()
  {
    var s1 := Apply(CFG, Filling1(), STORE[0]);
    assert s1.threads == map[0 := Protocol.Written(1, CHUNK, Bytes(1))];
    assert s1.disk == Returned1().disk;
    var s2 := Apply(CFG, s1, STORE[1]);
    assert s2.threads == Returned1().threads && s2.zsm == Returned1().zsm;
  }

  lemma StoreLists()
    ensures Apply(CFG, Returned1(), STORE[2]) == Filled1()
  {
    var s3 := Apply(CFG, Returned1(), STORE[2]);
    assert s3.lru == LruQueue([Link(0, 0)], map[0 := Some(0)], 1);
    assert s3.threads == map[0 := Listed(1, CHUNK, Bytes(1))];
  }

  lemma StoreRuns(steps: seq<Step>)
    requires Reaches(steps, Filling1())
    ensures Reaches(steps + STORE, Filled1())
  {
    StoreReturns();
    StoreLists();
    Extend3(steps, Filling1(), STORE[0], Apply(CFG, Filling1(), STORE[0]), STORE[1], Returned1(), STORE[2]);
  }

  /** The zone was taken from the policy and the map cleared of it, which had nothing to clear. */
  ghost function Cleared1(): State {
    Filled1().(lru := LruQueue([], map[0 := None], 1), uses := [Filled(0), Popped(0)],
               threads := map[0 := Listed(1, CHUNK, Bytes(1)), 9 := Draining(0, None)])
  }

  ghost function Popped1(): State {
    Cleared1().(threads := map[0 := Listed(1, CHUNK, Bytes(1)), 9 := Clearing(0, None)])
  }

  lemma VictimPops()
    ensures Apply(CFG, Apply(CFG, Filled1(), VICTIM[0]), VICTIM[1]) == Popped1()
  {
    var l := Listed(1, CHUNK, Bytes(1));
    var s1 := Apply(CFG, Filled1(), VICTIM[0]);
    assert s1.threads == map[0 := l, 9 := Evicting(None)];
    var s2 := Apply(CFG, s1, VICTIM[1]);
    assert s2.threads == map[0 := l, 9 := Clearing(0, None)];
    assert s2.lru == LruQueue([], map[0 := None], 1);
  }

  lemma VictimClears()
    ensures Apply(CFG, Popped1(), VICTIM[2]) == Cleared1()
  {
    var s' := Apply(CFG, Popped1(), VICTIM[2]);
    assert s'.threads == Cleared1().threads;
    assert s'.cm == Popped1().cm;
  }

  lemma VictimRuns(steps: seq<Step>)
    requires Reaches(steps, Filled1())
    ensures Reaches(steps + VICTIM, Cleared1())
  {
    VictimPops();
    VictimClears();
    Extend3(steps, Filled1(), VICTIM[0], Apply(CFG, Filled1(), VICTIM[0]), VICTIM[1], Popped1(), VICTIM[2]);
  }

  /** Identifier 1 is mapped to a chunk of a zone that is free. */
  ghost function Stale(): State {
    Stage(Zone(Free, 0), [0], map[1 := Located(CHUNK)], map[0 := 1], map[], 1,
          LruQueue([], map[0 := None], 1), map[],
          map[0 := Idle, 9 := Evicting(None)], [Filled(0), Popped(0)], map[1 := Bytes(1)])
  }

  ghost function Evicted1(): State {
    Cleared1().(zsm := Zsm([Zone(Free, 0)], [], [0], 0), disk := map[],
                threads := map[0 := Listed(1, CHUNK, Bytes(1)), 9 := Evicting(None)])
  }

  lemma EvictResets()
    ensures Apply(CFG, Apply(CFG, Cleared1(), EVICT[0]), EVICT[1]) == Evicted1()
  {
    var l := Listed(1, CHUNK, Bytes(1));
    var s1 := Apply(CFG, Cleared1(), EVICT[0]);
    assert s1.threads == map[0 := l, 9 := Resetting(0, None)];
    var s2 := Apply(CFG, s1, EVICT[1]);
    assert s2.threads == map[0 := l, 9 := Evicting(None)];
    assert s2.disk == map[];
    assert s2.zsm == Zsm([Zone(Free, 0)], [], [0], 0);
  }

  lemma EvictInserts()
    ensures Apply(CFG, Evicted1(), EVICT[2]) == Stale()
  {
    var s' := Apply(CFG, Evicted1(), EVICT[2]);
    assert s'.threads == Stale().threads;
    assert s'.cm == Stale().cm;
  }

  lemma EvictRuns(steps: seq<Step>)
    requires Reaches(steps, Cleared1())
    ensures Reaches(steps + EVICT, Stale())
  {
    EvictResets();
    EvictInserts();
    Extend3(steps, Cleared1(), EVICT[0], Apply(CFG, Cleared1(), EVICT[0]), EVICT[1], Evicted1(), EVICT[2]);
  }

  ghost function Filling2(): State {
    Stale().(zsm := Zsm([Zone(WriteOccurring, 0)], [], [], 1),
             cm := CMap(map[1 := Located(CHUNK), 2 := Pending(1)], [map[0 := 1]], [0], map[1 := Cond(1, {}, 2, 1)], 2),
             threads := map[0 := Idle, 1 := Writing(2, CHUNK, Bytes(2)), 9 := Evicting(None)],
             lastGen := map[1 := Bytes(1), 2 := Bytes(2)])
  }

  ghost function Looked(): State {
    Stale().(cm := Filling2().cm, threads := map[0 := Idle, 1 := Allocating(2), 9 := Evicting(None)])
  }

  lemma RefillLooks()
    ensures Apply(CFG, Stale(), REFILL[0]) == Looked()
  {
    var s1 := Apply(CFG, Stale(), REFILL[0]);
    assert s1.threads == Looked().threads && s1.cm == Looked().cm;
  }

  ghost function Allocated2(): State {
    Looked().(zsm := Filling2().zsm, threads := map[0 := Idle, 1 := Allocated(2, CHUNK), 9 := Evicting(None)])
  }

  lemma RefillTakes()
    ensures Apply(CFG, Looked(), REFILL[1]) == Allocated2()
  {
    var s2 := Apply(CFG, Looked(), REFILL[1]);
    assert s2.threads == Allocated2().threads && s2.zsm == Filling2().zsm;
  }

  lemma RefillGenerates()
    ensures Apply(CFG, Allocated2(), REFILL[2]) == Filling2()
  {
    var s3 := Apply(CFG, Allocated2(), REFILL[2]);
    assert s3.threads == Filling2().threads;
  }

  lemma RefillRuns(steps: seq<Step>)
    requires Reaches(steps, Stale())
    ensures Reaches(steps + REFILL, Filling2())
  {
    RefillLooks();
    RefillTakes();
    RefillGenerates();
    Extend3(steps, Stale(), REFILL[0], Looked(), REFILL[1], Allocated2(), REFILL[2]);
  }

  ghost function Filled2(): State {
    Filling2().(zsm := Zsm([Zone(Full, 0)], [], [], 0), disk := map[CHUNK := Bytes(2)],
                lru := LruQueue([Link(1, 0)], map[0 := Some(1)], 2), uses := [Filled(0), Popped(0), Filled(0)],
                threads := map[0 := Idle, 1 := Listed(2, CHUNK, Bytes(2)), 9 := Evicting(None)])
  }

  ghost function Stored2(): State {
    Filling2().(disk := map[CHUNK := Bytes(2)],
                threads := map[0 := Idle, 1 := Protocol.Written(2, CHUNK, Bytes(2)), 9 := Evicting(None)])
  }

  ghost function Returned2(): State {
    Stored2().(zsm := Zsm([Zone(Full, 0)], [], [], 0),
               threads := map[0 := Idle, 1 := Returned(2, CHUNK, Bytes(2)), 9 := Evicting(None)])
  }

  lemma RestoreStores()
    ensures Apply(CFG, Filling2(), RESTORE[0]) == Stored2()
  {
    var s1 := Apply(CFG, Filling2(), RESTORE[0]);
    assert s1.threads == Stored2().threads && s1.disk == Stored2().disk;
  }

  lemma RestoreReturns()
    ensures Apply(CFG, Stored2(), RESTORE[1]) == Returned2()
  {
    var s2 := Apply(CFG, Stored2(), RESTORE[1]);
    assert s2.threads == Returned2().threads && s2.zsm == Returned2().zsm;
  }

  lemma RestoreLists()
    ensures Apply(CFG, Returned2(), RESTORE[2]) == Filled2()
  {
    var s3 := Apply(CFG, Returned2(), RESTORE[2]);
    assert s3.lru == Filled2().lru && s3.threads == Filled2().threads;
  }

  lemma RestoreRuns(steps: seq<Step>)
    requires Reaches(steps, Filling2())
    ensures Reaches(steps + RESTORE, Filled2())
  {
    RestoreStores();
    RestoreReturns();
    RestoreLists();
    Extend3(steps, Filling2(), RESTORE[0], Stored2(), RESTORE[1], Returned2(), RESTORE[2]);
  }

  /** Identifier 1 still leads to the chunk, and a reader finds the second identifier's bytes there. */
  lemma AskFinds()
    ensures var s := Apply(CFG, Apply(CFG, Filled2(), ASK[0]), ASK[1]);
            && At(s.threads, 2) == Reading(1, CHUNK, Bytes(1)) && s.disk == map[CHUNK := Bytes(2)]
            && !s.aborted && s.hits == [] && s.lru == Filled2().lru && |s.cm.readers| == 1
  {
    var s1 := Apply(CFG, Filled2(), ASK[0]);
    assert s1.threads == Filled2().threads[1 := Idle];
    assert 1 in s1.cm.zoneMap && s1.cm.zoneMap[1] == Located(CHUNK);
    var s2 := Apply(CFG, s1, ASK[1]);
    assert At(s2.threads, 2) == Reading(1, CHUNK, Bytes(1));
  }

  /** The one chunk holds the second identifier's bytes, and thread 2 has read it for the first. */
  lemma AskReads(s: State)
    requires At(s.threads, 2) == Reading(1, CHUNK, Bytes(1)) && s.disk == map[CHUNK := Bytes(2)] && !s.aborted
    ensures var s' := Apply(CFG, s, ASK[2]);
            && At(s'.threads, 2) == HaveRead(1, CHUNK, Bytes(1), Some(Bytes(2)))
            && !s'.aborted && s'.hits == s.hits && s'.lru == s.lru && s'.cm == s.cm
  {
  }

  lemma AskRuns(steps: seq<Step>)
    requires Reaches(steps, Filled2())
    ensures var s := Exec(CFG, steps + ASK);
            && At(s.threads, 2) == HaveRead(1, CHUNK, Bytes(1), Some(Bytes(2)))
            && !s.aborted && s.hits == [] && s.lru == Filled2().lru && |s.cm.readers| == 1
  {
    AskFinds();
    var s1 := Apply(CFG, Filled2(), ASK[0]);
    var s2 := Apply(CFG, s1, ASK[1]);
    AskReads(s2);
    Extend3(steps, Filled2(), ASK[0], s1, ASK[1], s2, ASK[2]);
  }

  lemma AnswerRuns(steps: seq<Step>, s: State)
    requires Reaches(steps, s)
    requires At(s.threads, 2) == HaveRead(1, CHUNK, Bytes(1), Some(Bytes(2)))
    requires !s.aborted && s.hits == [] && s.lru == Filled2().lru && |s.cm.readers| == 1
    ensures Exec(CFG, steps + ANSWER).hits == [HitRecord(1, Bytes(2), Bytes(1))]
  {
    assert Linked(s.lru.queue, 1) by {
      assert s.lru.queue[0].handle == 1;
    }
    var s1 := Apply(CFG, s, ANSWER[0]);
    assert At(s1.threads, 2) == Promoted(1, CHUNK, Bytes(1), Some(Bytes(2)));
    OneStepMore(CFG, steps, ANSWER[0]);
    OneStepMore(CFG, steps + [ANSWER[0]], ANSWER[1]);
    assert steps + ANSWER == steps + [ANSWER[0]] + [ANSWER[1]];
  }

  const STALE_RUN: seq<Step> := FILL + STORE + VICTIM + EVICT + REFILL + RESTORE + ASK + ANSWER

  lemma StaleRunIsClean()
    ensures DeviceSucceeds(CFG, STALE_RUN) && SmallIds(STALE_RUN)
  {
  }

  lemma StaleRunHits()
    ensures Exec(CFG, STALE_RUN).hits == [HitRecord(1, Bytes(2), Bytes(1))]
  {
    FillRuns();
    StoreRuns(FILL);
    VictimRuns(FILL + STORE);
    EvictRuns(FILL + STORE + VICTIM);
    RefillRuns(FILL + STORE + VICTIM + EVICT);
    RestoreRuns(FILL + STORE + VICTIM + EVICT + REFILL);
    var steps := FILL + STORE + VICTIM + EVICT + REFILL + RESTORE;
    AskRuns(steps);
    AnswerRuns(steps + ASK, Exec(CFG, steps + ASK));
  }

  /** Although every device command succeeds and no assertion fails, the request for identifier 1 is
      answered with the bytes of identifier 2. */
  lemma StaleHit()
    ensures DeviceSucceeds(CFG, STALE_RUN) && SmallIds(STALE_RUN) && !Exec(CFG, STALE_RUN).aborted
    ensures Exec(CFG, STALE_RUN).hits == [HitRecord(1, Bytes(2), Bytes(1))]
    ensures !Validates(Bytes(2), 1, BUFFER)
  {
    StaleRunHits();
    StaleRunIsClean();
    NoAssertionFails(CFG, STALE_RUN);
    ValidatesExactly(Bytes(2), 1, BUFFER);
    assert Bytes(1)[0] != Bytes(2)[0];
  }
}
