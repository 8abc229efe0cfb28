/** The disk: where chunks are, and the loops that move a chunk's bytes. */
module Disk {
  import opened ZnTypes
  import opened Buffers

  const WRITE_GRANULARITY := 4096

  /** One past the largest `uint64_t`. */
  const ADDRESSES := 0x1_0000_0000_0000_0000

  datatype Geometry = Geometry(numZones: nat, zoneSize: nat, zoneCap: nat, chunkSize: nat) {
    ghost predicate Valid() {
      && 1 <= chunkSize <= zoneCap <= zoneSize
      && chunkSize % WRITE_GRANULARITY == 0
      && zoneSize * numZones <= ADDRESSES
    }

    function MaxChunks(): nat
      requires chunkSize > 0
    {
      zoneCap / chunkSize
    }

    predicate Holds(loc: Loc)
      requires chunkSize > 0
    {
      loc.zone < numZones && loc.chunk < MaxChunks()
    }
  }

  /** The address of a chunk, in 64-bit arithmetic. */
  function ChunkPointer(g: Geometry, loc: Loc): nat {
    (g.zoneSize * loc.zone % ADDRESSES + loc.chunk * g.chunkSize % ADDRESSES) % ADDRESSES
  }

  lemma MulGrows(a: nat, b: nat, c: nat)
    requires a <= b
    ensures a * c <= b * c
  {
  }

  lemma Fits(a: nat, b: nat, n: nat)
    requires b > 0 && n < a / b
    ensures (n + 1) * b <= a
  {
    MulGrows(n + 1, a / b, b);
  }

  lemma SumFits(a: nat, b: nat)
    requires a + b < ADDRESSES
    ensures (a % ADDRESSES + b % ADDRESSES) % ADDRESSES == a + b
  {
  }

  lemma PlaceFits(g: Geometry, loc: Loc)
    requires g.Valid() && g.Holds(loc)
    ensures loc.chunk * g.chunkSize + g.chunkSize <= g.zoneCap
    ensures g.zoneSize * loc.zone + g.zoneSize == g.zoneSize * (loc.zone + 1) <= g.zoneSize * g.numZones
  {
    Fits(g.zoneCap, g.chunkSize, loc.chunk);
    MulGrows(loc.zone + 1, g.numZones, g.zoneSize);
  }

  /** The address does not wrap around, and the chunk lies within its own zone's capacity. */
  lemma ChunkInOwnZone(g: Geometry, loc: Loc)
    requires g.Valid() && g.Holds(loc)
    ensures ChunkPointer(g, loc) == g.zoneSize * loc.zone + loc.chunk * g.chunkSize
    ensures ChunkPointer(g, loc) + g.chunkSize <= g.zoneSize * loc.zone + g.zoneCap
    ensures g.zoneSize * loc.zone + g.zoneCap <= g.zoneSize * (loc.zone + 1) <= g.zoneSize * g.numZones
  {
    PlaceFits(g, loc);
    SumFits(g.zoneSize * loc.zone, loc.chunk * g.chunkSize);
  }

  lemma {:induction false} EarlierChunk(g: Geometry, a: Loc, b: Loc)
    requires g.Valid() && g.Holds(a) && g.Holds(b)
    requires a.zone < b.zone || (a.zone == b.zone && a.chunk < b.chunk)
    ensures g.zoneSize * a.zone + a.chunk * g.chunkSize + g.chunkSize
            <= g.zoneSize * b.zone + b.chunk * g.chunkSize
  {
    PlaceFits(g, a);
    if a.zone < b.zone {
      MulGrows(a.zone + 1, b.zone, g.zoneSize);
      assert b.chunk * g.chunkSize >= 0;
    } else {
      MulGrows(a.chunk + 1, b.chunk, g.chunkSize);
    }
  }

  /** Different chunks share no byte. */
  lemma ChunksDisjoint(g: Geometry, a: Loc, b: Loc)
    requires g.Valid() && g.Holds(a) && g.Holds(b) && a != b
    ensures || ChunkPointer(g, a) + g.chunkSize <= ChunkPointer(g, b)
            || ChunkPointer(g, b) + g.chunkSize <= ChunkPointer(g, a)
  {
    ChunkInOwnZone(g, a);
    ChunkInOwnZone(g, b);
    if a.zone < b.zone || (a.zone == b.zone && a.chunk < b.chunk) {
      EarlierChunk(g, a, b);
    } else {
      EarlierChunk(g, b, a);
    }
  }

  /** What the disk holds at a chunk. */
  function ChunkAt(g: Geometry, bytes: Data, loc: Loc): (d: Data)
    requires g.Valid() && g.Holds(loc) && |bytes| == g.zoneSize * g.numZones
    ensures |d| == g.chunkSize
  {
    ChunkInOwnZone(g, loc);
    bytes[ChunkPointer(g, loc)..ChunkPointer(g, loc) + g.chunkSize]
  }

  /** `bytes` with `d` over the range at `start`. */
  function Overwrite(bytes: Data, start: nat, d: Data): (r: Data)
    requires start + |d| <= |bytes|
    ensures |r| == |bytes|
  {
    bytes[..start] + d + bytes[start + |d|..]
  }

  /** Writing within one chunk leaves every other chunk as it was; writing all of it replaces it. */
  lemma OverwriteOneChunk(g: Geometry, bytes: Data, loc: Loc, d: Data, other: Loc)
    requires g.Valid() && g.Holds(loc) && g.Holds(other) && |bytes| == g.zoneSize * g.numZones
    requires |d| <= g.chunkSize && ChunkPointer(g, loc) + |d| <= |bytes|
    ensures other != loc ==>
              ChunkAt(g, Overwrite(bytes, ChunkPointer(g, loc), d), other) == ChunkAt(g, bytes, other)
    ensures |d| == g.chunkSize ==> ChunkAt(g, Overwrite(bytes, ChunkPointer(g, loc), d), loc) == d
  {
    var start, p := ChunkPointer(g, loc), ChunkPointer(g, other);
    var after := Overwrite(bytes, start, d);
    ChunkInOwnZone(g, loc);
    ChunkInOwnZone(g, other);
    if other != loc {
      ChunksDisjoint(g, loc, other);
      assert forall i :: p <= i < p + g.chunkSize ==> after[i] == bytes[i];
    }
  }

  /** A block write or the flush after it fails; in the second case the block is on the disk. */
  datatype Failure = Failure(block: nat, landed: bool)

  /** How many of `n` bytes reach the disk. */
  function Reaching(n: nat, failure: Option<Failure>): nat {
    match failure
    case None => n
    case Some(f) =>
      if f.block < n / WRITE_GRANULARITY
      then (f.block + if f.landed then 1 else 0) * WRITE_GRANULARITY
      else n
  }

  lemma ReachingFits(n: nat, failure: Option<Failure>)
    requires n % WRITE_GRANULARITY == 0
    ensures Reaching(n, failure) <= n
  {
  }

  predicate Succeeds(n: nat, failure: Option<Failure>) {
    failure.None? || failure.value.block >= n / WRITE_GRANULARITY
  }

  lemma BlocksFit(n: nat, block: nat)
    requires n % WRITE_GRANULARITY == 0 && block * WRITE_GRANULARITY < n
    ensures block < n / WRITE_GRANULARITY && (block + 1) * WRITE_GRANULARITY <= n
  {
  }

  /** Write `data` at `start`, block by block, stopping at the first failure. Exactly the bytes that
      reach the disk change. */
  method WriteOut(disk: array<byte>, data: Data, start: nat, failure: Option<Failure>) returns (ok: bool)
    requires |data| % WRITE_GRANULARITY == 0 && start + |data| <= disk.Length
    modifies disk
    ensures ok <==> Succeeds(|data|, failure)
    ensures Reaching(|data|, failure) <= |data|
    ensures disk[..] == Overwrite(old(disk[..]), start, data[..Reaching(|data|, failure)])
  {
    ghost var before := disk[..];
    var block := 0;
    while block * WRITE_GRANULARITY < |data|
      invariant block * WRITE_GRANULARITY <= |data|
      invariant failure.Some? ==> block <= failure.value.block || block * WRITE_GRANULARITY >= |data|
      invariant failure.Some? ==> block <= failure.value.block || failure.value.block >= |data| / WRITE_GRANULARITY
      invariant disk[..] == Overwrite(before, start, data[..block * WRITE_GRANULARITY])
      decreases |data| - block * WRITE_GRANULARITY
    {
      BlocksFit(|data|, block);
      var failing := failure.Some? && failure.value.block == block;
      if !failing || failure.value.landed {
        PutBlock(disk, data, start, block, before);
      }
      if failing {
        return false;
      }
      block := block + 1;
    }
    ok := true;
  }

  /** One block reaches the disk. */
  method PutBlock(disk: array<byte>, data: Data, start: nat, block: nat, ghost before: Data)
    requires (block + 1) * WRITE_GRANULARITY <= |data| && start + |data| <= disk.Length == |before|
    requires disk[..] == Overwrite(before, start, data[..block * WRITE_GRANULARITY])
    modifies disk
    ensures disk[..] == Overwrite(before, start, data[..(block + 1) * WRITE_GRANULARITY])
  {
    var from := block * WRITE_GRANULARITY;
    for i: nat := 0 to WRITE_GRANULARITY
      invariant disk[..] == Overwrite(before, start, data[..from + i])
    {
      ghost var was := disk[..];
      disk[start + from + i] := data[from + i];
      assert disk[..] == was[start + from + i := data[from + i]];
      OverwriteOneMore(before, start, data, from + i);
    }
  }

  lemma OverwriteOneMore(bytes: Data, start: nat, data: Data, n: nat)
    requires n < |data| && start + |data| <= |bytes|
    ensures Overwrite(bytes, start, data[..n])[start + n := data[n]] == Overwrite(bytes, start, data[..n + 1])
  {
  }

  /** Other zones' chunks survive. */
  ghost predicate SameOutside(g: Geometry, disk: Data, disk': Data, z: nat)
    requires g.Valid() && |disk| == |disk'| == g.zoneSize * g.numZones
  {
    forall loc :: g.Holds(loc) && loc.zone != z ==> ChunkAt(g, disk', loc) == ChunkAt(g, disk, loc)
  }

  lemma OtherZoneApart(g: Geometry, loc: Loc, z: nat)
    requires g.Valid() && g.Holds(loc) && loc.zone != z
    ensures ChunkPointer(g, loc) + g.chunkSize <= g.zoneSize * z || g.zoneSize * (z + 1) <= ChunkPointer(g, loc)
  {
    ChunkInOwnZone(g, loc);
    if loc.zone < z {
      MulGrows(loc.zone + 1, z, g.zoneSize);
    } else {
      MulGrows(z + 1, loc.zone, g.zoneSize);
    }
  }

  lemma WipeKeepsOthers(g: Geometry, disk: Data, disk': Data, z: nat)
    requires g.Valid() && |disk| == |disk'| == g.zoneSize * g.numZones
    requires forall a: nat :: a < |disk| && !(g.zoneSize * z <= a < g.zoneSize * (z + 1)) ==> disk'[a] == disk[a]
    ensures SameOutside(g, disk, disk', z)
  {
    forall loc | g.Holds(loc) && loc.zone != z
      ensures ChunkAt(g, disk', loc) == ChunkAt(g, disk, loc)
    {
      ChunkInOwnZone(g, loc);
      OtherZoneApart(g, loc, z);
    }
  }

  /** A zoned device forgets what a zone held; a block device is not told. */
  method ResetZone(g: Geometry, disk: array<byte>, backend: Backend, z: nat)
    requires g.Valid() && disk.Length == g.zoneSize * g.numZones && z < g.numZones
    modifies disk
    ensures SameOutside(g, old(disk[..]), disk[..], z)
    ensures backend.Block? ==> disk[..] == old(disk[..])
  {
    if backend.Block? {
      return;
    }
    var from, to := g.zoneSize * z, g.zoneSize * (z + 1);
    MulGrows(z + 1, g.numZones, g.zoneSize);
    MulGrows(z, z + 1, g.zoneSize);
    Wipe(disk, from, to);
    WipeKeepsOthers(g, old(disk[..]), disk[..], z);
  }

  method Wipe(disk: array<byte>, from: nat, to: nat)
    requires from <= to <= disk.Length
    modifies disk
    ensures forall a: nat :: a < disk.Length ==> disk[a] == if from <= a < to then 0 else old(disk[a])
  {
    for a: nat := from to to
      invariant forall b: nat :: b < disk.Length ==> disk[b] == if from <= b < a then 0 else old(disk[b])
    {
      disk[a] := 0;
    }
  }

  /** Read a chunk; a short read gives nothing. */
  method ReadChunk(g: Geometry, disk: array<byte>, loc: Loc, readOk: bool) returns (data: Option<Data>)
    requires g.Valid() && g.Holds(loc) && disk.Length == g.zoneSize * g.numZones
    ensures data == if readOk then Some(ChunkAt(g, disk[..], loc)) else None
  {
    ChunkInOwnZone(g, loc);
    var start := ChunkPointer(g, loc);
    if !readOk {
      return None;
    }
    data := Some(disk[start..start + g.chunkSize]);
  }

  /** Compare the bytes after the identifier one by one. */
  method TailMatches(data: Data, compare: Data) returns (ok: bool)
    requires |data| == |compare| >= ID_BYTES
    ensures ok <==> data[ID_BYTES..] == compare[ID_BYTES..]
  {
    var i := ID_BYTES;
    while i < |data|
      invariant ID_BYTES <= i <= |data|
      invariant forall j :: ID_BYTES <= j < i ==> data[j] == compare[j]
    {
      if data[i] != compare[i] {
        assert data[ID_BYTES..][i - ID_BYTES] != compare[ID_BYTES..][i - ID_BYTES];
        return false;
      }
      i := i + 1;
    }
    ok := true;
  }

  /** A read validates exactly when it is what would be written for the identifier. */
  method ValidateRead(data: Data, id: Id, compare: Data) returns (ok: bool)
    requires |data| == |compare| >= ID_BYTES
    ensures ok <==> Validates(data, id, compare)
    ensures ok <==> data == WriteBuffer(id, compare)
  {
    ValidatesExactly(data, id, compare);
    ok := BytesId(data[..ID_BYTES]) == id;
    if ok {
      ok := TailMatches(data, compare);
    }
  }
}
