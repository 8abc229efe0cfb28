/** The promotional eviction policy: full zones in order of use. */
module Promotional {
  import opened ZnTypes
  import opened Lru

  predicate UpdateOk(l: LruQueue<nat>, loc: Loc, io: Io) {
    io.Read? ==> TouchOk(l, loc.zone)
  }

  /** A write of a zone's last chunk enters the zone; a read moves its zone to the tail if the
      zone is still in the queue. */
  function Update(l: LruQueue<nat>, maxChunks: nat, loc: Loc, io: Io): LruQueue<nat>
    requires UpdateOk(l, loc, io)
  {
    match io
    case Write => if loc.chunk + 1 == maxChunks then PushTail(l, loc.zone) else l
    case Read => Touch(l, loc.zone)
  }

  /** The use an update amounts to, if any. */
  function UseOf(maxChunks: nat, loc: Loc, io: Io): seq<Use<nat>> {
    match io
    case Write => if loc.chunk + 1 == maxChunks then [Filled(loc.zone)] else []
    case Read => [Touched(loc.zone)]
  }

  /** The queue is well linked and sorted by the last use in the history `h`. */
  ghost predicate Tracks(l: LruQueue<nat>, h: seq<Use<nat>>) {
    Inv(l) && Ordered(l, h)
  }

  lemma UpdateTracks(l: LruQueue<nat>, h: seq<Use<nat>>, maxChunks: nat, loc: Loc, io: Io)
    requires Tracks(l, h)
    requires io.Write? && loc.chunk + 1 == maxChunks ==> !InQueue(l, loc.zone)
    ensures UpdateOk(l, loc, io)
    ensures Tracks(Update(l, maxChunks, loc, io), h + UseOf(maxChunks, loc, io))
    ensures forall z :: InQueue(Update(l, maxChunks, loc, io), z) <==>
              InQueue(l, z) || (io.Write? && loc.chunk + 1 == maxChunks && z == loc.zone)
  {
    match io {
      case Write =>
        if loc.chunk + 1 == maxChunks {
          PushTailKeepsInv(l, loc.zone);
          OrderedAfterFill(l, h, loc.zone);
        } else {
          assert h + [] == h;
        }
      case Read =>
        TouchKeepsInv(l, loc.zone);
        OrderedAfterTouch(l, h, loc.zone);
    }
  }

  lemma PopTracks(l: LruQueue<nat>, h: seq<Use<nat>>)
    requires Tracks(l, h) && l.queue != []
    ensures Tracks(PopHead(l), h + [Popped(l.queue[0].key)])
    ensures InQueue(l, l.queue[0].key)
    ensures forall z :: InQueue(PopHead(l), z) <==> InQueue(l, z) && z != l.queue[0].key
  {
    PopHeadKeepsInv(l);
    OrderedAfterPop(l, h);
  }

  // ---------- The object ----------

  class PromotionalPolicy {
    const zoneMaxChunks: nat
    var lruQueue: seq<Link<nat>>
    var zoneToLru: map<nat, Option<nat>>
    var nextNode: nat
    /** Everything the policy was told and every zone it gave up. */
    ghost var uses: seq<Use<nat>>

    ghost function Abs(): LruQueue<nat>
      reads this
    {
      LruQueue(lruQueue, zoneToLru, nextNode)
    }

    ghost predicate Valid()
      reads this
    {
      Tracks(Abs(), uses)
    }

    constructor (zoneMaxChunks: nat)
      ensures Valid() && Abs() == EMPTY && uses == [] && this.zoneMaxChunks == zoneMaxChunks
    {
      this.zoneMaxChunks := zoneMaxChunks;
      lruQueue := [];
      zoneToLru := map[];
      nextNode := 0;
      uses := [];
    }

    method PushZone(z: nat)
      modifies this`lruQueue, this`zoneToLru, this`nextNode
      ensures Abs() == PushTail(old(Abs()), z)
    {
      lruQueue := lruQueue + [Link(nextNode, z)];
      zoneToLru := zoneToLru[z := Some(nextNode)];
      nextNode := nextNode + 1;
    }

    /** Unlink the node of a zone, if it has one, and append a new one carrying the same data. */
    method MoveToTail(z: nat)
      requires Lru.Inv(Abs())
      modifies this`lruQueue, this`zoneToLru, this`nextNode
      ensures old(TouchOk(Abs(), z)) && Abs() == Touch(old(Abs()), z)
    {
      ghost var before := Abs();
      TouchKeepsInv(before, z);
      if z in zoneToLru && zoneToLru[z].Some? {
        var node := IndexOf(lruQueue, zoneToLru[z].value);
        var data := lruQueue[node].key;
        lruQueue := lruQueue[..node] + lruQueue[node + 1..];
        ghost var i := TouchMoves(before, z);
        assert data == z by {
          assert before.queue[i].handle == before.queue[node].handle;
        }
        PushZone(data);
      }
    }

    method UpdatePolicy(loc: Loc, io: Io)
      requires Valid()
      requires io.Write? && loc.chunk + 1 == zoneMaxChunks ==> !InQueue(Abs(), loc.zone)
      modifies this
      ensures Valid() && old(UpdateOk(Abs(), loc, io)) && Abs() == Update(old(Abs()), zoneMaxChunks, loc, io)
      ensures uses == old(uses) + UseOf(zoneMaxChunks, loc, io)
    {
      UpdateTracks(Abs(), uses, zoneMaxChunks, loc, io);
      uses := uses + UseOf(zoneMaxChunks, loc, io);
      if io.Write? && loc.chunk == zoneMaxChunks - 1 {
        PushZone(loc.zone);
      } else if io.Read? {
        MoveToTail(loc.zone);
      }
    }

    /** Give up the zone used longest ago, if there is one. */
    method GetZoneToEvict() returns (zone: Option<nat>)
      requires Valid()
      modifies this
      ensures Valid()
      ensures zone.None? <==> old(lruQueue) == []
      ensures zone.None? ==> Abs() == old(Abs()) && uses == old(uses)
      ensures zone.Some? ==> zone.value == old(lruQueue)[0].key && Abs() == PopHead(old(Abs()))
      ensures zone.Some? ==> uses == old(uses) + [Popped(zone.value)] && LastUse(old(uses), zone.value).Some?
      ensures zone.Some? ==>
                forall z :: z != zone.value && LastUse(old(uses), z).Some? ==>
                  LastUse(old(uses), zone.value).value < LastUse(old(uses), z).value
    {
      if |lruQueue| == 0 {
        return None;
      }
      PopTracks(Abs(), uses);
      forall z | z != lruQueue[0].key && LastUse(uses, z).Some?
        ensures LastUse(uses, lruQueue[0].key).Some?
        ensures LastUse(uses, lruQueue[0].key).value < LastUse(uses, z).value
      {
        HeadIsOldest(Abs(), uses, z);
      }
      var z := lruQueue[0].key;
      lruQueue := lruQueue[1..];
      zoneToLru := zoneToLru[z := None];
      uses := uses + [Popped(z)];
      zone := Some(z);
    }
  }
}
