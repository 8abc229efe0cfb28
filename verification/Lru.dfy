/** The least-recently-used queue both eviction policies keep: a queue of list nodes and a table
    from key to node, so that a touch can unlink its node in place. */
module Lru {
  import opened ZnTypes

  /** A list node. The handle stands for the node's address. */
  datatype Link<K> = Link(handle: nat, key: K)

  /** `next` is larger than every address handed out so far. */
  datatype LruQueue<K> = LruQueue(queue: seq<Link<K>>, nodeOf: map<K, Option<nat>>, next: nat)

  const EMPTY: LruQueue<nat> := LruQueue([], map[], 0)

  ghost function Keys<K>(l: LruQueue<K>): seq<K> {
    seq(|l.queue|, i requires 0 <= i < |l.queue| => l.queue[i].key)
  }

  /** `key` has a node according to the table. */
  predicate HasNode<K>(l: LruQueue<K>, key: K) {
    key in l.nodeOf && l.nodeOf[key].Some?
  }

  predicate Linked<K>(q: seq<Link<K>>, handle: nat) {
    exists i :: 0 <= i < |q| && q[i].handle == handle
  }

  /** Position of the node at an address; the address must be that of a node still in the queue. */
  function IndexOf<K>(q: seq<Link<K>>, handle: nat): (i: nat)
    requires Linked(q, handle)
    ensures i < |q| && q[i].handle == handle
  {
    if q[0].handle == handle then 0 else
      assert Linked(q[1..], handle) by {
        var j :| 0 <= j < |q| && q[j].handle == handle;
        assert q[1..][j - 1].handle == handle;
      }
      1 + IndexOf(q[1..], handle)
  }

  /** Append a node for `key` and point the table at it. */
  function PushTail<K>(l: LruQueue<K>, key: K): LruQueue<K> {
    LruQueue(l.queue + [Link(l.next, key)], l.nodeOf[key := Some(l.next)], l.next + 1)
  }

  /** Following the table from `key` reaches no freed node. */
  predicate TouchOk<K>(l: LruQueue<K>, key: K) {
    HasNode(l, key) ==> Linked(l.queue, l.nodeOf[key].value)
  }

  /** Unlink the node of `key`, if it has one, and append a new one carrying the same data. */
  function Touch<K>(l: LruQueue<K>, key: K): LruQueue<K>
    requires TouchOk(l, key)
  {
    if HasNode(l, key) then
      var i := IndexOf(l.queue, l.nodeOf[key].value);
      LruQueue(l.queue[..i] + l.queue[i + 1..] + [Link(l.next, l.queue[i].key)],
          l.nodeOf[key := Some(l.next)], l.next + 1)
    else l
  }

  /** Remove the head; its key stays in the table without a node. */
  function PopHead<K>(l: LruQueue<K>): LruQueue<K>
    requires l.queue != []
  {
    LruQueue(l.queue[1..], l.nodeOf[l.queue[0].key := None], l.next)
  }

  /** No dangling node: the table and the queue describe the same set of nodes. */
  ghost predicate Inv<K(!new)>(l: LruQueue<K>) {
    && (forall i, j :: 0 <= i < j < |l.queue| ==> l.queue[i].handle != l.queue[j].handle)
    && (forall i :: 0 <= i < |l.queue| ==>
          && l.queue[i].handle < l.next
          && l.queue[i].key in l.nodeOf
          && l.nodeOf[l.queue[i].key] == Some(l.queue[i].handle))
    && (forall k :: HasNode(l, k) ==> InQueue(l, k))
  }

  ghost predicate InQueue<K>(l: LruQueue<K>, key: K) {
    exists i :: 0 <= i < |l.queue| && l.queue[i].key == key
  }

  lemma PushTailKeepsInv<K(!new)>(l: LruQueue<K>, key: K)
    requires Inv(l) && !InQueue(l, key)
    ensures Inv(PushTail(l, key))
    ensures forall k :: InQueue(PushTail(l, key), k) <==> InQueue(l, k) || k == key
  {
    var m := PushTail(l, key);
    forall i | 0 <= i < |l.queue|
      ensures m.queue[i] == l.queue[i]
    {
    }
    assert m.queue[|l.queue|] == Link(l.next, key);
    forall k
      ensures InQueue(m, k) <==> InQueue(l, k) || k == key
    {
      if InQueue(l, k) {
        var i :| 0 <= i < |l.queue| && l.queue[i].key == k;
        assert m.queue[i].key == k;
      }
    }
  }

  /** A touch moves exactly one key to the tail and leaves the others in their order. */
  lemma TouchMoves<K(!new)>(l: LruQueue<K>, key: K) returns (i: nat)
    requires Inv(l) && HasNode(l, key)
    ensures TouchOk(l, key)
    ensures i < |l.queue| && l.queue[i].key == key
    ensures Touch(l, key).queue == l.queue[..i] + l.queue[i + 1..] + [Link(l.next, key)]
  {
    i := IndexOf(l.queue, l.nodeOf[key].value);
    var j :| 0 <= j < |l.queue| && l.queue[j].key == key;
    assert l.queue[j].handle == l.queue[i].handle;
  }

  /** The queue without its i-th node, whose key stays in the table without a node. */
  ghost function Unlink<K>(l: LruQueue<K>, i: nat): LruQueue<K>
    requires i < |l.queue|
  {
    LruQueue(l.queue[..i] + l.queue[i + 1..], l.nodeOf[l.queue[i].key := None], l.next)
  }

  lemma UnlinkKeepsInv<K(!new)>(l: LruQueue<K>, i: nat)
    requires Inv(l) && i < |l.queue|
    ensures Inv(Unlink(l, i))
    ensures forall k :: InQueue(Unlink(l, i), k) <==> InQueue(l, k) && k != l.queue[i].key
  {
    var m := Unlink(l, i);
    assert forall j :: 0 <= j < i ==> m.queue[j] == l.queue[j];
    assert forall j :: i <= j < |m.queue| ==> m.queue[j] == l.queue[j + 1];
    forall k | InQueue(l, k) && k != l.queue[i].key
      ensures InQueue(m, k)
    {
      var j :| 0 <= j < |l.queue| && l.queue[j].key == k;
      assert m.queue[if j < i then j else j - 1].key == k;
    }
  }

  lemma TouchKeepsInv<K(!new)>(l: LruQueue<K>, key: K)
    requires Inv(l)
    ensures TouchOk(l, key)
    ensures Inv(Touch(l, key))
    ensures forall k :: InQueue(Touch(l, key), k) <==> InQueue(l, k)
  {
    if HasNode(l, key) {
      var i := TouchMoves(l, key);
      UnlinkKeepsInv(l, i);
      PushTailKeepsInv(Unlink(l, i), key);
      assert Touch(l, key) == PushTail(Unlink(l, i), key);
    }
  }

  lemma PopHeadKeepsInv<K(!new)>(l: LruQueue<K>)
    requires Inv(l) && l.queue != []
    ensures Inv(PopHead(l))
    ensures forall k :: InQueue(PopHead(l), k) <==> InQueue(l, k) && k != l.queue[0].key
  {
    UnlinkKeepsInv(l, 0);
    assert PopHead(l) == Unlink(l, 0);
  }

  /** The queue is as long as there are keys in it. */
  lemma {:induction false} QueueLength<K(!new)>(l: LruQueue<K>, keys: set<K>)
    requires Inv(l) && forall k :: InQueue(l, k) <==> k in keys
    ensures |l.queue| == |keys|
    decreases |l.queue|
  {
    if l.queue == [] {
      assert keys == {} by {
        forall k | k in keys ensures InQueue(l, k) {}
      }
    } else {
      PopHeadKeepsInv(l);
      assert InQueue(l, l.queue[0].key);
      QueueLength(PopHead(l), keys - {l.queue[0].key});
    }
  }

  // ---------- The reference: keys ordered by their last use ----------

  /** What a policy is told: a key was filled, read, or handed to an evictor. */
  datatype Use<K> = Filled(key: K) | Touched(key: K) | Popped(key: K)

  /** When `key` was last filled or read since it was last handed to an evictor; a read of a key
      that is not held does not count. */
  ghost function LastUse<K>(h: seq<Use<K>>, key: K): Option<nat> {
    if h == [] then None else
    var before := LastUse(h[..|h| - 1], key);
    match h[|h| - 1]
    case Filled(k) => if k == key then Some(|h| - 1) else before
    case Touched(k) => if k == key && before.Some? then Some(|h| - 1) else before
    case Popped(k) => if k == key then None else before
  }

  /** The queue holds exactly the keys in use, oldest last use first. */
  ghost predicate Ordered<K(!new)>(l: LruQueue<K>, h: seq<Use<K>>) {
    && (forall k :: InQueue(l, k) <==> LastUse(h, k).Some?)
    && (forall i, j :: 0 <= i < j < |l.queue| ==>
          LastUse(h, l.queue[i].key).Some? && LastUse(h, l.queue[j].key).Some? &&
          LastUse(h, l.queue[i].key).value < LastUse(h, l.queue[j].key).value)
  }

  lemma {:induction false} LastUseIsPast<K>(h: seq<Use<K>>, key: K)
    ensures LastUse(h, key).Some? ==> LastUse(h, key).value < |h|
  {
    if h != [] {
      LastUseIsPast(h[..|h| - 1], key);
    }
  }

  lemma LastUseAfter<K>(h: seq<Use<K>>, u: Use<K>, key: K)
    ensures LastUse(h + [u], key) ==
            match u
            case Filled(k) => if k == key then Some(|h|) else LastUse(h, key)
            case Touched(k) => if k == key && LastUse(h, key).Some? then Some(|h|) else LastUse(h, key)
            case Popped(k) => if k == key then None else LastUse(h, key)
  {
    assert (h + [u])[..|h|] == h;
  }

  lemma OrderedAfterFill<K(!new)>(l: LruQueue<K>, h: seq<Use<K>>, key: K)
    requires Inv(l) && Ordered(l, h) && !InQueue(l, key)
    ensures Ordered(PushTail(l, key), h + [Filled(key)])
  {
    PushTailKeepsInv(l, key);
    forall k
      ensures LastUse(h + [Filled(key)], k) == if k == key then Some(|h|) else LastUse(h, k)
      ensures LastUse(h, k).Some? ==> LastUse(h, k).value < |h|
    {
      LastUseAfter(h, Filled(key), k);
      LastUseIsPast(h, k);
    }
    var m := PushTail(l, key);
    assert forall i :: 0 <= i < |l.queue| ==> m.queue[i] == l.queue[i] && InQueue(l, l.queue[i].key);
  }

  lemma LastUseAfterTouch<K(!new)>(l: LruQueue<K>, h: seq<Use<K>>, key: K, k: K)
    requires Ordered(l, h)
    ensures LastUse(h + [Touched(key)], k) == if k == key && InQueue(l, k) then Some(|h|) else LastUse(h, k)
    ensures InQueue(l, k) ==> LastUse(h, k).Some? && LastUse(h, k).value < |h|
  {
    LastUseAfter(h, Touched(key), k);
    LastUseIsPast(h, k);
  }

  /** The uses that giving up the keys one after another amounts to. */
  ghost function Pops<K>(keys: seq<K>): seq<Use<K>> {
    seq(|keys|, i requires 0 <= i < |keys| => Popped(keys[i]))
  }

  /** The given keys were popped from the head of the queue, and nothing else was done to it. */
  ghost predicate PoppedFrom<K>(l: LruQueue<K>, h: seq<Use<K>>, l': LruQueue<K>, h': seq<Use<K>>, keys: seq<K>) {
    && |keys| <= |l.queue| && l'.queue == l.queue[|keys|..]
    && (forall j :: 0 <= j < |keys| ==> keys[j] == l.queue[j].key)
    && h' == h + Pops(keys)
  }

  lemma PoppedOneMore<K>(l: LruQueue<K>, h: seq<Use<K>>, l1: LruQueue<K>, h1: seq<Use<K>>, keys: seq<K>)
    requires PoppedFrom(l, h, l1, h1, keys) && l1.queue != []
    ensures var key := l1.queue[0].key;
            PoppedFrom(l, h, PopHead(l1), h1 + [Popped(key)], keys + [key])
  {
    var key := l1.queue[0].key;
    assert Pops(keys + [key]) == Pops(keys) + [Popped(key)];
  }

  /** Moving the `p`-th node to the tail keeps the order of last uses. */
  lemma MovedOrder<K(!new)>(l: LruQueue<K>, h: seq<Use<K>>, p: nat, q: seq<Link<K>>, i: nat, j: nat)
    requires Inv(l) && Ordered(l, h) && p < |l.queue| && i < j < |q|
    requires q == l.queue[..p] + l.queue[p + 1..] + [Link(l.next, l.queue[p].key)]
    ensures var h' := h + [Touched(l.queue[p].key)];
            LastUse(h', q[i].key).Some? && LastUse(h', q[j].key).Some? &&
            LastUse(h', q[i].key).value < LastUse(h', q[j].key).value
  {
    var key := l.queue[p].key;
    var i0, j0 := if i < p then i else i + 1, if j < p then j else j + 1;
    assert q[i] == l.queue[i0] && l.queue[i0].key != key;
    LastUseAfterTouch(l, h, key, l.queue[i0].key);
    if j < |q| - 1 {
      assert q[j] == l.queue[j0] && l.queue[j0].key != key;
      LastUseAfterTouch(l, h, key, l.queue[j0].key);
    } else {
      assert InQueue(l, key);
      LastUseAfterTouch(l, h, key, key);
    }
  }

  lemma OrderedAfterTouch<K(!new)>(l: LruQueue<K>, h: seq<Use<K>>, key: K)
    requires Inv(l) && Ordered(l, h)
    ensures TouchOk(l, key)
    ensures Ordered(Touch(l, key), h + [Touched(key)])
  {
    TouchKeepsInv(l, key);
    var m, h' := Touch(l, key), h + [Touched(key)];
    forall k
      ensures InQueue(m, k) <==> LastUse(h', k).Some?
      ensures !HasNode(l, key) ==> LastUse(h', k) == LastUse(h, k)
    {
      assert InQueue(l, key) ==> HasNode(l, key);
      LastUseAfterTouch(l, h, key, k);
    }
    if HasNode(l, key) {
      var p := TouchMoves(l, key);
      forall i, j | 0 <= i < j < |m.queue|
        ensures LastUse(h', m.queue[i].key).Some? && LastUse(h', m.queue[j].key).Some?
        ensures LastUse(h', m.queue[i].key).value < LastUse(h', m.queue[j].key).value
      {
        MovedOrder(l, h, p, m.queue, i, j);
      }
    }
  }

  lemma OrderedAfterPop<K(!new)>(l: LruQueue<K>, h: seq<Use<K>>)
    requires Inv(l) && Ordered(l, h) && l.queue != []
    ensures Ordered(PopHead(l), h + [Popped(l.queue[0].key)])
  {
    PopHeadKeepsInv(l);
    var key := l.queue[0].key;
    forall k
      ensures LastUse(h + [Popped(key)], k) == if k == key then None else LastUse(h, k)
    {
      LastUseAfter(h, Popped(key), k);
    }
    var m := PopHead(l);
    assert forall j :: 0 <= j < |m.queue| ==> m.queue[j] == l.queue[j + 1];
  }

  /** The key is in use, and its last use is older than that of every other. */
  ghost predicate IsOldest<K(!new)>(h: seq<Use<K>>, key: K) {
    LastUse(h, key).Some? &&
    forall k :: k != key && LastUse(h, k).Some? ==> LastUse(h, key).value < LastUse(h, k).value
  }

  lemma HeadHasOldest<K(!new)>(l: LruQueue<K>, h: seq<Use<K>>)
    requires Inv(l) && Ordered(l, h) && l.queue != []
    ensures IsOldest(h, l.queue[0].key)
  {
    var key := l.queue[0].key;
    assert InQueue(l, key);
    forall k | k != key && LastUse(h, k).Some?
      ensures LastUse(h, key).value < LastUse(h, k).value
    {
      HeadIsOldest(l, h, k);
    }
  }

  /** The key at the head is the one whose last use is oldest. */
  lemma HeadIsOldest<K(!new)>(l: LruQueue<K>, h: seq<Use<K>>, key: K)
    requires Inv(l) && Ordered(l, h) && l.queue != []
    requires LastUse(h, key).Some? && key != l.queue[0].key
    ensures LastUse(h, l.queue[0].key).Some?
    ensures LastUse(h, l.queue[0].key).value < LastUse(h, key).value
  {
    assert InQueue(l, key);
    var i :| 0 <= i < |l.queue| && l.queue[i].key == key;
  }
}
