/** The binary min-heap of reclaim candidates: an array of pointers to entries, each of which knows
    its position so that it can be updated through a handle kept by the caller. */
module MinHeap {
  import opened ZnTypes

  class Handle {
    const data: nat
    var priority: nat
    var index: nat

    constructor (data: nat, priority: nat, index: nat)
      ensures this.data == data && this.priority == priority && this.index == index
    {
      this.data := data;
      this.priority := priority;
      this.index := index;
    }
  }

  function Parent(i: nat): nat
    requires i > 0
  {
    (i - 1) / 2
  }

  /** The children's positions in 32-bit arithmetic. */
  function Left(i: nat): nat { (2 * i + 1) % WORD }

  function Right(i: nat): nat { (2 * i + 2) % WORD }

  /** The largest `k` with `2^k <= n`. */
  function Log2(n: nat): nat
    requires n > 0
  {
    if n == 1 then 0 else 1 + Log2(n / 2)
  }

  lemma {:induction false} Log2Grows(m: nat, n: nat)
    requires 0 < m <= n
    ensures Log2(m) <= Log2(n)
  {
    if m > 1 {
      Log2Grows(m / 2, n / 2);
    }
  }

  ghost function MembersOf(s: seq<Handle>): set<Handle> {
    set e | e in s
  }

  /** Node `j` is at least its parent. */
  predicate InOrder(s: seq<nat>, j: nat) {
    0 < j < |s| ==> s[Parent(j)] <= s[j]
  }

  /** Node `j`, if a child of `i`, is at least the parent of `i`. */
  predicate InOrderPast(s: seq<nat>, i: nat, j: nat) {
    0 < j < |s| && 0 < i < |s| && Parent(j) == i ==> s[Parent(i)] <= s[j]
  }

  ghost predicate HeapOrdered(s: seq<nat>) {
    forall j: nat :: InOrder(s, j)
  }

  /** Heap order except between node `i` and its parent. */
  ghost predicate OrderedBut(s: seq<nat>, i: nat) {
    forall j: nat :: (j != i ==> InOrder(s, j)) && InOrderPast(s, i, j)
  }

  /** Heap order except between node `i` and its children. */
  ghost predicate OrderedAbove(s: seq<nat>, i: nat) {
    forall j: nat :: (j > 0 && Parent(j) != i ==> InOrder(s, j)) && InOrderPast(s, i, j)
  }

  lemma {:induction false} RootIsLeast(s: seq<nat>, i: nat)
    requires HeapOrdered(s) && i < |s|
    ensures s[0] <= s[i]
  {
    if i > 0 {
      assert InOrder(s, i);
      RootIsLeast(s, Parent(i));
    }
  }

  class Heap {
    var arr: array<Handle?>
    var size: nat
    /** The entries in the heap and their priorities, in array order. */
    ghost var elems: seq<Handle>
    ghost var prios: seq<nat>
    /** The same entries as a set, and every handle ever given out. */
    ghost var members: set<Handle>
    ghost var issued: set<Handle>

    /** The array holds the entries, and each knows where it is. */
    ghost predicate Shape()
      reads this, arr, members
    {
      && size == |elems| == |prios| <= arr.Length && 1 <= arr.Length < WORD && size < HALF_WORD
      && members == MembersOf(elems)
      && (forall i :: 0 <= i < size ==> arr[i] == elems[i] && elems[i].index == i)
      && (forall i :: 0 <= i < size ==> elems[i].priority == prios[i])
    }

    /** Heap order holds, and a handle is in the heap or has index 0. */
    ghost predicate Valid()
      reads this, arr, members, issued
    {
      && Shape() && HeapOrdered(prios)
      && members <= issued
      && (forall e :: e in issued - members ==> e.index == 0)
    }

    /** What the heap is for its callers: the handles in it and their priorities. */
    ghost function View(): map<Handle, nat>
      reads `members, members`priority
    {
      map e | e in members :: e.priority
    }

    constructor (capacity: nat)
      requires 1 <= capacity < WORD
      ensures Valid() && fresh(arr) && View() == map[] && issued == {} && arr.Length == capacity && size == 0
    {
      arr := new Handle?[capacity](_ => null);
      size := 0;
      elems := [];
      prios := [];
      members := {};
      issued := {};
    }

    /** Exchange two pointers and correct their back-indices. */
    method Swap(i: nat, j: nat)
      requires Shape() && i < size && j < size && i != j
      modifies this`elems, this`prios, arr, members`index
      ensures Shape()
      ensures elems == old(elems)[i := old(elems)[j]][j := old(elems)[i]]
      ensures prios == old(prios)[i := old(prios)[j]][j := old(prios)[i]]
    {
      SwapMembers(elems, i, j);
      var tmp := arr[i];
      arr[i] := arr[j];
      arr[j] := tmp;
      arr[i].index := i;
      arr[j].index := j;
      elems := elems[i := elems[j]][j := elems[i]];
      prios := prios[i := prios[j]][j := prios[i]];
    }

    /** Exchange a node with its larger parent: the heap is then broken only above the parent. */
    method MoveUp(i: nat, p: nat)
      requires Shape() && 0 < i < size && p == Parent(i) && OrderedBut(prios, i) && prios[i] < prios[p]
      modifies this`elems, this`prios, arr, members`index
      ensures Shape() && OrderedBut(prios, p) && !old(HeapOrdered(prios))
      ensures Log2(i + 1) == 1 + Log2(p + 1)
    {
      OneLevelDown(i);
      SwapUp(prios, i);
      Swap(i, p);
    }

    /** Exchange a node with its smallest child: the heap is then broken only below the child. */
    method MoveDown(i: nat, c: nat)
      requires Shape() && 0 < c < size && i == Parent(c) && OrderedAbove(prios, i) && prios[c] < prios[i]
      requires forall j: nat :: IsChild(prios, i, j) ==> prios[c] <= prios[j]
      modifies this`elems, this`prios, arr, members`index
      ensures Shape() && OrderedAbove(prios, c) && !old(HeapOrdered(prios))
      ensures Log2(i + 1) + 1 == Log2(c + 1) <= Log2(size)
    {
      OneLevelDown(c);
      Log2Grows(c + 1, size);
      SwapDown(prios, i, c);
      ghost var swapped := prios[i := prios[c]][c := prios[i]];
      Swap(i, c);
      assert prios == swapped;
    }

    /** Repair a heap that is broken only above `start`, changing no member and no priority: the
        frame covers only positions. An ordered heap stays exactly as it is. */
    method BubbleUp(start: nat) returns (ghost swaps: nat)
      requires Shape() && start < size && OrderedBut(prios, start)
      modifies this`elems, this`prios, arr, members`index
      ensures Shape() && HeapOrdered(prios)
      ensures old(HeapOrdered(prios)) ==> elems == old(elems) && prios == old(prios) && arr[..] == old(arr[..])
      ensures swaps <= Log2(size)
    {
      var index: nat := start;
      swaps := 0;
      Log2Grows(start + 1, size);
      while index > 0
        invariant Shape() && index < size
        invariant OrderedBut(prios, index)
        invariant old(HeapOrdered(prios)) ==> elems == old(elems) && prios == old(prios) && arr[..] == old(arr[..])
        invariant swaps + Log2(index + 1) == Log2(start + 1)
      {
        var parent := (index - 1) / 2;
        if arr[index].priority < arr[parent].priority {
          MoveUp(index, parent);
          index := parent;
          swaps := swaps + 1;
        } else {
          NoLargerParent(prios, index);
          break;
        }
      }
      NoLargerParent(prios, index);
    }

    /** Repair a heap that is broken only below `start`, changing no member and no priority: the
        frame covers only positions. An ordered heap stays exactly as it is. */
    method BubbleDown(start: nat) returns (ghost swaps: nat)
      requires Shape() && start < size && OrderedAbove(prios, start)
      modifies this`elems, this`prios, arr, members`index
      ensures Shape() && HeapOrdered(prios)
      ensures old(HeapOrdered(prios)) ==> elems == old(elems) && prios == old(prios) && arr[..] == old(arr[..])
      ensures swaps <= Log2(size)
    {
      var index: nat := start;
      swaps := 0;
      Log2Grows(start + 1, size);
      while true
        invariant Shape() && index < size
        invariant OrderedAbove(prios, index)
        invariant old(HeapOrdered(prios)) ==> elems == old(elems) && prios == old(prios) && arr[..] == old(arr[..])
        invariant swaps + Log2(start + 1) == Log2(index + 1) <= Log2(size)
        decreases size - index
      {
        var smallest := SmallestOf(index);
        if smallest != index {
          MoveDown(index, smallest);
          index := smallest;
          swaps := swaps + 1;
        } else {
          NoSmallerChild(prios, index);
          break;
        }
      }
    }

    /** The smallest of a node and its children, the node itself if no child is smaller. The
        positions of the children do not wrap around. */
    method SmallestOf(index: nat) returns (smallest: nat)
      requires Shape() && index < size
      ensures Left(index) == 2 * index + 1 && Right(index) == 2 * index + 2
      ensures smallest < size && (smallest == index || (smallest > 0 && Parent(smallest) == index))
      ensures forall j: nat :: IsChild(prios, index, j) ==> prios[smallest] <= prios[j]
      ensures smallest != index ==> prios[smallest] < prios[index]
    {
      var left := Left(index);
      var right := Right(index);
      smallest := index;
      if left < size && arr[left].priority < arr[smallest].priority {
        smallest := left;
      }
      if right < size && arr[right].priority < arr[smallest].priority {
        smallest := right;
      }
      assert forall j: nat :: IsChild(prios, index, j) ==> j == left || j == right;
      assert smallest != index ==> Parent(smallest) == index;
    }

    method Grow()
      requires Valid() && size == arr.Length
      modifies this`arr
      ensures Valid() && fresh(arr) && arr.Length == 2 * old(arr.Length) && View() == old(View())
    {
      var capacity := arr.Length * 2 % WORD;
      var bigger := new Handle?[capacity](i requires 0 <= i < capacity reads this, arr =>
        if i < arr.Length then arr[i] else null);
      arr := bigger;
    }

    /** Add an entry at the end, out of order. */
    method Append(data: nat, priority: nat) returns (e: Handle)
      requires Valid() && size < arr.Length && size + 1 < HALF_WORD
      modifies this, arr
      ensures Shape() && arr == old(arr) && size == old(size) + 1 && OrderedBut(prios, size - 1)
      ensures fresh(e) && e.data == data && e.priority == priority && e.index == size - 1
      ensures members == old(members) + {e} && issued == old(issued) + {e}
      ensures View() == old(View())[e := priority]
    {
      AppendOne(prios, priority);
      e := new Handle(data, priority, size);
      arr[size] := e;
      size := size + 1;
      elems := elems + [e];
      prios := prios + [priority];
      members := members + {e};
      issued := issued + {e};
    }

    /** Add an entry and return its handle. */
    method Insert(data: nat, priority: nat) returns (e: Handle)
      requires Valid() && size + 1 < HALF_WORD
      modifies this, arr, members`index
      ensures Valid() && fresh(e) && e.data == data && issued == old(issued) + {e}
      ensures View() == old(View())[e := priority]
      ensures members == old(members) + {e}
      ensures if old(size) < old(arr.Length) then arr == old(arr) else fresh(arr)
    {
      if size == arr.Length {
        Grow();
      }
      e := Append(data, priority);
      var _ := BubbleUp(e.index);
    }

    /** Take the root out and put the last entry in its place, out of order. */
    method DropRoot() returns (e: Handle)
      requires Valid() && size > 0
      modifies this`size, this`elems, this`prios, this`members, arr, members`index
      ensures Shape() && arr == old(arr) && issued == old(issued) && size == old(size) - 1
      ensures size > 0 ==> OrderedAbove(prios, 0)
      ensures size == 0 ==> HeapOrdered(prios)
      ensures e in old(members) && members == old(members) - {e} && e.index == 0
      ensures e == old(elems[0]) && e.priority == old(prios[0])
    {
      e := arr[0];
      LastToRoot(elems, prios);
      size := size - 1;
      if size > 0 {
        arr[0] := arr[size];
        arr[0].index := 0;
      }
      members := members - {e};
      elems := elems[0 := elems[size]][..size];
      prios := prios[0 := prios[size]][..size];
    }

    lemma RootIsMin(e: Handle)
      requires Shape() && HeapOrdered(prios) && e in members
      ensures size > 0 && prios[0] <= e.priority
    {
      var i :| 0 <= i < |elems| && elems[i] == e;
      RootIsLeast(prios, i);
    }

    /** Remove an entry of least priority; its index is 0 from then on. */
    method ExtractMin() returns (e: Handle?)
      requires Valid()
      modifies this, arr, members`index
      ensures Valid() && arr == old(arr) && issued == old(issued)
      ensures e == null <==> old(size) == 0
      ensures members <= old(members)
      ensures e != null ==> size == old(size) - 1 && members == old(members) - {e}
      ensures e != null ==>
                && e in old(View()) && e.index == 0 && e.priority == old(e.priority)
                && View() == old(View()) - {e}
                && forall f :: f in old(View()) ==> e.priority <= old(View())[f]
      ensures e == null ==> old(View()) == View() == map[]
    {
      if size == 0 {
        return null;
      }
      forall f | f in members
        ensures prios[0] <= f.priority
      {
        RootIsMin(f);
      }
      e := DropRoot();
      assert e in old(View());
      if size > 0 {
        var _ := BubbleDown(0);
      }
    }

    /** Move a node whose priority changed from `was` to `now`. */
    method Sift(i: nat, was: nat, now: nat)
      requires Shape() && i < size
      requires now < was ==> OrderedBut(prios, i)
      requires now > was ==> OrderedAbove(prios, i)
      requires now == was ==> HeapOrdered(prios)
      modifies this`elems, this`prios, arr, members`index
      ensures Shape() && HeapOrdered(prios) && View() == old(View())
      ensures old(HeapOrdered(prios)) ==> elems == old(elems) && arr[..] == old(arr[..])
    {
      if now < was {
        var _ := BubbleUp(i);
      } else if now > was {
        var _ := BubbleDown(i);
      }
    }

    /** Write a new priority behind a handle; the order breaks at most where sifting repairs it. */
    method SetPriority(e: Handle, priority: nat)
      requires Valid() && e in issued && e.index < size
      modifies `prios, e`priority
      ensures Shape() && e.priority == priority
      ensures e in members ==> View() == old(View())[e := priority]
      ensures e !in members ==> View() == old(View()) && prios == old(prios)
      ensures priority < old(e.priority) ==> OrderedBut(prios, e.index)
      ensures priority > old(e.priority) ==> OrderedAbove(prios, e.index)
      ensures priority == old(e.priority) || e !in members ==> HeapOrdered(prios)
    {
      if e in members {
        ChangeOne(prios, e.index, priority);
        prios := prios[e.index := priority];
      } else {
        ChangeOne(prios, 0, prios[0]);
        assert prios[0 := prios[0]] == prios;
      }
      e.priority := priority;
    }

    /** Change the priority behind a handle. A handle that is no longer in the heap changes nothing
        in it. */
    method UpdateByEntry(e: Handle?, priority: nat) returns (ok: bool)
      requires Valid() && (e != null ==> e in issued)
      modifies `elems, `prios, arr, members`index, (if e == null then {} else {e})`priority
      ensures Valid()
      ensures ok <==> e != null && old(e.index) < size
      ensures e != null && e in old(View()) ==> ok && View() == old(View())[e := priority]
      ensures e == null || e !in old(View()) ==>
                elems == old(elems) && arr[..] == old(arr[..]) && View() == old(View())
    {
      if e == null || e.index >= size {
        return false;
      }
      var oldPriority := e.priority;
      SetPriority(e, priority);
      Sift(e.index, oldPriority, priority);
      ok := true;
    }
  }

  /** Priorities do not decrease along `s`. */
  ghost predicate Ascending(s: seq<Handle>, p: map<Handle, nat>)
    requires forall e :: e in s ==> e in p
  {
    forall i, j :: 0 <= i <= j < |s| ==> p[s[i]] <= p[s[j]]
  }

  /** Extracting until the heap is empty yields every entry once, in order of priority. */
  method Drain(heap: Heap) returns (out: seq<Handle>)
    requires heap.Valid()
    modifies heap, heap.arr, heap.members`index
    ensures heap.Valid() && heap.View() == map[]
    ensures MembersOf(out) == old(heap.View()).Keys && NoDup(out)
    ensures Ascending(out, old(heap.View()))
  {
    ghost var all := heap.View();
    out := [];
    while heap.size > 0
      invariant heap.Valid() && heap.arr == old(heap.arr) && heap.members <= old(heap.members)
      invariant MembersOf(out) <= all.Keys && NoDup(out) && Ascending(out, all)
      invariant heap.View() == all - MembersOf(out)
      invariant forall i, e :: 0 <= i < |out| && e in heap.View() ==> all[out[i]] <= all[e]
      decreases heap.size
    {
      var e := heap.ExtractMin();
      out := out + [e];
    }
  }

  lemma SwapMembers(s: seq<Handle>, i: nat, j: nat)
    requires i < |s| && j < |s|
    ensures MembersOf(s[i := s[j]][j := s[i]]) == MembersOf(s)
  {
    var s' := s[i := s[j]][j := s[i]];
    forall e | e in s
      ensures e in s'
    {
      var k :| 0 <= k < |s| && s[k] == e;
      assert s'[if k == i then j else if k == j then i else k] == e;
    }
  }

  /** Moving the last entry of a heap to the root leaves it broken only below the root. */
  lemma LastToRoot(s: seq<Handle>, p: seq<nat>)
    requires 1 <= |s| == |p| && HeapOrdered(p)
    requires forall i, j :: 0 <= i < j < |s| ==> s[i] != s[j]
    ensures |s| > 1 ==> OrderedAbove(p[0 := p[|s| - 1]][..|s| - 1], 0)
    ensures MembersOf(s[0 := s[|s| - 1]][..|s| - 1]) == MembersOf(s) - {s[0]}
  {
    var p' := p[0 := p[|s| - 1]][..|s| - 1];
    forall j: nat
      ensures (j > 0 && Parent(j) != 0 ==> InOrder(p', j)) && InOrderPast(p', 0, j)
    {
      assert InOrder(p, j);
    }
    var s' := s[0 := s[|s| - 1]][..|s| - 1];
    forall e
      ensures e in s' <==> e in s && e != s[0]
    {
      if e in s && e != s[0] {
        var k :| 0 <= k < |s| && s[k] == e;
        assert s'[if k == |s| - 1 then 0 else k] == e;
      }
    }
  }

  /** A child is one level below its parent. */
  lemma OneLevelDown(c: nat)
    requires c > 0
    ensures Log2(c + 1) == 1 + Log2(Parent(c) + 1)
  {
    assert (c + 1) / 2 == Parent(c) + 1;
  }

  lemma SwapUp(s: seq<nat>, i: nat)
    requires 0 < i < |s| && OrderedBut(s, i) && s[i] < s[Parent(i)]
    ensures OrderedBut(s[i := s[Parent(i)]][Parent(i) := s[i]], Parent(i)) && !HeapOrdered(s)
  {
    var p := Parent(i);
    var s' := s[i := s[p]][p := s[i]];
    assert !InOrder(s, i);
    forall j: nat
      ensures (j != p ==> InOrder(s', j)) && InOrderPast(s', p, j)
    {
      assert (j != i ==> InOrder(s, j)) && InOrderPast(s, i, j);
      assert InOrder(s, p);
    }
  }

  /** `c` is the smallest child of `i` and smaller than `i`. */
  lemma SwapDown(s: seq<nat>, i: nat, c: nat)
    requires i < |s| && 0 < c < |s| && Parent(c) == i && OrderedAbove(s, i) && s[c] < s[i]
    requires forall j: nat :: IsChild(s, i, j) ==> s[c] <= s[j]
    ensures OrderedAbove(s[i := s[c]][c := s[i]], c) && !HeapOrdered(s)
  {
    var s' := s[i := s[c]][c := s[i]];
    assert !InOrder(s, c);
    forall j: nat
      ensures (j > 0 && Parent(j) != c ==> InOrder(s', j)) && InOrderPast(s', c, j)
    {
      assert (j > 0 && Parent(j) != i ==> InOrder(s, j)) && InOrderPast(s, i, j);
      assert InOrderPast(s, i, c);
      assert IsChild(s, i, j) ==> s[c] <= s[j];
    }
  }

  predicate IsChild(s: seq<nat>, i: nat, j: nat) {
    0 < j < |s| && Parent(j) == i
  }

  /** A node that is no larger than its children is in order with them. */
  lemma NoSmallerChild(s: seq<nat>, i: nat)
    requires OrderedAbove(s, i) && forall j: nat :: IsChild(s, i, j) ==> i < |s| && s[i] <= s[j]
    ensures HeapOrdered(s)
  {
    forall j: nat
      ensures InOrder(s, j)
    {
      assert (j > 0 && Parent(j) != i ==> InOrder(s, j));
      assert IsChild(s, i, j) ==> s[i] <= s[j];
    }
  }

  /** A node that is at least its parent, too. */
  lemma NoLargerParent(s: seq<nat>, i: nat)
    requires OrderedBut(s, i) && InOrder(s, i)
    ensures HeapOrdered(s)
  {
  }

  /** Making one priority smaller breaks the order only above it, making it larger only below. */
  lemma ChangeOne(s: seq<nat>, i: nat, p: nat)
    requires HeapOrdered(s) && i < |s|
    ensures p <= s[i] ==> OrderedBut(s[i := p], i)
    ensures p >= s[i] ==> OrderedAbove(s[i := p], i)
  {
    var s' := s[i := p];
    forall j: nat
      ensures p <= s[i] ==> (j != i ==> InOrder(s', j)) && InOrderPast(s', i, j)
      ensures p >= s[i] ==> (j > 0 && Parent(j) != i ==> InOrder(s', j)) && InOrderPast(s', i, j)
    {
      assert InOrder(s, j) && InOrder(s, i);
    }
  }

  /** So does a new last node, which has no children. */
  lemma AppendOne(s: seq<nat>, p: nat)
    requires HeapOrdered(s)
    ensures OrderedBut(s + [p], |s|)
  {
    forall j: nat
      ensures (j != |s| ==> InOrder(s + [p], j)) && InOrderPast(s + [p], |s|, j)
    {
      assert InOrder(s, j);
    }
  }
}
