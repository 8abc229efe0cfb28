/** Values shared by every component: locations, identifiers and the 32-bit word. */
module ZnTypes {

  datatype Option<+T> = None | Some(value: T)

  /** One past the largest `uint32_t`. */
  const WORD := 0x1_0000_0000

  /** One past the largest `int` (and half of the 32-bit word). */
  const HALF_WORD := 0x8000_0000

  /** A data identifier, a `uint32_t` in the source. */
  type Id = x: int | 0 <= x < WORD

  newtype byte = x: int | 0 <= x < 256

  type Data = seq<byte>

  /** Threads are named by numbers; there is no bound on how many there are. */
  type Tid = nat

  /** A chunk of a zone (`struct zn_pair` without the policy's own fields). */
  datatype Loc = Loc(zone: nat, chunk: nat)

  datatype Backend = Zns | Block

  datatype Io = Read | Write

  /** The constants fixed when the cache is set up. */
  datatype Config = Config(numZones: nat, maxActive: nat, maxChunks: nat, backend: Backend) {
    /** At least one zone, one active zone and one chunk per zone, all counted in 32 bits. */
    predicate Valid() {
      1 <= numZones < HALF_WORD && 1 <= maxActive < WORD && 1 <= maxChunks < WORD
    }

    /** Only the zoned backend issues zone commands; on a block device they cannot fail. */
    predicate DeviceOk(ok: bool) {
      ok || backend.Block?
    }
  }

  const EVICT_HIGH_THRESH_ZONES := 2
  const EVICT_LOW_THRESH_ZONES := 4
  const EVICT_HIGH_THRESH_CHUNKS := 6
  const EVICT_LOW_THRESH_CHUNKS := 12

  /** Subtraction of two `uint32_t`. */
  function SubWord(a: nat, b: nat): (r: nat) {
    (a - b) % WORD
  }

  predicate NoDup<T(==)>(s: seq<T>) {
    forall i, j :: 0 <= i < j < |s| ==> s[i] != s[j]
  }

  lemma PopNoDup<T>(s: seq<T>)
    requires NoDup(s) && s != []
    ensures NoDup(s[1..])
    ensures forall x :: x in s[1..] <==> x in s && x != s[0]
  {
    forall x | x in s && x != s[0]
      ensures x in s[1..]
    {
      var i :| 0 <= i < |s| && s[i] == x;
      assert s[1..][i - 1] == x;
    }
  }

  lemma PushNoDup<T>(s: seq<T>, x: T)
    requires NoDup(s) && x !in s
    ensures NoDup(s + [x])
    ensures forall y :: y in s + [x] <==> y in s || y == x
  {
  }

  predicate BelowAt(s: seq<nat>, i: nat, n: nat) {
    i < |s| ==> s[i] < n
  }

  /** There are at most `n` distinct numbers below `n`. */
  lemma {:induction false} NoDupBound(s: seq<nat>, n: nat)
    requires NoDup(s) && forall i: nat :: BelowAt(s, i, n)
    ensures |s| <= n
    decreases n
  {
    var m := n - 1;
    if n == 0 {
      assert BelowAt(s, 0, n);
    } else if i: nat :| i < |s| && s[i] == m {
      var rest := s[..i] + s[i + 1..];
      forall j: nat
        ensures BelowAt(rest, j, m)
      {
        assert BelowAt(s, j, n) && BelowAt(s, j + 1, n);
      }
      NoDupBound(rest, m);
    } else {
      forall j: nat
        ensures BelowAt(s, j, m)
      {
        assert BelowAt(s, j, n);
      }
      NoDupBound(s, m);
    }
  }

  /** The numbers below `n`. */
  ghost function Below(n: nat): (r: set<nat>)
    ensures |r| == n && forall z: nat :: z in r <==> z < n
  {
    if n == 0 then {} else Below(n - 1) + {n - 1}
  }
}
