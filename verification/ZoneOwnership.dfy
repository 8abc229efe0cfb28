/** Zones in every interleaving: who may write a zone, and who may reset it. */
module ZoneOwnership {
  import opened ZnTypes
  import opened Protocol
  import opened Lru
  import opened Z = ZoneState

  /** The location a thread has taken and has still to hand back. */
  function Holds(p: Phase): Option<Loc> {
    match p
    case Allocated(_, loc) => Some(loc)
    case Writing(_, loc, _) => Some(loc)
    case Written(_, loc, _) => Some(loc)
    case Undoing(_, loc) => Some(loc)
    case _ => None
  }

  predicate HoldsZone(th: map<Tid, Phase>, t: Tid, z: nat) {
    Holds(At(th, t)).Some? && Holds(At(th, t)).value.zone == z
  }

  /** Each location handed out belongs to one thread, and is where its zone is written next. */
  ghost predicate WritersOk(cfg: Config, zsm: Zsm, th: map<Tid, Phase>) {
    && (forall t, z: nat :: HoldsZone(th, t, z) ==>
          IsBeingWritten(cfg, zsm, z) && zsm.zones[z].offset == Holds(At(th, t)).value.chunk)
    && (forall t, u, z: nat :: HoldsZone(th, t, z) && HoldsZone(th, u, z) ==> t == u)
    && (forall z: nat :: IsBeingWritten(cfg, zsm, z) ==> exists t :: HoldsZone(th, t, z))
  }

  lemma WritersMove(cfg: Config, zsm: Zsm, th: map<Tid, Phase>, t: Tid, p: Phase)
    requires WritersOk(cfg, zsm, th) && Holds(p) == Holds(At(th, t))
    ensures WritersOk(cfg, zsm, th[t := p])
  {
    var th' := th[t := p];
    assert forall u, z :: HoldsZone(th', u, z) <==> HoldsZone(th, u, z);
  }

  /** The zones being written change by one zone, and its writer changes with it. */
  lemma WritersChange(cfg: Config, zsm: Zsm, zsm': Zsm, th: map<Tid, Phase>, t: Tid, p: Phase, z: nat)
    requires WritersOk(cfg, zsm, th)
    requires |zsm'.zones| == |zsm.zones|
    requires forall y :: 0 <= y < |zsm.zones| && y != z ==> zsm'.zones[y] == zsm.zones[y]
    requires Holds(At(th, t)).Some? ==> Holds(At(th, t)).value.zone == z
    requires IsBeingWritten(cfg, zsm, z) ==> HoldsZone(th, t, z)
    requires IsBeingWritten(cfg, zsm', z) <==> Holds(p).Some?
    requires Holds(p).Some? ==> Holds(p).value == Loc(z, zsm'.zones[z].offset)
    ensures WritersOk(cfg, zsm', th[t := p])
  {
    var th' := th[t := p];
    forall u, y
      ensures u != t ==> (HoldsZone(th', u, y) <==> HoldsZone(th, u, y)) && (HoldsZone(th', u, y) ==> y != z)
      ensures HoldsZone(th', t, y) ==> y == z
      ensures HoldsZone(th, t, y) ==> y == z
    {
    }
    forall y | IsBeingWritten(cfg, zsm', y)
      ensures exists u :: HoldsZone(th', u, y)
    {
      if y == z {
        assert HoldsZone(th', t, z);
      } else {
        assert IsBeingWritten(cfg, zsm, y);
        var u :| HoldsZone(th, u, y);
        assert HoldsZone(th', u, y);
      }
    }
  }

  lemma WritersAllocate(cfg: Config, zsm: Zsm, th: map<Tid, Phase>, t: Tid, ok: bool, p: Phase)
    requires cfg.Valid() && Z.Inv(cfg, zsm) && WritersOk(cfg, zsm, th) && Holds(At(th, t)).None?
    requires GetActiveOk(cfg, zsm)
    requires var r := GetActive(cfg, zsm, ok).1; Holds(p) == if r.Success? then Some(r.loc) else None
    ensures WritersOk(cfg, GetActive(cfg, zsm, ok).0, th[t := p])
  {
    GetActiveInv(cfg, zsm, ok);
    var (zsm', r) := GetActive(cfg, zsm, ok);
    if r.Success? {
      assert OffsetOk(cfg, zsm.zones[r.loc.zone]);
      WritersChange(cfg, zsm, zsm', th, t, p, r.loc.zone);
    } else {
      WritersMove(cfg, zsm, th, t, p);
      assert forall z :: IsBeingWritten(cfg, zsm', z) <==> IsBeingWritten(cfg, zsm, z);
    }
  }

  lemma WritersReturn(cfg: Config, zsm: Zsm, th: map<Tid, Phase>, t: Tid, ok: bool, p: Phase)
    requires WritersOk(cfg, zsm, th) && Holds(At(th, t)).Some? && Holds(p).None?
    requires HandBackOk(cfg, zsm, Holds(At(th, t)).value)
    ensures WritersOk(cfg, ReturnActive(cfg, zsm, Holds(At(th, t)).value, ok), th[t := p])
  {
    var loc := Holds(At(th, t)).value;
    assert HoldsZone(th, t, loc.zone);
    WritersChange(cfg, zsm, ReturnActive(cfg, zsm, loc, ok), th, t, p, loc.zone);
  }

  lemma WritersUndo(cfg: Config, zsm: Zsm, th: map<Tid, Phase>, t: Tid, p: Phase)
    requires WritersOk(cfg, zsm, th) && Holds(At(th, t)).Some? && Holds(p).None?
    requires FailedOk(cfg, zsm, Holds(At(th, t)).value)
    ensures WritersOk(cfg, FailedToWrite(cfg, zsm, Holds(At(th, t)).value), th[t := p])
  {
    var loc := Holds(At(th, t)).value;
    assert HoldsZone(th, t, loc.zone);
    WritersChange(cfg, zsm, FailedToWrite(cfg, zsm, loc), th, t, p, loc.zone);
  }

  lemma WritersEvict(cfg: Config, zsm: Zsm, th: map<Tid, Phase>, t: Tid, z: nat, p: Phase)
    requires WritersOk(cfg, zsm, th) && HasCond(zsm, z, Full) && Holds(At(th, t)).None? && Holds(p).None?
    ensures WritersOk(cfg, EvictZone(cfg, zsm, z), th[t := p])
  {
    WritersChange(cfg, zsm, EvictZone(cfg, zsm, z), th, t, p, z);
  }

  // ---------- Victims ----------

  /** The sealed zone a thread answers for: one it has just filled and not yet given to the policy,
      or one it was given to evict and has not yet reset. */
  function Token(cfg: Config, p: Phase): Option<nat> {
    match p
    case Returned(_, loc, _) => if loc.chunk + 1 == cfg.maxChunks then Some(loc.zone) else None
    case Clearing(z, _) => Some(z)
    case Draining(z, _) => Some(z)
    case Resetting(z, _) => Some(z)
    case _ => None
  }

  predicate HasToken(cfg: Config, th: map<Tid, Phase>, t: Tid, z: nat) {
    Token(cfg, At(th, t)) == Some(z)
  }

  /** Each sealed zone is in the policy's queue or with one thread, never both, and no other zone is. */
  ghost predicate TokensOk(cfg: Config, zsm: Zsm, lru: LruQueue<nat>, th: map<Tid, Phase>) {
    && (forall z: nat :: InQueue(lru, z) ==> Sealed(cfg, zsm, z))
    && (forall t, z: nat :: HasToken(cfg, th, t, z) ==> Sealed(cfg, zsm, z) && !InQueue(lru, z))
    && (forall t, u, z: nat :: HasToken(cfg, th, t, z) && HasToken(cfg, th, u, z) ==> t == u)
    && (forall z: nat :: Sealed(cfg, zsm, z) && !InQueue(lru, z) ==> exists t :: HasToken(cfg, th, t, z))
  }

  /** Tokens follow the sealed zones when at most one zone changes hands, between the queue,
      thread `t` and nobody. */
  lemma TokensChange(cfg: Config, zsm: Zsm, zsm': Zsm, lru: LruQueue<nat>, lru': LruQueue<nat>,
                     th: map<Tid, Phase>, t: Tid, p: Phase, z: nat)
    requires TokensOk(cfg, zsm, lru, th)
    requires forall y: nat :: y != z ==> (Sealed(cfg, zsm', y) <==> Sealed(cfg, zsm, y))
    requires forall y: nat :: y != z ==> (InQueue(lru', y) <==> InQueue(lru, y))
    requires Token(cfg, At(th, t)).Some? ==> Token(cfg, At(th, t)).value == z
    requires Token(cfg, p).Some? ==> Token(cfg, p).value == z
    requires Sealed(cfg, zsm, z) ==> InQueue(lru, z) || HasToken(cfg, th, t, z)
    requires Sealed(cfg, zsm', z) <==> InQueue(lru', z) || Token(cfg, p).Some?
    requires InQueue(lru', z) ==> Token(cfg, p).None?
    ensures TokensOk(cfg, zsm', lru', th[t := p])
  {
    var th' := th[t := p];
    forall u, y: nat
      ensures u != t ==>
                (HasToken(cfg, th', u, y) <==> HasToken(cfg, th, u, y)) && (HasToken(cfg, th', u, y) ==> y != z)
      ensures HasToken(cfg, th', t, y) ==> y == z
      ensures HasToken(cfg, th, t, y) ==> y == z
    {
    }
    forall y: nat | Sealed(cfg, zsm', y) && !InQueue(lru', y)
      ensures exists u :: HasToken(cfg, th', u, y)
    {
      if y == z {
        assert HasToken(cfg, th', t, z);
      } else {
        var u :| HasToken(cfg, th, u, y);
        assert HasToken(cfg, th', u, y);
      }
    }
  }

  lemma TokensMove(cfg: Config, zsm: Zsm, zsm': Zsm, lru: LruQueue<nat>, lru': LruQueue<nat>,
                   th: map<Tid, Phase>, t: Tid, p: Phase)
    requires TokensOk(cfg, zsm, lru, th)
    requires Token(cfg, p) == Token(cfg, At(th, t))
    requires forall y: nat :: Sealed(cfg, zsm', y) <==> Sealed(cfg, zsm, y)
    requires forall y: nat :: InQueue(lru', y) <==> InQueue(lru, y)
    ensures TokensOk(cfg, zsm', lru', th[t := p])
  {
    var th' := th[t := p];
    assert forall u, y: nat :: HasToken(cfg, th', u, y) <==> HasToken(cfg, th, u, y);
  }
}
