/** The durable bookkeeping of maintenance: one run at a time, one unacknowledged page, and a rotating snapshot. */
module Maintenance {
  import opened Common
  import Ledger = CorrectionLedger
  import Lease = RunLease
  import Rotation
  import Runs = MaintenanceRuns
  import opened Product
  import ChangeState

  class MaintenanceWork {
    var run: Option<Lease.MaintenanceRun>
    var cursor: Ledger.Checkpoint
    var pending: Option<Ledger.Page>
    var shown: seq<Ledger.Row>
    var rotation: map<nat, nat>
    ghost var acked: set<Ledger.Row>
    ghost var issued: set<nat>

    ghost function Stored(): Ledger.Work
      reads this
    {
      Ledger.Work(cursor, pending, shown, acked)
    }

    /** The lease as the fence at `epoch` sees it at `now`. */
    ghost function LeaseAt(epoch: nat, now: int): Lease.Lease
      reads this
    {
      Lease.Lease(run, issued, epoch, now)
    }

    /** The whole as the fence of `product` sees it: some log, whose latest commit is `at`, and the stored work. */
    ghost function WorldAt(product: MemoryProduct, now: int, log: set<Ledger.Row>, at: nat): Runs.World
      reads this, product
    {
      Runs.World(LeaseAt(product.epoch, now), Ledger.World(log, at, Stored()))
    }

    // ── The lease ────────────────────────────────────────────────────────

    /** Admits a run under an id never used before. No expiry time stands for one that is not a finite number. */
    method Begin(id: nat, epoch: nat, expiresAt: Option<int>, now: int) returns (o: Outcome<nat>)
      requires id !in issued
      modifies `run, `issued
      ensures o.Done? <==> expiresAt.Some? && Lease.MayBegin(old(LeaseAt(epoch, now)), epoch, expiresAt.value)
      ensures o.Done? ==> o.value == id && Lease.Step(old(LeaseAt(epoch, now)), Lease.Began(id, expiresAt.value), LeaseAt(epoch, now))
      ensures !o.Done? ==> LeaseAt(epoch, now) == old(LeaseAt(epoch, now))
    {
      if run.Some? && run.value.epoch == epoch && run.value.expiresAt > now {
        return Failed("maintenance_busy");
      }
      if expiresAt.None? || expiresAt.value <= now || expiresAt.value > now + Lease.MAX_LEASE {
        return Failed("maintenance_run_expired");
      }
      run, issued := Some(Lease.MaintenanceRun(id, epoch, expiresAt.value)), issued + {id};
      o := Done(id);
    }

    method Check(id: nat, epoch: nat, now: int) returns (o: Outcome<()>)
      ensures o.Done? <==> Lease.Passes(LeaseAt(epoch, now), id, epoch)
    {
      if run.None? || run.value.id != id || run.value.epoch != epoch || run.value.expiresAt <= now {
        return Failed("maintenance_run_expired");
      }
      o := Done(());
    }

    method Release(id: nat)
      modifies `run
      ensures forall epoch, now :: Lease.Step(old(LeaseAt(epoch, now)), Lease.Released(id), LeaseAt(epoch, now))
    {
      if run.Some? && run.value.id == id {
        run := None;
      }
    }

    // ── The correction page ──────────────────────────────────────────────

    /** Stores a page, or moves past an empty one. The isolate may stop once `lasts` writes are durable. */
    method Save(page: Ledger.Page, lasts: nat) returns (o: Outcome<()>)
      modifies `cursor, `pending, `shown
      ensures Stored() in Ledger.SaveWrites(old(Stored()), page)
      ensures o.Done? ==> shown == page.roots && (page.error ==> cursor == old(cursor) && pending == old(pending))
      ensures o.Done? && !page.error ==> if page.roots != [] then pending == Some(page) && cursor == old(cursor)
                                         else pending == None && cursor == Ledger.Pair(page.next)
      ensures lasts >= 3 ==> o.Done?
    {
      var left := lasts;
      if !page.error {
        if page.roots != [] {
          if left == 0 { return Died; }
          pending, left := Some(page), left - 1;
        } else {
          if left == 0 { return Died; }
          pending, left := None, left - 1;
          if left == 0 { return Died; }
          cursor, left := Ledger.Pair(page.next), left - 1;
        }
      }
      if left == 0 { return Died; }
      shown := page.roots;
      o := Done(());
    }

    method ValidateAcknowledgement(ids: set<nat>) returns (o: Outcome<()>)
      ensures o.Done? <==> Ledger.MayAcknowledge(Stored(), ids)
      ensures o.Failed? <==> !o.Done?
    {
      var roots := if pending.Some? then pending.value.roots else [];
      if exists id :: id in ids && forall r :: r in roots ==> r.id != id {
        return Failed("invalid_correction_acknowledgement");
      }
      o := Done(());
    }

    /** Acknowledges some rows of the page in hand. The cursor moves only once no row of it is left. */
    method Acknowledge(ids: set<nat>, lasts: nat) returns (o: Outcome<()>)
      modifies `cursor, `pending, `shown, `acked
      ensures Stored() in Ledger.AcknowledgeWrites(old(Stored()), ids)
      ensures o.Failed? <==> !Ledger.MayAcknowledge(old(Stored()), ids)
      ensures lasts >= 3 ==> !o.Died?
      ensures !Ledger.MayAcknowledge(old(Stored()), ids) || old(pending).None? ==> Stored() == old(Stored())
      ensures cursor != old(cursor) ==> old(pending).Some? && forall r :: r in old(pending).value.roots ==> r.id in ids
    {
      var _ :- ValidateAcknowledgement(ids);
      if pending.None? {
        return Done(());
      }
      acked := Ledger.Reviewed(Stored(), ids).acked;
      var page, remaining := pending.value, Ledger.Without(pending.value.roots, ids);
      if lasts == 0 { return Died; }
      if remaining != [] {
        pending := Some(page.(roots := remaining));
        if lasts == 1 { return Died; }
        shown := remaining;
        return Done(());
      }
      cursor := Ledger.Pair(page.next);
      if lasts == 1 { return Died; }
      o := ClearContext(lasts - 1);
    }

    /** `clearMaintenanceContext`: after a change, the next cycle scans again from the cursor. */
    method ClearContext(lasts: nat) returns (o: Outcome<()>)
      modifies `pending, `shown
      ensures Stored() in Ledger.ResetWrites(old(Stored())) && !o.Failed?
      ensures o.Done? ==> pending == None && shown == []
      ensures lasts >= 2 ==> o.Done?
    {
      if lasts == 0 { return Died; }
      pending := None;
      if lasts == 1 { return Died; }
      shown := [];
      o := Done(());
    }

    // ── The entry points ─────────────────────────────────────────────────

    /** `beginMaintenance`: the fence first, and then the lease. */
    method BeginRun(product: MemoryProduct, id: nat, epoch: nat, expiresAt: Option<int>, now: int) returns (o: Outcome<nat>)
      requires id !in issued
      modifies `run, `issued
      ensures o.Done? <==> && ChangeState.Open(product.Now()) && expiresAt.Some?
                           && Lease.MayBegin(old(LeaseAt(product.epoch, now)), epoch, expiresAt.value)
      ensures o.Done? ==>
        o.value == id && Lease.Step(old(LeaseAt(product.epoch, now)), Lease.Began(id, expiresAt.value), LeaseAt(product.epoch, now))
      ensures !o.Done? ==> LeaseAt(product.epoch, now) == old(LeaseAt(product.epoch, now))
    {
      var checked := product.Check(epoch);
      if !checked.Done? {
        return checked.PropagateFailure();
      }
      o := Begin(id, epoch, expiresAt, now);
    }

    /** The fence, and then the lease of a call that runs under one. */
    method CheckRun(product: MemoryProduct, id: Option<nat>, epoch: nat, now: int) returns (o: Outcome<()>)
      ensures o.Done? <==> && ChangeState.Open(product.Now()) && epoch == product.epoch
                           && (id.Some? ==> Lease.Passes(LeaseAt(product.epoch, now), id.value, product.epoch))
    {
      var _ :- product.Check(epoch);
      o := Done(());
      if id.Some? {
        o := Check(id.value, epoch, now);
      }
    }

    /** `settleMemory`: goes on with the page in hand, or scans for the next. */
    method SettleMemory(product: MemoryProduct, id: Option<nat>, epoch: nat, now: int, answer: Ledger.Answer, lasts: nat,
                        ghost log: set<Ledger.Row>, ghost at: nat) returns (o: Outcome<Ledger.Page>)
      requires Ledger.Answers(log, cursor.At(), answer)
      modifies `cursor, `pending, `shown
      ensures Stored() == old(Stored()) || Runs.Step(old(WorldAt(product, now, log, at)), Runs.Saved(id), WorldAt(product, now, log, at))
      ensures Stored() != old(Stored()) || o.Done? ==> ChangeState.Open(product.Now()) && epoch == product.epoch
      ensures o.Done? && id.Some? ==> Lease.Passes(LeaseAt(product.epoch, now), id.value, product.epoch)
      ensures lasts >= 3 ==> (o.Done? <==> && ChangeState.Open(product.Now()) && epoch == product.epoch
                                           && (id.Some? ==> Lease.Passes(old(LeaseAt(product.epoch, now)), id.value, product.epoch)))
      ensures o.Done? && old(pending).Some? ==> o.value == old(pending).value
      ensures o.Done? && old(pending).None? ==> Ledger.Scanned(log, old(cursor).At(), o.value)
      ensures o.Done? ==> shown == o.value.roots
    {
      var _ :- CheckRun(product, id, epoch, now);
      var page;
      if pending.Some? {
        page := pending.value;
      } else {
        page := Ledger.ScanCorrections(answer, cursor.At(), log);
      }
      var _ :- Save(page, lasts);
      o := Done(page);
    }

    /** `executeMaintenancePlan`: what was reviewed is acknowledged only by a run that still passes, at the fence's own
        epoch, and only when every command of its plan came through. */
    method ExecutePlan(product: MemoryProduct, id: Option<nat>, epoch: nat, now: int, reviewed: set<nat>, failed: bool, lasts: nat,
                       ghost log: set<Ledger.Row>, ghost at: nat) returns (o: Outcome<()>)
      modifies `cursor, `pending, `shown, `acked
      ensures Stored() == old(Stored())
              || (id.Some? && !failed && ChangeState.Open(product.Now()) && epoch == product.epoch
                  && Runs.Step(old(WorldAt(product, now, log, at)), Runs.Reviewed(id.value, reviewed), WorldAt(product, now, log, at)))
      ensures o.Done? ==> ChangeState.Open(product.Now()) && epoch == product.epoch && Ledger.MayAcknowledge(old(Stored()), reviewed)
                          && (id.Some? ==> Lease.Passes(LeaseAt(product.epoch, now), id.value, product.epoch))
      ensures lasts >= 3 ==>
        (o.Done? <==> && ChangeState.Open(product.Now()) && epoch == product.epoch && Ledger.MayAcknowledge(old(Stored()), reviewed)
                      && (id.Some? ==> Lease.Passes(old(LeaseAt(product.epoch, now)), id.value, product.epoch)))
    {
      var _ :- CheckRun(product, id, epoch, now);
      var _ :- ValidateAcknowledgement(reviewed);
      if id.Some? && !failed {
        var _ :- Acknowledge(reviewed, lasts);
      }
      o := Done(());
    }

    /** `acknowledgeCorrections`: asks for the fence's epoch, and for no lease. */
    method AcknowledgeDirectly(product: MemoryProduct, epoch: nat, now: int, ids: set<nat>, lasts: nat, ghost log: set<Ledger.Row>, ghost at: nat)
      returns (o: Outcome<()>)
      modifies `cursor, `pending, `shown, `acked
      ensures Stored() == old(Stored())
              || (ChangeState.Open(product.Now()) && epoch == product.epoch
                  && Runs.Step(old(WorldAt(product, now, log, at)), Runs.Direct(ids), WorldAt(product, now, log, at)))
      ensures o.Done? ==> ChangeState.Open(product.Now()) && epoch == product.epoch && Ledger.MayAcknowledge(old(Stored()), ids)
      ensures lasts >= 3 ==>
        (o.Done? <==> ChangeState.Open(product.Now()) && epoch == product.epoch && Ledger.MayAcknowledge(old(Stored()), ids))
    {
      var _ :- product.Check(epoch);
      o := Acknowledge(ids, lasts);
    }

    // ── The snapshot ─────────────────────────────────────────────────────

    function Cursor(group: nat): nat
      reads this
    {
      if group in rotation then rotation[group] else 0
    }

    /** One group: offers its next candidates and remembers the last one offered. */
    method Offer(group: nat, candidates: seq<nat>) returns (ids: seq<nat>)
      requires Rotation.Candidates(candidates)
      modifies `rotation
      ensures ids == Rotation.Offered(candidates, if group in old(rotation) then old(rotation)[group] else 0)
      ensures Cursor(group) == Rotation.Advanced(candidates, old(Cursor(group)))
      ensures forall g :: g != group ==> Cursor(g) == old(Cursor(g))
    {
      ids := Rotation.Select(candidates, Cursor(group));
      if ids == [] {
        ids := Rotation.Select(candidates, 0);
      }
      if ids != [] {
        rotation := rotation[group := ids[|ids| - 1]];
      }
    }

    method Snapshot(groups: seq<seq<nat>>) returns (offers: seq<seq<nat>>)
      requires forall g :: 0 <= g < |groups| ==> Rotation.Candidates(groups[g])
      modifies `rotation
      ensures |offers| == |groups|
      ensures forall g :: 0 <= g < |groups| ==>
        offers[g] == Rotation.Offered(groups[g], if g in old(rotation) then old(rotation)[g] else 0)
      ensures forall g :: 0 <= g < |groups| ==> Cursor(g) == Rotation.Advanced(groups[g], old(Cursor(g)))
    {
      offers := [];
      for i := 0 to |groups|
        invariant |offers| == i
        invariant forall g :: 0 <= g < i ==> offers[g] == Rotation.Offered(groups[g], old(Cursor(g)))
        invariant forall g :: 0 <= g < i ==> Cursor(g) == Rotation.Advanced(groups[g], old(Cursor(g)))
        invariant forall g :: i <= g ==> Cursor(g) == old(Cursor(g))
      {
        var ids := Offer(i, groups[i]);
        offers := offers + [ids];
      }
    }
  }
}
