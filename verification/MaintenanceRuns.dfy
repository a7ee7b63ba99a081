/** Maintenance as a whole: every interleaving of the lease, the correction page and the fence. */
module MaintenanceRuns {
  import opened Common
  import Ledger = CorrectionLedger
  import Lease = RunLease

  datatype World = World(lease: Lease.Lease, ledger: Ledger.World)

  /** `Reviewed` is an acknowledgement by the plan of a run, `Direct` one by the entry that asks only for the epoch;
      `Saved` stores a page for a run, or for a call that has none. */
  datatype Event =
    | Leased(event: Lease.Event)
    | Committed
    | Saved(run: Option<nat>)
    | Reviewed(id: nat, ids: set<nat>)
    | Direct(ids: set<nat>)
    | Reset

  ghost predicate Saves(log: set<Ledger.Row>, w: Ledger.Work, w': Ledger.Work) {
    || (w.pending.None? && exists page :: Ledger.Scanned(log, w.cursor.At(), page) && w' in Ledger.SaveWrites(w, page))
    || (w.pending.Some? && w' in Ledger.SaveWrites(w, w.pending.value))
  }

  /** One event. Every operation on the page may be cut after any of its writes. */
  ghost predicate Step(a: World, e: Event, b: World) {
    match e
    case Leased(event) => Lease.Step(a.lease, event, b.lease) && b.ledger == a.ledger
    case Committed => b.lease == a.lease && Ledger.Grew(a.ledger, b.ledger)
    case Saved(id) =>
      && (id.Some? ==> Lease.Passes(a.lease, id.value, a.lease.epoch))
      && Saves(a.ledger.log, a.ledger.work, b.ledger.work) && b == a.(ledger := a.ledger.(work := b.ledger.work))
    case Reviewed(id, ids) =>
      && Lease.Passes(a.lease, id, a.lease.epoch)
      && b.ledger.work in Ledger.AcknowledgeWrites(a.ledger.work, ids) && b == a.(ledger := a.ledger.(work := b.ledger.work))
    case Direct(ids) =>
      b.ledger.work in Ledger.AcknowledgeWrites(a.ledger.work, ids) && b == a.(ledger := a.ledger.(work := b.ledger.work))
    case Reset =>
      b.ledger.work in Ledger.ResetWrites(a.ledger.work) && b == a.(ledger := a.ledger.(work := b.ledger.work))
  }

  ghost predicate Run(h: seq<World>, es: seq<Event>) {
    && |h| == |es| + 1 && h[0].lease.run.None? && h[0].lease.issued == {} && Ledger.Initial(h[0].ledger)
    && forall i :: 0 <= i < |es| ==> Step(h[i], es[i], h[i + 1])
  }

  // ── The lease ──────────────────────────────────────────────────────────

  lemma StepKeepsLost(a: World, e: Event, b: World, id: nat)
    requires Lease.Sound(a.lease) && Step(a, e, b)
    ensures Lease.Sound(b.lease) && (Lease.Lost(a.lease, id) ==> Lease.Lost(b.lease, id))
  {
    if e.Leased? {
      Lease.StepKeeps(a.lease, e.event, b.lease, id);
    }
  }

  lemma {:induction false} LeaseIsSound(h: seq<World>, es: seq<Event>, i: nat)
    requires Run(h, es) && i < |h|
    ensures Lease.Sound(h[i].lease)
  {
    if i > 0 {
      LeaseIsSound(h, es, i - 1);
      StepKeepsLost(h[i - 1], es[i - 1], h[i], 0);
    }
  }

  lemma {:induction false} LostStays(h: seq<World>, es: seq<Event>, i: nat, j: nat, id: nat)
    requires Run(h, es) && i <= j < |h| && Lease.Lost(h[i].lease, id)
    ensures Lease.Lost(h[j].lease, id)
    decreases j
  {
    if i < j {
      LostStays(h, es, i, j - 1, id);
      LeaseIsSound(h, es, j - 1);
      StepKeepsLost(h[j - 1], es[j - 1], h[j], id);
    }
  }

  /** A run that was lost once acknowledges nothing and stores no page from then on, whatever its plan still does. */
  lemma LostNeverActs(h: seq<World>, es: seq<Event>, i: nat, j: nat, id: nat)
    requires Run(h, es) && i <= j < |es| && Lease.Lost(h[i].lease, id)
    ensures es[j] != Saved(Some(id)) && !(es[j].Reviewed? && es[j].id == id)
  {
    LostStays(h, es, i, j, id);
    assert Step(h[j], es[j], h[j + 1]);
  }

  /** So of the runs admitted so far only the last one acts: once another is admitted, the earlier ones do nothing. */
  lemma AdmissionEndsEarlierRuns(h: seq<World>, es: seq<Event>, i: nat, j: nat, id: nat)
    requires Run(h, es) && i < j < |es| && es[i].Leased? && es[i].event.Began? && id in h[i].lease.issued
    ensures es[j] != Saved(Some(id)) && !(es[j].Reviewed? && es[j].id == id)
  {
    assert Step(h[i], es[i], h[i + 1]);
    LostNeverActs(h, es, i + 1, j, id);
  }

  // ── The page ───────────────────────────────────────────────────────────

  lemma StepIsLedgerStep(a: World, e: Event, b: World)
    requires Step(a, e, b)
    ensures Ledger.Step(a.ledger, b.ledger)
  {
    var w := a.ledger.work;
    assert Ledger.ResetWrites(w)[0] == w;
  }

  /** What the ledger goes through in a run of the whole is a run of its own. */
  lemma LedgerRuns(h: seq<World>, es: seq<Event>) returns (ledgers: seq<Ledger.World>)
    requires Run(h, es)
    ensures |ledgers| == |h| && (forall i :: 0 <= i < |h| ==> ledgers[i] == h[i].ledger) && Ledger.Run(ledgers)
  {
    ledgers := seq(|h|, i requires 0 <= i < |h| => h[i].ledger);
    forall i | 0 <= i < |ledgers| - 1
      ensures Ledger.Step(ledgers[i], ledgers[i + 1])
    {
      StepIsLedgerStep(h[i], es[i], h[i + 1]);
    }
  }

  lemma {:induction false} AcknowledgedBetween(h: seq<World>, es: seq<Event>, i: nat, j: nat, r: Ledger.Row) returns (m: nat)
    requires Run(h, es) && i <= j < |h| && r !in h[i].ledger.work.acked && r in h[j].ledger.work.acked
    ensures i <= m < j && Acknowledges(h[m], es[m], r)
    decreases j
  {
    if i == j {
      assert false;
    } else if r in h[j - 1].ledger.work.acked {
      m := AcknowledgedBetween(h, es, i, j - 1, r);
    } else {
      m := j - 1;
      assert Step(h[m], es[m], h[j]);
    }
  }

  /** The row is on the page in hand and named, by the plan of a run that holds its lease or by the direct entry. */
  ghost predicate Acknowledges(w: World, e: Event, r: Ledger.Row) {
    && w.ledger.work.pending.Some? && r in w.ledger.work.pending.value.roots
    && ((e.Reviewed? && r.id in e.ids && Lease.Passes(w.lease, e.id, w.lease.epoch)) || (e.Direct? && r.id in e.ids))
  }

  /** Every correction the cursor has passed was shown on a page and named from there, by a plan whose run held its lease
      at that moment or by the direct entry. */
  lemma PassedWasReviewed(h: seq<World>, es: seq<Event>, j: nat, r: Ledger.Row) returns (m: nat)
    requires Run(h, es) && j < |h| && r in h[j].ledger.log && Ledger.Passed(r, h[j].ledger.work.cursor.At())
    ensures m < j && Acknowledges(h[m], es[m], r)
  {
    var ledgers := LedgerRuns(h, es);
    Ledger.NoCorrectionSkipped(ledgers, j, j, r);
    m := AcknowledgedBetween(h, es, 0, j, r);
  }
}
