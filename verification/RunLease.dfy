/** The single-flight lease of a maintenance run. */
module RunLease {
  import opened Common

  const MAX_LEASE := 300_000

  datatype MaintenanceRun = MaintenanceRun(id: nat, epoch: nat, expiresAt: int)

  /** The stored run, the ids handed out so far, the fence's epoch and the clock. */
  datatype Lease = Lease(run: Option<MaintenanceRun>, issued: set<nat>, epoch: nat, now: int)

  /** Whether a run passes the fence and then `check`. */
  predicate Passes(s: Lease, id: nat, epoch: nat) {
    epoch == s.epoch && s.run.Some? && s.run.value.id == id && s.run.value.epoch == epoch && s.run.value.expiresAt > s.now
  }

  /** Some run is under way. */
  predicate Busy(s: Lease, epoch: nat) {
    s.run.Some? && s.run.value.epoch == epoch && s.run.value.expiresAt > s.now
  }

  predicate MayBegin(s: Lease, epoch: nat, expiresAt: int) {
    epoch == s.epoch && !Busy(s, epoch) && s.now < expiresAt <= s.now + MAX_LEASE
  }

  // ── Runs ───────────────────────────────────────────────────────────────

  datatype Event = Began(id: nat, expiresAt: int) | Released(id: nat) | Passed(epoch: nat, now: int)

  /** One step: a run is admitted under a new id, a run releases what it still holds, or time and the fence move on. */
  ghost predicate Step(s: Lease, e: Event, t: Lease) {
    match e
    case Began(id, expiresAt) =>
      && MayBegin(s, s.epoch, expiresAt) && id !in s.issued
      && t == s.(run := Some(MaintenanceRun(id, s.epoch, expiresAt)), issued := s.issued + {id})
    case Released(id) =>
      t == if s.run.Some? && s.run.value.id == id then s.(run := None) else s
    case Passed(epoch, now) =>
      s.epoch <= epoch && s.now <= now && t == s.(epoch := epoch, now := now)
  }

  ghost predicate Run(h: seq<Lease>, es: seq<Event>) {
    && |h| == |es| + 1 && h[0].run.None? && h[0].issued == {}
    && forall i :: 0 <= i < |es| ==> Step(h[i], es[i], h[i + 1])
  }

  /** The stored run is one that was issued, no epoch ahead of the fence, and holds no longer than the limit. */
  ghost predicate Sound(s: Lease) {
    s.run.Some? ==> s.run.value.id in s.issued && s.run.value.epoch <= s.epoch && s.run.value.expiresAt <= s.now + MAX_LEASE
  }

  /** An issued run that can no longer pass under any epoch. */
  ghost predicate Lost(s: Lease, id: nat) {
    id in s.issued && !Passes(s, id, s.epoch)
  }

  lemma StepKeeps(s: Lease, e: Event, t: Lease, id: nat)
    requires Sound(s) && Step(s, e, t)
    ensures Sound(t) && (Lost(s, id) ==> Lost(t, id))
  {
  }

  lemma {:induction false} RunIsSound(h: seq<Lease>, es: seq<Event>, i: nat)
    requires Run(h, es) && i < |h|
    ensures Sound(h[i])
  {
    if i > 0 {
      RunIsSound(h, es, i - 1);
      StepKeeps(h[i - 1], es[i - 1], h[i], 0);
    }
  }

  lemma {:induction false} LostStaysLost(h: seq<Lease>, es: seq<Event>, i: nat, j: nat, id: nat)
    requires Run(h, es) && i <= j < |h| && Lost(h[i], id)
    ensures Lost(h[j], id)
    decreases j
  {
    if i < j {
      LostStaysLost(h, es, i, j - 1, id);
      RunIsSound(h, es, j - 1);
      StepKeeps(h[j - 1], es[j - 1], h[j], id);
    }
  }

  /** A run that once does not pass, because it expired, was released, was taken over or saw its epoch end, never passes
      again, whatever epoch it claims. */
  lemma LostNeverPasses(h: seq<Lease>, es: seq<Event>, i: nat, j: nat, id: nat, epoch: nat)
    requires Run(h, es) && i <= j < |h| && Lost(h[i], id)
    ensures !Passes(h[j], id, epoch)
  {
    LostStaysLost(h, es, i, j, id);
  }

  /** Maintenance is single-flight: no run is admitted while another passes, and once one is admitted no run issued
      before it ever passes again. */
  lemma AdmissionEndsOthers(h: seq<Lease>, es: seq<Event>, i: nat, j: nat, other: nat, epoch: nat)
    requires Run(h, es) && i < |es| && es[i].Began? && i < j < |h| && other in h[i].issued
    ensures !Passes(h[i], other, epoch) && !Passes(h[j], other, epoch)
  {
    assert Step(h[i], es[i], h[i + 1]);
    LostNeverPasses(h, es, i, j, other, epoch);
  }

  /** A run stops passing at the latest 300 seconds after its admission. */
  lemma {:induction false} LeaseIsBounded(h: seq<Lease>, es: seq<Event>, i: nat, j: nat, epoch: nat)
    requires Run(h, es) && i < |es| && es[i].Began? && i < j < |h| && h[j].now >= h[i].now + MAX_LEASE
    ensures !Passes(h[j], es[i].id, epoch)
  {
    if Passes(h[j], es[i].id, epoch) {
      LeaseKept(h, es, i, j);
    }
  }

  /** The stored run with an issued id is the one admitted under it. */
  lemma {:induction false} LeaseKept(h: seq<Lease>, es: seq<Event>, i: nat, j: nat)
    requires Run(h, es) && i < |es| && es[i].Began? && i < j < |h|
    ensures es[i].id in h[j].issued
    ensures h[j].run.Some? && h[j].run.value.id == es[i].id ==> h[j].run == h[i + 1].run
    decreases j
  {
    if i + 1 < j {
      LeaseKept(h, es, i, j - 1);
      assert Step(h[j - 1], es[j - 1], h[j]);
    } else {
      assert Step(h[i], es[i], h[j]);
    }
  }

  /** A run that lost its lease cannot release its successor. */
  lemma ReleaseKeepsSuccessor(s: Lease, id: nat, t: Lease, other: nat, epoch: nat)
    requires Step(s, Released(id), t) && other != id
    ensures Passes(t, other, epoch) <==> Passes(s, other, epoch)
  {
  }

  lemma {:induction false} TimeGrows(h: seq<Lease>, es: seq<Event>, i: nat, j: nat)
    requires Run(h, es) && i <= j < |h|
    ensures h[i].epoch <= h[j].epoch && h[i].now <= h[j].now
    decreases j
  {
    if i < j {
      TimeGrows(h, es, i, j - 1);
      assert Step(h[j - 1], es[j - 1], h[j]);
    }
  }

  /** An admitted run holds its lease as long as its epoch and its time last and it does not release it itself: no other
      run can take it away before. */
  lemma {:induction false} LeaseHolds(h: seq<Lease>, es: seq<Event>, i: nat, j: nat)
    requires Run(h, es) && i < |es| && es[i].Began? && i < j < |h|
    requires h[j].epoch == h[i].epoch && h[j].now < es[i].expiresAt && forall m :: i < m < j ==> es[m] != Released(es[i].id)
    ensures Passes(h[j], es[i].id, h[i].epoch)
    decreases j
  {
    assert Step(h[i], es[i], h[i + 1]);
    if i + 1 < j {
      TimeGrows(h, es, i, j - 1);
      assert Step(h[j - 1], es[j - 1], h[j]);
      LeaseHolds(h, es, i, j - 1);
      LeaseKept(h, es, i, j - 1);
      if es[j - 1].Released? {
        ReleaseKeepsSuccessor(h[j - 1], es[j - 1].id, h[j], es[i].id, h[i].epoch);
      }
    }
  }

  /** A run passes exactly until its epoch ends, its time is up, or it releases its lease. */
  lemma PassesExactly(h: seq<Lease>, es: seq<Event>, i: nat, j: nat)
    requires Run(h, es) && i < |es| && es[i].Began? && i < j < |h|
    ensures Passes(h[j], es[i].id, h[i].epoch) <==>
            (h[j].epoch == h[i].epoch && h[j].now < es[i].expiresAt && forall m :: i < m < j ==> es[m] != Released(es[i].id))
  {
    if Passes(h[j], es[i].id, h[i].epoch) {
      LeaseKept(h, es, i, j);
      assert Step(h[i], es[i], h[i + 1]);
      forall m | i < m < j
        ensures es[m] != Released(es[i].id)
      {
        if es[m] == Released(es[i].id) {
          assert Step(h[m], es[m], h[m + 1]);
          LeaseKept(h, es, i, m + 1);
          LostNeverPasses(h, es, m + 1, j, es[i].id, h[i].epoch);
        }
      }
    } else if h[j].epoch == h[i].epoch && h[j].now < es[i].expiresAt && forall m :: i < m < j ==> es[m] != Released(es[i].id) {
      LeaseHolds(h, es, i, j);
    }
  }
}
