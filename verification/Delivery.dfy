/** Answering a recall: the barrier, the budget, and what a complete answer may claim. */
module Delivery {
  import opened Common
  import opened Briefing
  import opened BriefingSize
  import opened MemoryLedger
  import Json
  import Text
  import Utf8
  import R = Receipts

  datatype Status = Succeeded | Pending | Partial

  /** `collect` lists what is required first. */
  predicate RequiredFirst(c: seq<Candidate>, r: nat) {
    r <= |c| && forall i :: 0 <= i < |c| ==> (c[i].required <==> i < r)
  }

  predicate Fits(b: Basis, c: seq<Candidate>, n: nat, maxTokens: nat)
    requires n <= |c|
  {
    SizeKeeping(b, c, n) <= maxTokens
  }

  /** What fits is the text itself: its bytes in UTF-8 are at most the budget. */
  lemma FitsIsBytes(b: Basis, c: seq<Candidate>, n: nat, maxTokens: nat)
    requires n <= |c|
    ensures Fits(b, c, n, maxTokens) <==> |Utf8.Encode(Json.Render(TextOf(b, Keeping(b, c, n))))| <= maxTokens
  {
    var text := TextOf(b, Keeping(b, c, n));
    Json.SizeIsBytes(text);
    Utf8.SizeIsLength(Json.Render(text));
  }

  /** The answer keeps everything required and the longest run of optional candidates that fits. */
  ghost predicate LongestFitting(b: Basis, c: seq<Candidate>, r: nat, n: nat, maxTokens: nat) {
    r <= n <= |c| && Fits(b, c, n, maxTokens) && forall m :: n < m <= |c| ==> !Fits(b, c, m, maxTokens)
  }

  /** One attempt of the search. */
  datatype Attempt = Attempt(briefing: Briefing, fits: bool)

  /** Every attempt there could be, by the number of candidates kept. */
  ghost predicate Measures(b: Basis, c: seq<Candidate>, maxTokens: nat, tries: seq<Attempt>) {
    |tries| == |c| + 1
    && forall n {:trigger Keeping(b, c, n)} :: 0 <= n <= |c| ==> tries[n] == Attempt(Keeping(b, c, n), Fits(b, c, n, maxTokens))
  }

  ghost predicate Downward(tries: seq<Attempt>) {
    forall m, n :: 0 <= m <= n < |tries| && tries[n].fits ==> tries[m].fits
  }

  ghost predicate IsLongest(tries: seq<Attempt>, r: nat, n: nat) {
    r <= n < |tries| && tries[n].fits && forall m :: n < m < |tries| ==> !tries[m].fits
  }

  /** All required candidates and the first `keep` optional ones; each one left out marks its channel. */
  method Keep(b: Basis, c: seq<Candidate>, keep: nat, ghost r: nat) returns (kept: seq<Candidate>, plans: map<Channel, bool>)
    requires RequiredFirst(c, r) && r + keep <= |c|
    ensures kept == c[..r + keep] && plans == Trim(b.plans, c[r + keep..])
  {
    var taken := 0;
    ghost var n := r + keep;
    kept, plans := [], b.plans;
    assert Trim(b.plans, []) == b.plans;
    for i := 0 to |c|
      invariant taken == if i <= r then 0 else i - r
      invariant kept == Front(c, n, i) && plans == Trim(b.plans, Rest(c, n, i))
    {
      SplitNext(b.plans, c, n, i);
      if c[i].required {
        kept := kept + [c[i]];
      } else {
        if taken < keep {
          kept := kept + [c[i]];
        } else {
          plans := plans[ChannelOf(c[i]) := false];
        }
        taken := taken + 1;
      }
    }
    assert Front(c, n, |c|) == c[..n] && Rest(c, n, |c|) == c[n..];
  }

  /** Of the first `i` candidates, those among the first `n`, and the others. */
  function Front(c: seq<Candidate>, n: nat, i: nat): seq<Candidate>
    requires n <= |c| && i <= |c|
  {
    c[..if i < n then i else n]
  }

  function Rest(c: seq<Candidate>, n: nat, i: nat): seq<Candidate>
    requires n <= |c| && i <= |c|
  {
    c[n..if i < n then n else i]
  }

  lemma SplitNext(plans: map<Channel, bool>, c: seq<Candidate>, n: nat, i: nat)
    requires n <= |c| && i < |c|
    ensures Front(c, n, i + 1) == Front(c, n, i) + if i < n then [c[i]] else []
    ensures Trim(plans, Rest(c, n, i + 1))
         == if i < n then Trim(plans, Rest(c, n, i)) else Trim(plans, Rest(c, n, i))[ChannelOf(c[i]) := false]
  {
    if i >= n {
      TrimNext(plans, c, n, i);
    }
  }

  /** `build`: one attempt, and whether it fits. */
  method Build(b: Basis, c: seq<Candidate>, keep: nat, maxTokens: nat, ghost r: nat, ghost tries: seq<Attempt>)
    returns (a: Attempt)
    requires RequiredFirst(c, r) && r + keep <= |c| && Measures(b, c, maxTokens, tries)
    ensures a == tries[r + keep]
  {
    var kept, plans := Keep(b, c, keep, r);
    var briefing := Assemble(b, kept, plans);
    a := Attempt(briefing, SizeOf(b, briefing) <= maxTokens);
    assert briefing == Keeping(b, c, r + keep);
  }

  lemma TrimNext(plans: map<Channel, bool>, c: seq<Candidate>, from: nat, i: nat)
    requires from <= i < |c|
    ensures Trim(plans, c[from..i + 1]) == Trim(plans, c[from..i])[ChannelOf(c[i]) := false]
    ensures Trim(plans, []) == plans
  {
    var a, b := c[from..i], c[from..i + 1];
    assert b == a + [c[i]];
    assert Omitted(b) == Omitted(a) + {ChannelOf(c[i])} by {
      assert b[|a|] == c[i] && forall k :: 0 <= k < |a| ==> b[k] == a[k];
    }
  }

  lemma Measure(b: Basis, c: seq<Candidate>, maxTokens: nat) returns (tries: seq<Attempt>)
    requires |c| <= MAX_ITEMS && |b.basisRef| == 46
    ensures Measures(b, c, maxTokens, tries) && Downward(tries)
  {
    tries := seq(|c| + 1, n requires 0 <= n <= |c| => Attempt(Keeping(b, c, n), Fits(b, c, n, maxTokens)));
    forall m, n | 0 <= m <= n < |tries| && tries[n].fits
      ensures tries[m].fits
    {
      SizeIsMonotone(b, c, m, n);
    }
  }

  lemma LongestFits(b: Basis, c: seq<Candidate>, r: nat, n: nat, maxTokens: nat, tries: seq<Attempt>)
    requires Measures(b, c, maxTokens, tries) && IsLongest(tries, r, n)
    ensures LongestFitting(b, c, r, n, maxTokens) && tries[n].briefing == Keeping(b, c, n)
  {
    assert tries[n].briefing == Keeping(b, c, n);
    forall m: nat | n < m <= |c|
      ensures !Fits(b, c, m, maxTokens)
    {
      assert tries[m].briefing == Keeping(b, c, m);
    }
  }

  method CountOptional(c: seq<Candidate>, ghost r: nat) returns (optional: nat)
    requires RequiredFirst(c, r)
    ensures optional == |c| - r
  {
    optional := 0;
    for i := 0 to |c|
      invariant optional == if i <= r then 0 else i - r
    {
      if !c[i].required {
        optional := optional + 1;
      }
    }
  }

  /** Between a number of optional candidates that fits and one that does not. */
  method Bisect(b: Basis, c: seq<Candidate>, first: Attempt, optional: nat, maxTokens: nat, ghost r: nat, ghost tries: seq<Attempt>)
    returns (best: Briefing)
    requires RequiredFirst(c, r) && r + optional == |c| && Measures(b, c, maxTokens, tries) && Downward(tries)
    requires first == tries[r] && first.fits && !tries[|c|].fits
    ensures exists n: nat :: IsLongest(tries, r, n) && best == tries[n].briefing
  {
    var low, high := 0, optional;
    best := first.briefing;
    while high - low > 1
      invariant 0 <= low < high <= optional
      invariant best == tries[r + low].briefing && tries[r + low].fits && !tries[r + high].fits
      decreases high - low
    {
      var middle := (low + high) / 2;
      var attempt := Build(b, c, middle, maxTokens, r, tries);
      if attempt.fits {
        low, best := middle, attempt.briefing;
      } else {
        high := middle;
      }
    }
    assert IsLongest(tries, r, r + low);
  }

  /** `deliver`: fails exactly when the required candidates alone do not fit, and otherwise keeps the longest fitting
      run of optional ones, found by bisection. */
  method Deliver(b: Basis, c: seq<Candidate>, maxTokens: nat, ghost r: nat) returns (o: Outcome<Briefing>)
    requires RequiredFirst(c, r) && |c| <= MAX_ITEMS && |b.basisRef| == 46
    ensures o.Done? <==> Fits(b, c, r, maxTokens)
    ensures o.Done? ==> exists n :: LongestFitting(b, c, r, n, maxTokens) && o.value == Keeping(b, c, n)
    ensures !o.Died?
  {
    ghost var tries := Measure(b, c, maxTokens);
    ghost var n: nat := |c|;
    var optional := CountOptional(c, r);
    var attempt := Build(b, c, optional, maxTokens, r, tries);
    var best := attempt.briefing;
    assert tries[r].briefing == Keeping(b, c, r);
    if !attempt.fits {
      attempt := Build(b, c, 0, maxTokens, r, tries);
      if !attempt.fits {
        return Failed("ResultLimitExceeded");
      }
      best := Bisect(b, c, attempt, optional, maxTokens, r, tries);
      n :| IsLongest(tries, r, n) && best == tries[n].briefing;
    }
    LongestFits(b, c, r, n, maxTokens, tries);
    o := Done(best);
  }

  // ── What a complete answer claims ──────────────────────────────────────

  predicate AvailableAt(p: R.Progress, snapshot: nat) {
    p.phase.Available? && p.availableSeq.Some? && p.availableSeq.value <= snapshot
  }

  predicate PlansComplete(b: Basis) {
    forall i :: 0 <= i < |CHANNELS| ==> !IncompleteIn(b.plans, CHANNELS[i])
  }

  /** Coverage is complete exactly when every channel was read whole, the budget left nothing out, and every receipt
      waited for is available at the snapshot. */
  lemma CompleteExactly(b: Basis, c: seq<Candidate>, n: nat)
    requires n <= |c|
    ensures Keeping(b, c, n).coverage.complete
      <==> PlansComplete(b) && n == |c| && forall p :: p in b.after ==> AvailableAt(p, b.snapshot)
  {
    var plans := Trim(b.plans, c[n..]);
    if n < |c| {
      PlansNext(b, c, n);
      assert CHANNELS[IndexOf(ChannelOf(c[n]))] == ChannelOf(c[n]);
    } else {
      assert Omitted(c[n..]) == {};
      assert plans == b.plans;
    }
  }

  /** An item may be acted on exactly when it is an accepted fact or constraint of an answer that is complete, with no
      precondition left unverified and nothing left out. */
  lemma EligibleExactly(b: Basis, c: seq<Candidate>, n: nat, i: nat)
    requires i < n <= |c|
    ensures Keeping(b, c, n).items[i].actionEligible
      <==> (&& IsActionable(c[i].item) && b.unverified == [] && PlansComplete(b) && n == |c|
            && forall p :: p in b.after ==> AvailableAt(p, b.snapshot))
  {
    CompleteExactly(b, c, n);
  }

  /** Every commit of a pass that reported back is at or before the snapshot of a complete answer that waited for it. */
  lemma CompleteSeesThePass(b: Basis, c: seq<Candidate>, n: nat, key: R.Key, record: R.Record, results: seq<Committed>,
                            misrecorded: bool, repair: Outcome<nat>, p: R.Progress, at: nat)
    requires n <= |c| && Keeping(b, c, n).coverage.complete && p in b.after
    requires Reports(record, key, results, misrecorded, repair) && p == Current(key, record)
    requires CommittedAt(results, at)
    ensures at <= b.snapshot
  {
    CompleteExactly(b, c, n);
  }

  function StatusOf(r: Briefing): Status {
    if r.coverage.complete then Succeeded else if r.coverage.pending != [] then Pending else Partial
  }

  /** An `after` receipt must not be newer than a fixed snapshot. */
  method CheckAsOf(after: seq<R.Progress>, asOf: Option<nat>) returns (o: Outcome<()>)
    ensures o.Done? <==> asOf.None? || forall p :: p in after && p.availableSeq.Some? ==> p.availableSeq.value <= asOf.value
  {
    if asOf.Some? && exists p :: p in after && p.availableSeq.Some? && p.availableSeq.value > asOf.value {
      return Failed("PreconditionFailed");
    }
    o := Done(());
  }

  /** A receipt stands at or before a fixed snapshot, as far as it says. */
  predicate NotNewer(receipts: map<R.Key, R.Record>, key: R.Key, asOf: Option<nat>) {
    key in receipts && (asOf.Some? && Current(key, receipts[key]).availableSeq.Some? ==>
                          Current(key, receipts[key]).availableSeq.value <= asOf.value)
  }

  /** Reading a receipt does not make it newer. */
  lemma KeptIsNotNewer(was: map<R.Key, R.Record>, receipts: map<R.Key, R.Record>, key: R.Key, asOf: Option<nat>, now: int)
    requires key in was && key in receipts && (receipts[key] == Kept(was[key], key, now) || receipts[key] == was[key])
    ensures NotNewer(receipts, key, asOf) <==> NotNewer(was, key, asOf)
  {
  }

  /** The first call of a recall: the progress of every receipt it waits for. It is refused exactly for one that is not
      visible in the namespace, or newer than a fixed snapshot. */
  method Wait(ledger: MemoryLedger, namespace: string, after: seq<R.Key>, asOf: Option<nat>, now: int) returns (o: Outcome<seq<R.Progress>>)
    requires ledger.Valid()
    modifies ledger
    ensures ledger.Valid() && old(ledger.events) <= ledger.events && ledger.receipts.Keys == old(ledger.receipts).Keys
    ensures o.Done? <==> forall key :: key in after ==> key.namespace == namespace && NotNewer(old(ledger.receipts), key, asOf)
    ensures o.Done? ==> Waited(ledger.receipts, after, o.value, now)
    ensures o.Done? && asOf.Some? ==> forall p :: p in o.value && p.availableSeq.Some? ==> p.availableSeq.value <= asOf.value
  {
    var ps :- ledger.Barrier(namespace, after, now);
    forall key | key in after
      ensures NotNewer(ledger.receipts, key, asOf) <==> NotNewer(old(ledger.receipts), key, asOf)
    {
      KeptIsNotNewer(old(ledger.receipts), ledger.receipts, key, asOf, now);
    }
    WaitedIsNotNewer(ledger.receipts, after, ps, asOf, now);
    var _ :- CheckAsOf(ps, asOf);
    o := Done(ps);
  }

  lemma WaitedIsNotNewer(receipts: map<R.Key, R.Record>, after: seq<R.Key>, ps: seq<R.Progress>, asOf: Option<nat>, now: int)
    requires Waited(receipts, after, ps, now)
    requires forall p :: p in ps ==> exists key :: key in after && Read_(receipts, key, p, now)
    ensures (asOf.None? || forall p :: p in ps && p.availableSeq.Some? ==> p.availableSeq.value <= asOf.value)
            <==> forall key :: key in after ==> NotNewer(receipts, key, asOf)
  {
    forall key | key in after
      ensures exists p :: p in ps && p == Current(key, receipts[key])
    {
      var p :| p in ps && Read_(receipts, key, p, now);
    }
  }

  ghost predicate Waited(receipts: map<R.Key, R.Record>, after: seq<R.Key>, ps: seq<R.Progress>, now: int) {
    forall key :: key in after ==> exists p :: p in ps && Read_(receipts, key, p, now)
  }

  /** What is answered at a fixed snapshot, or at the latest commit, to a recall that waited for `ps`. */
  function Asked(basis: Basis, ps: seq<R.Progress>, asOf: Option<nat>, latest: nat): Basis {
    basis.(after := ps, snapshot := if asOf.Some? then asOf.value else latest)
  }

  /** Leaving a candidate out leaves a gap in its channel: experiences and procedures have their own, the evidence channel
      stands for everything else. */
  ghost predicate GapIn(c: Candidate, ch: Channel) {
    match ch
    case Experiences => c.item.role.Experience?
    case Skills => c.item.role.Procedure?
    case Evidence => !c.item.role.Experience? && !c.item.role.Procedure?
    case _ => false
  }

  /** A channel was read whole, and nothing of it was left out past the first `n` candidates. */
  ghost predicate Whole(basis: Basis, c: seq<Candidate>, n: nat, ch: Channel) {
    (ch in basis.plans ==> basis.plans[ch]) && forall k :: n <= k < |c| ==> !GapIn(c[k], ch)
  }

  ghost predicate ItemsTell(basis: Basis, c: seq<Candidate>, b: Briefing) {
    && |b.items| <= |c|
    && forall i :: 0 <= i < |b.items| ==>
         && b.items[i].ref == basis.basisRef + ":" + Text.Decimal(i) && b.items[i].item == c[i].item
         && (b.items[i].actionEligible <==>
               && b.coverage.complete && basis.unverified == []
               && c[i].item.status.Accepted? && (c[i].item.role.Fact? || c[i].item.role.Constraint?))
  }

  ghost predicate CoverageTells(basis: Basis, ps: seq<R.Progress>, snapshot: nat, c: seq<Candidate>, b: Briefing) {
    && (b.coverage.complete <==>
          && |b.items| == |c| && (forall p :: p in ps ==> AvailableAt(p, snapshot))
          && forall ch :: ch in basis.plans ==> basis.plans[ch])
    && (forall key :: key in b.coverage.pending <==> exists p :: p in ps && p.key == key && !AvailableAt(p, snapshot))
    && b.coverage.unverified == basis.unverified
    && (b.coverage.actionEligible <==> b.coverage.complete && basis.unverified == [])
    && |b.coverage.states| == |CHANNELS|
    && forall i :: 0 <= i < |CHANNELS| ==>
         b.coverage.states[i] == if basis.attentionMode then "not_applicable"
                                 else if Whole(basis, c, |b.items|, CHANNELS[i]) then "complete" else "incomplete"
  }

  lemma {:induction false} PendingExactly(ps: seq<R.Progress>, snapshot: nat, key: R.Key)
    ensures key in PendingOf(ps, snapshot) <==> exists p :: p in ps && p.key == key && !AvailableAt(p, snapshot)
  {
    if ps != [] {
      PendingExactly(ps[1..], snapshot, key);
      assert forall p :: p in ps <==> p == ps[0] || p in ps[1..];
    }
  }

  lemma GapExactly(b: Basis, c: seq<Candidate>, n: nat, ch: Channel)
    requires n <= |c|
    ensures IncompleteIn(Trim(b.plans, c[n..]), ch) <==> !Whole(b, c, n, ch)
  {
    forall k | n <= k < |c|
      ensures c[n..][k - n] == c[k] && (GapIn(c[k], ch) <==> ChannelOf(c[k]) == ch)
    {
    }
  }

  lemma EveryChannel(ch: Channel)
    ensures ch in CHANNELS
  {
    assert CHANNELS[IndexOf(ch)] == ch;
  }

  lemma KeepingTells(b: Basis, c: seq<Candidate>, n: nat)
    requires n <= |c|
    ensures ItemsTell(b, c, Keeping(b, c, n)) && CoverageTells(b, b.after, b.snapshot, c, Keeping(b, c, n))
    ensures Keeping(b, c, n).coverage.pending == [] <==> forall p :: p in b.after ==> AvailableAt(p, b.snapshot)
  {
    CompleteExactly(b, c, n);
    forall key
      ensures key in PendingOf(b.after, b.snapshot) <==> exists p :: p in b.after && p.key == key && !AvailableAt(p, b.snapshot)
    {
      PendingExactly(b.after, b.snapshot, key);
    }
    PlansExactly(b);
    forall ch
      ensures ch in CHANNELS && (IncompleteIn(Trim(b.plans, c[n..]), ch) <==> !Whole(b, c, n, ch))
    {
      EveryChannel(ch);
      GapExactly(b, c, n, ch);
    }
  }

  lemma PlansExactly(b: Basis)
    ensures PlansComplete(b) <==> forall ch :: ch in b.plans ==> b.plans[ch]
  {
    forall ch | ch in b.plans && !b.plans[ch]
      ensures !PlansComplete(b)
    {
      assert IncompleteIn(b.plans, CHANNELS[IndexOf(ch)]);
    }
  }

  /** What an answer says, and what its status follows from. */
  ghost predicate Tells(basis: Basis, ps: seq<R.Progress>, snapshot: nat, c: seq<Candidate>, b: Briefing, status: Status) {
    && ItemsTell(basis, c, b) && CoverageTells(basis, ps, snapshot, c, b)
    && (status == Succeeded <==> b.coverage.complete)
    && (status == Succeeded ==> forall p :: p in ps ==> AvailableAt(p, snapshot))
    && (status == Pending <==> !b.coverage.complete && exists p :: p in ps && !AvailableAt(p, snapshot))
  }

  lemma AnswerTells(basis: Basis, ps: seq<R.Progress>, asOf: Option<nat>, latest: nat, c: seq<Candidate>, n: nat)
    requires n <= |c|
    ensures var b := Keeping(Asked(basis, ps, asOf, latest), c, n);
      Tells(basis, ps, if asOf.Some? then asOf.value else latest, c, b, StatusOf(b))
  {
    KeepingTells(Asked(basis, ps, asOf, latest), c, n);
  }

  /** The last call of a recall: the longest answer that fits, or a refusal exactly if what is required does not fit. It
      succeeds exactly if it is complete, so only with every receipt waited for available at the snapshot; otherwise it is
      pending exactly if one of them is not. */
  method Answer(basis: Basis, ps: seq<R.Progress>, asOf: Option<nat>, latest: nat, c: seq<Candidate>, maxTokens: nat, ghost r: nat)
    returns (o: Outcome<(Briefing, Status)>)
    requires RequiredFirst(c, r) && |c| <= MAX_ITEMS && |basis.basisRef| == 46
    ensures var b := Asked(basis, ps, asOf, latest);
      && (o.Done? <==> Fits(b, c, r, maxTokens))
      && (o.Done? ==> exists n :: LongestFitting(b, c, r, n, maxTokens) && o.value.0 == Keeping(b, c, n))
    ensures o.Done? ==> Tells(basis, ps, if asOf.Some? then asOf.value else latest, c, o.value.0, o.value.1)
  {
    hide Tells, StatusOf, Keeping;
    var b := Asked(basis, ps, asOf, latest);
    var briefing :- Deliver(b, c, maxTokens, r);
    ghost var n: nat :| LongestFitting(b, c, r, n, maxTokens) && briefing == Keeping(b, c, n);
    AnswerTells(basis, ps, asOf, latest, c, n);
    o := Done((briefing, StatusOf(briefing)));
  }

  predicate AvailableBy(receipts: map<R.Key, R.Record>, key: R.Key, snapshot: nat) {
    key in receipts && receipts[key].terminal.Some? && AvailableAt(receipts[key].terminal.value, snapshot)
  }

  /** Whatever the ledger did between the two calls, a receipt that a complete answer waited for is still the one that
      was waited for, and available at the answer's snapshot, exactly if no capture rejected it in between. */
  lemma SucceededIsAvailable(es: seq<R.Event>, i: nat, j: nat, after: seq<R.Key>, ps: seq<R.Progress>, now: int,
                             b: Basis, c: seq<Candidate>, n: nat, key: R.Key)
    requires R.Run(es) && i <= j <= |es| && Waited(R.At(es, i).receipts, after, ps, now) && key in after
    requires n <= |c| && b.after == ps && Keeping(b, c, n).coverage.complete
    ensures key in R.At(es, i).receipts
    ensures var (s, t) := (R.At(es, i), R.At(es, j));
      R.Unrejected(es, i, j, key) <==> R.Bound(t, key, s.receipts[key]) && AvailableBy(t.receipts, key, b.snapshot)
  {
    CompleteExactly(b, c, n);
    R.BindingHoldsExactly(es, i, j, key);
    if R.Unrejected(es, i, j, key) {
      R.TerminalIsFinal(es, i, j, key);
    }
  }
}
