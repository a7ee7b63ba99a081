/** The intake half of the memory ledger: admission, progress, settlement and the barrier a recall waits at. */
module MemoryLedger {
  import opened Common
  import opened Receipts

  const ABANDONED_MS := 600_000

  /** The request's own content; its source is named, except by a forget. */
  datatype Request = Request(key: Key, scope: string, input: string, sourceRef: string)

  /** What resolving the named source came to. */
  datatype Source = NoSource | Unresolved(reason: string) | Source(digest: string, predecessors: seq<Key>)

  function MeaningOf(r: Request, digest: Option<string>): Meaning {
    Meaning(r.scope, r.input, if r.key.operation == Forget then None else Some((r.sourceRef, digest)))
  }

  function DigestOf(source: Source): Option<string> {
    if source.Source? then Some(source.digest) else None
  }

  /** A key may be used again only for the request it was bound to, with the bytes it was bound to if they still resolve. */
  predicate SameRequest(bound: Record, r: Request, source: Source) {
    bound.intent == MeaningOf(r, bound.sourceDigest) && (source.Source? ==> bound.sourceDigest == Some(source.digest))
  }

  /** A record binds a request, as it was admitted with some source. */
  ghost predicate Binds(bound: Record, first: Request, source: Source) {
    bound.intent == MeaningOf(first, DigestOf(source)) && bound.sourceDigest == DigestOf(source)
    && (source.NoSource? <==> first.key.operation == Forget) && !source.Unresolved?
  }

  /** What a second request under a key must share with the first: its scope and its input; its source too, unless it is a
      forget; and the bytes of that source, if they still resolve. */
  ghost predicate Alike(first: Request, source: Source, other: Request, another: Source) {
    && other.scope == first.scope && other.input == first.input
    && (first.key.operation != Forget ==> other.sourceRef == first.sourceRef)
    && (another.Source? ==> source.Source? && another.digest == source.digest)
  }

  lemma SameRequestExactly(bound: Record, first: Request, source: Source, other: Request, another: Source)
    requires Binds(bound, first, source) && other.key == first.key
    ensures SameRequest(bound, other, another) <==> Alike(first, source, other, another)
  {
  }

  /** A record goes on binding the request it was admitted for, as long as no capture rejects it. */
  lemma BindsStill(es: seq<Event>, i: nat, j: nat, first: Request, source: Source)
    requires Run(es) && i <= j <= |es| && Unrejected(es, i, j, first.key)
    requires first.key in At(es, i).receipts && Binds(At(es, i).receipts[first.key], first, source)
    ensures first.key in At(es, j).receipts && Binds(At(es, j).receipts[first.key], first, source)
  {
    TerminalIsFinal(es, i, j, first.key);
  }

  datatype Admission = Replay(record: Record) | Fresh(record: Record)

  /** A pass that has not reported back in ten minutes was interrupted. */
  predicate Abandoned(r: Record, now: int) {
    r.terminal.None? && now - r.createdAt > ABANDONED_MS
  }

  function Current(key: Key, r: Record): Progress {
    if r.terminal.Some? then r.terminal.value else Progress(key, Recorded, None, "")
  }

  function Lost(key: Key): Progress {
    Progress(key, Phase.Failed, None, "the processing request ended without reporting its outcome")
  }

  // ── What a pass committed ──────────────────────────────────────────────

  datatype Change = Change(creates: bool, isEvidence: bool, isAssertion: bool, id: Option<string>)

  datatype Committed = Uncommitted | Committed(seq_: Option<nat>, changes: seq<Change>)

  datatype PassTrace = PassTrace(formed: seq<string>, evidence: seq<string>, assertions: seq<string>, created: seq<string>, maxSeq: Option<nat>)

  ghost predicate CommittedAt(results: seq<Committed>, at: nat) {
    exists i :: 0 <= i < |results| && results[i].Committed? && results[i].seq_ == Some(at)
  }

  ghost predicate Changed(results: seq<Committed>, c: Change) {
    exists i :: 0 <= i < |results| && results[i].Committed? && c in results[i].changes
  }

  method TraceChanges(trace: PassTrace, changes: seq<Change>) returns (t: PassTrace)
    ensures t.maxSeq == trace.maxSeq
    ensures forall x :: x in t.created <==> x in trace.created || exists c :: c in changes && c.creates && c.id == Some(x)
    ensures forall x :: x in t.evidence <==> x in trace.evidence || exists c :: c in changes && c.isEvidence && c.id == Some(x)
    ensures forall x :: x in t.formed <==> x in trace.formed || exists c :: c in changes && !c.isEvidence && c.id == Some(x)
  {
    t := trace;
    for i := 0 to |changes|
      invariant t.maxSeq == trace.maxSeq
      invariant forall x :: x in t.created <==> x in trace.created || exists c :: c in changes[..i] && c.creates && c.id == Some(x)
      invariant forall x :: x in t.evidence <==> x in trace.evidence || exists c :: c in changes[..i] && c.isEvidence && c.id == Some(x)
      invariant forall x :: x in t.formed <==> x in trace.formed || exists c :: c in changes[..i] && !c.isEvidence && c.id == Some(x)
    {
      var c := changes[i];
      assert changes[..i + 1] == changes[..i] + [c];
      if c.id.None? {
        continue;
      }
      if c.creates {
        t := t.(created := t.created + [c.id.value]);
      }
      if c.isEvidence {
        t := t.(evidence := t.evidence + [c.id.value]);
      } else {
        t := t.(formed := t.formed + [c.id.value]);
        if c.isAssertion && c.creates {
          t := t.(assertions := t.assertions + [c.id.value]);
        }
      }
    }
    assert changes[..|changes|] == changes;
  }

  /** `traceOf`: what the committed results of a pass changed, and the last commit among them. */
  method TraceOf(results: seq<Committed>) returns (t: PassTrace)
    ensures forall at: nat :: CommittedAt(results, at) ==> t.maxSeq.Some? && at <= t.maxSeq.value
    ensures t.maxSeq.Some? ==> CommittedAt(results, t.maxSeq.value)
    ensures forall x :: x in t.created <==> exists c :: Changed(results, c) && c.creates && c.id == Some(x)
  {
    t := PassTrace([], [], [], [], None);
    for i := 0 to |results|
      invariant forall at: nat :: CommittedAt(results[..i], at) ==> t.maxSeq.Some? && at <= t.maxSeq.value
      invariant t.maxSeq.Some? ==> CommittedAt(results[..i], t.maxSeq.value)
      invariant forall x :: x in t.created <==> exists c :: Changed(results[..i], c) && c.creates && c.id == Some(x)
    {
      var r := results[i];
      ghost var before, after := results[..i], results[..i + 1];
      assert after == before + [r];
      assert forall at: nat :: CommittedAt(after, at) <==> CommittedAt(before, at) || (r.Committed? && r.seq_ == Some(at)) by {
        assert after[i] == r && forall k :: 0 <= k < i ==> after[k] == before[k];
      }
      assert forall c :: Changed(after, c) <==> Changed(before, c) || (r.Committed? && c in r.changes) by {
        assert after[i] == r && forall k :: 0 <= k < i ==> after[k] == before[k];
      }
      if r.Uncommitted? {
        continue;
      }
      if r.seq_.Some? && (t.maxSeq.None? || t.maxSeq.value < r.seq_.value) {
        t := t.(maxSeq := r.seq_);
      }
      t := TraceChanges(t, r.changes);
    }
    assert results[..|results|] == results;
  }

  // ── The ledger ─────────────────────────────────────────────────────────

  predicate MissingOrFailed(receipts: map<Key, Record>, key: Key, now: int) {
    key !in receipts || Abandoned(receipts[key], now) || Current(key, receipts[key]).phase.Failed?
  }

  /** Every predecessor is a receipt of the namespace that has not failed, and has not been abandoned. */
  predicate Follow(receipts: map<Key, Record>, namespace: string, predecessors: seq<Key>, now: int) {
    forall k :: 0 <= k < |predecessors| ==> predecessors[k].namespace == namespace && !MissingOrFailed(receipts, predecessors[k], now)
  }

  /** A record once its progress was read. */
  function Kept(r: Record, key: Key, now: int): Record {
    if Abandoned(r, now) then Settling(r, Lost(key), "", {}) else r
  }

  /** Reading progress again at the same time would change nothing. */
  predicate Read_(receipts: map<Key, Record>, key: Key, p: Progress, now: int) {
    key in receipts && !Abandoned(receipts[key], now) && p == Current(key, receipts[key])
  }

  function Later(a: Option<nat>, b: nat): (m: nat)
    ensures m >= b && (a.Some? ==> m >= a.value) && (m == b || a == Some(m))
  {
    if a.Some? && a.value > b then a.value else b
  }

  /** What a pass that just reported back leaves: available at the latest of its commits, its repair and its admission, or
      failed with its repair. */
  ghost predicate Reports(r: Record, key: Key, results: seq<Committed>, misrecorded: bool, repair: Outcome<nat>) {
    && r.terminal.Some? && r.terminal.value.key == key
    && (r.terminal.value.phase.Available? <==> !misrecorded || repair.Done?)
    && (r.terminal.value.phase.Failed? <==> !r.terminal.value.phase.Available?)
    && (r.terminal.value.phase.Available? ==>
          && r.terminal.value.availableSeq.Some?
          && r.acceptedSeq <= r.terminal.value.availableSeq.value
          && (|| r.terminal.value.availableSeq.value == r.acceptedSeq
              || CommittedAt(results, r.terminal.value.availableSeq.value)
              || (misrecorded && repair.Done? && r.terminal.value.availableSeq.value == repair.value))
          && (misrecorded && repair.Done? ==> repair.value <= r.terminal.value.availableSeq.value)
          && forall at: nat :: CommittedAt(results, at) ==> at <= r.terminal.value.availableSeq.value)
  }

  /** What a pass reports: available at the latest of its commits, unless its repair was refused. */
  function ReportOf(key: Key, latest: nat, misrecorded: bool, repair: Outcome<nat>): (p: Progress)
    requires !repair.Died?
    ensures p.key == key && (p.phase.Available? <==> !misrecorded || repair.Done?) && (p.phase.Failed? <==> !p.phase.Available?)
    ensures p.phase.Available? ==> p.availableSeq.Some? && latest <= p.availableSeq.value
    ensures p.phase.Available? && misrecorded ==> repair.value <= p.availableSeq.value
    ensures p.phase.Available? && p.availableSeq.value != latest ==> misrecorded && p.availableSeq.value == repair.value
  {
    if !misrecorded then Progress(key, Available, Some(latest), "")
    else if repair.Done? then Progress(key, Available, Some(Later(Some(repair.value), latest)), "")
    else Progress(key, Phase.Failed, None, repair.reason)
  }

  /** Evidence just captured is available at the latest of its messages and its admission. */
  ghost predicate Captures(r: Record, minted: seq<Outcome<Option<nat>>>) {
    && r.terminal.Some? && r.terminal.value.availableSeq.Some?
    && r.terminal.value.phase.Available? && r.acceptedSeq <= r.terminal.value.availableSeq.value
    && (r.terminal.value.availableSeq.value == r.acceptedSeq || Done(Some(r.terminal.value.availableSeq.value)) in minted)
    && forall m :: m in minted && m.Done? && m.value.Some? ==> m.value.value <= r.terminal.value.availableSeq.value
  }

  lemma PassedOn(receipts: map<Key, Record>, after: seq<Key>, waited: seq<Key>, ps: seq<Progress>, now: int)
    requires |ps| == |waited| && forall k :: 0 <= k < |ps| ==> Read_(receipts, waited[k], ps[k], now)
    requires forall key :: key in waited <==> key in after
    ensures forall key :: key in after ==> exists p :: p in ps && Read_(receipts, key, p, now)
    ensures forall p :: p in ps ==> exists key :: key in after && Read_(receipts, key, p, now)
  {
    forall key | key in after
      ensures exists p :: p in ps && Read_(receipts, key, p, now)
    {
      var k :| 0 <= k < |waited| && waited[k] == key;
      assert ps[k] in ps;
    }
    forall p | p in ps
      ensures exists key :: key in after && Read_(receipts, key, p, now)
    {
      var k :| 0 <= k < |ps| && ps[k] == p;
      assert waited[k] in waited;
    }
  }

  class MemoryLedger {
    var receipts: map<Key, Record>
    var admissions: nat
    ghost var events: seq<Event>

    ghost predicate Valid()
      reads this
    {
      Run(events) && After(events) == Intake(receipts, admissions)
    }

    constructor ()
      ensures Valid() && receipts == map[]
    {
      receipts, admissions, events := map[], 0, [];
    }

    /** One durable write of a record. */
    method Put(key: Key, record: Record, ghost e: Event)
      requires Valid() && e.key == key && !e.Rejected? && (e.Admitted? <==> key !in receipts) && Enabled(Intake(receipts, admissions), e)
      requires Apply(Intake(receipts, admissions), e).receipts == receipts[key := record]
      modifies this
      ensures Valid() && events == old(events) + [e]
      ensures receipts == old(receipts)[key := record]
    {
      RunNext(events, e);
      events := events + [e];
      if key !in receipts {
        admissions := admissions + 1;
      }
      receipts := receipts[key := record];
    }

    /** Binds progress to a receipt that has none yet, and answers what it is bound to. */
    method Settle(key: Key, progress: Progress, result: string, warnings: set<string>) returns (o: Outcome<Record>)
      requires Valid()
      modifies this
      ensures Valid() && old(events) <= events
      ensures o.Done? <==> key in old(receipts)
      ensures !o.Done? ==> receipts == old(receipts)
      ensures o.Done? ==> o.value == Settling(old(receipts)[key], progress, result, warnings)
                          && receipts == old(receipts)[key := o.value]
      ensures o.Done? ==> var was := old(receipts)[key];
        o.value == if was.terminal.Some? then was
                   else was.(terminal := Some(progress), result := result, warnings := was.warnings + warnings)
    {
      if key !in receipts {
        return Outcome.Failed("NotFoundOrNotVisible");
      }
      var record := receipts[key];
      if record.terminal.Some? {
        return Done(record);
      }
      record := Settling(record, progress, result, warnings);
      Put(key, record, Settled(key, progress, result, warnings));
      o := Done(record);
    }

    /** `progress`: a receipt of another namespace is not visible; an abandoned pass fails now, for good. */
    method ReadProgress(namespace: string, key: Key, now: int) returns (o: Outcome<Progress>)
      requires Valid()
      modifies this
      ensures Valid() && old(events) <= events
      ensures o.Done? <==> key in old(receipts) && key.namespace == namespace
      ensures o.Done? ==> Read_(receipts, key, o.value, now)
      ensures o.Done? ==> var was := old(receipts)[key];
        receipts == old(receipts)[key := Kept(was, key, now)]
      ensures !o.Done? ==> receipts == old(receipts)
      ensures forall k, p :: Read_(old(receipts), k, p, now) ==> Read_(receipts, k, p, now)
    {
      if key !in receipts || key.namespace != namespace {
        return Outcome.Failed("NotFoundOrNotVisible");
      }
      var record := receipts[key];
      if record.terminal.None? && now - record.createdAt > ABANDONED_MS {
        var settled := Settle(key, Lost(key), "", {});
        record := settled.value;
      }
      o := Done(Current(key, record));
    }

    /** Refuses a revision whose predecessors are unknown or failed, and only those. */
    method CheckPredecessors(namespace: string, predecessors: seq<Key>, now: int) returns (o: Outcome<()>)
      requires Valid()
      modifies this
      ensures Valid() && old(events) <= events && receipts.Keys == old(receipts).Keys
      ensures o.Done? <==> Follow(old(receipts), namespace, predecessors, now)
      ensures o.Done? ==> receipts == old(receipts)
    {
      hide Run, After;
      for i := 0 to |predecessors|
        invariant Valid() && old(events) <= events && receipts == old(receipts)
        invariant Follow(receipts, namespace, predecessors[..i], now)
      {
        var progress :- ReadProgress(namespace, predecessors[i], now);
        if progress.phase.Failed? {
          return Outcome.Failed("PreconditionFailed");
        }
      }
      o := Done(());
    }

    /** `admit`: binds the key of a mutation, or replays what it is bound to. `target` is the check of a revision's
        target, `seq_` the latest commit. */
    method Admit(r: Request, source: Source, target: Outcome<()>, seq_: nat, now: int) returns (o: Outcome<Admission>)
      requires Valid() && (source.NoSource? <==> r.key.operation == Forget)
      modifies this
      ensures Valid() && old(events) <= events
      ensures r.key in old(receipts) ==>
        && (o.Done? <==> SameRequest(old(receipts)[r.key], r, source))
        && (o.Done? ==> o.value.Replay? && r.key in receipts && o.value.record == receipts[r.key] && Keeps(old(receipts)[r.key], o.value.record))
      ensures r.key in old(receipts) ==>
        forall first: Request, given: Source :: first.key == r.key && Binds(old(receipts)[r.key], first, given)
          ==> (o.Done? <==> Alike(first, given, r, source))
      ensures r.key !in old(receipts) && o.Done? ==>
        && o.value.Fresh? && r.key in receipts && o.value.record == receipts[r.key]
        && Binds(o.value.record, r, source) && SameRequest(o.value.record, r, source) && o.value.record.terminal.None? && o.value.record.acceptedSeq == seq_ && o.value.record.createdAt == now
        && receipts == old(receipts)[r.key := o.value.record]
      ensures r.key !in old(receipts) ==>
        (o.Done? <==> && !source.Unresolved? && target.Done?
                      && (source.Source? ==> Follow(old(receipts), r.key.namespace, source.predecessors, now)))
      ensures !o.Done? ==> receipts.Keys == old(receipts).Keys
    {
      hide Run, After;
      if r.key in receipts {
        var bound := receipts[r.key];
        forall first: Request, given: Source | first.key == r.key && Binds(bound, first, given)
          ensures SameRequest(bound, r, source) <==> Alike(first, given, r, source)
        {
          SameRequestExactly(bound, first, given, r, source);
        }
        if bound.intent != MeaningOf(r, bound.sourceDigest) || (source.Source? && bound.sourceDigest != Some(source.digest)) {
          return Outcome.Failed("IdempotencyConflict");
        }
        var _ :- ReadProgress(r.key.namespace, r.key, now);
        return Done(Replay(receipts[r.key]));
      }
      if source.Unresolved? {
        return Outcome.Failed(source.reason);
      }
      if source.Source? {
        var _ :- CheckPredecessors(r.key.namespace, source.predecessors, now);
      }
      var _ :- target;
      var digest := DigestOf(source);
      var record := Record(admissions, MeaningOf(r, digest), digest, seq_, now, None, "", {}, {}, {});
      Put(r.key, record, Admitted(r.key, record));
      o := Done(Fresh(record));
    }

    /** `finishFormation`: the pass of a receipt reported back. Its receipt becomes available, at a commit no earlier
        than any of the pass, unless it is final already, or its repair was refused. `repair` is the repair of a
        misrecording: the latest commit after it, or why it was refused. */
    method FinishFormation(key: Key, results: seq<Committed>, misrecorded: bool, repair: Outcome<nat>, result: string, warnings: set<string>)
      returns (o: Outcome<Record>)
      requires Valid() && !repair.Died?
      modifies this
      ensures Valid() && old(events) <= events
      ensures o.Done? <==> key in old(receipts)
      ensures o.Done? ==> key in receipts && o.value == receipts[key] && Keeps(old(receipts)[key], o.value)
                          && receipts == old(receipts)[key := o.value]
      ensures o.Done? ==> forall c, id :: Changed(results, c) && c.creates && c.id == Some(id) ==> id in o.value.created
      ensures o.Done? && old(receipts)[key].terminal.None? ==> Reports(o.value, key, results, misrecorded, repair)
    {
      hide Run, After, Settling;
      if key !in receipts {
        return Outcome.Failed("NotFoundOrNotVisible");
      }
      var trace := TraceOf(results);
      var record := receipts[key];
      var created, evidence := (set x | x in trace.created), (set x | x in trace.evidence);
      record := record.(created := record.created + created, evidence := record.evidence + evidence);
      Put(key, record, Traced(key, created, evidence));
      var report := ReportOf(key, Later(trace.maxSeq, record.acceptedSeq), misrecorded, repair);
      var settled := Settle(key, report, if report.phase.Failed? then "" else result, if report.phase.Failed? then {} else warnings);
      record := settled.value;
      o := Done(record);
    }

    /** A pass that failed after intake. */
    method FailFormation(key: Key, reason: string) returns (o: Outcome<Record>)
      requires Valid()
      modifies this
      ensures Valid() && old(events) <= events
      ensures o.Done? <==> key in old(receipts)
      ensures o.Done? ==> receipts == old(receipts)[key := o.value] && Keeps(old(receipts)[key], o.value)
      ensures o.Done? && old(receipts)[key].terminal.None? ==> o.value.terminal == Some(Progress(key, Phase.Failed, None, reason))
    {
      o := Settle(key, Progress(key, Phase.Failed, None, reason), "", {});
    }

    /** `captureEvidence`: a reference that does not resolve drops the receipt, whatever its state. Otherwise each
        message becomes Evidence, at a commit the receipt's availability covers. */
    method CaptureEvidence(key: Key, resolves: seq<bool>, minted: seq<Outcome<Option<nat>>>, result: string, warnings: set<string>)
      returns (o: Outcome<Record>)
      requires Valid()
      modifies this
      ensures Valid() && old(events) <= events
      ensures key in old(receipts) && false in resolves ==> !o.Done? && receipts == old(receipts) - {key}
                                                            && events == old(events) + [Rejected(key)]
      ensures false !in resolves ==> receipts.Keys == old(receipts).Keys
      ensures o.Done? <==> key in old(receipts) && false !in resolves && forall m :: m in minted ==> m.Done?
      ensures o.Done? ==> key in old(receipts) && key in receipts && o.value == receipts[key]
                          && Keeps(old(receipts)[key], o.value) && receipts == old(receipts)[key := o.value]
      ensures o.Done? && old(receipts)[key].terminal.None? ==> Captures(o.value, minted)
    {
      if key !in receipts {
        return Outcome.Failed("NotFoundOrNotVisible");
      }
      var record := receipts[key];
      if false in resolves {
        RunNext(events, Rejected(key));
        events := events + [Rejected(key)];
        receipts := receipts - {key};
        return Outcome.Failed("NotFoundOrNotVisible");
      }
      var latest := record.acceptedSeq;
      for i := 0 to |minted|
        invariant forall k :: 0 <= k < i && minted[k].Done? && minted[k].value.Some? ==> minted[k].value.value <= latest
        invariant forall k :: 0 <= k < i ==> minted[k].Done?
        invariant record.acceptedSeq <= latest && (latest == record.acceptedSeq || Done(Some(latest)) in minted)
      {
        var seq_ :- minted[i];
        latest := Later(seq_, latest);
      }
      var settled := Settle(key, Progress(key, Available, Some(latest), ""), result, warnings);
      record := settled.value;
      o := Done(record);
    }

    /** `barrier`: the progress of each receipt a recall waits for. */
    method Barrier(namespace: string, after: seq<Key>, now: int) returns (o: Outcome<seq<Progress>>)
      requires Valid()
      modifies this
      ensures Valid() && old(events) <= events && receipts.Keys == old(receipts).Keys
      ensures o.Done? <==> forall key :: key in after ==> key in old(receipts) && key.namespace == namespace
      ensures o.Done? ==> forall key :: key in after ==> exists p :: p in o.value && Read_(receipts, key, p, now)
      ensures o.Done? ==> forall p :: p in o.value ==> exists key :: key in after && Read_(receipts, key, p, now)
      ensures forall key :: key in receipts ==> receipts[key] == Kept(old(receipts)[key], key, now)
                                                || receipts[key] == old(receipts)[key]
    {
      hide Run, After, Read_;
      var ps, waited := [], [];
      for i := 0 to |after|
        invariant Valid() && old(events) <= events && receipts.Keys == old(receipts).Keys
        invariant |ps| == |waited| && forall k :: 0 <= k < |ps| ==> Read_(receipts, waited[k], ps[k], now)
        invariant forall k :: 0 <= k < i ==> after[k] in waited
        invariant forall key :: key in waited ==> key in after
        invariant forall key :: key in receipts ==> receipts[key] == Kept(old(receipts)[key], key, now)
                                                    || receipts[key] == old(receipts)[key]
        invariant forall key :: key in waited ==> key in old(receipts) && key.namespace == namespace
      {
        if after[i] !in waited {
          var p :- ReadProgress(namespace, after[i], now);
          ps, waited := ps + [p], waited + [after[i]];
        }
      }
      PassedOn(receipts, after, waited, ps, now);
      o := Done(ps);
    }
  }

  // ── A receipt that was final ───────────────────────────────────────────

  /** Two admissions of one key: the second replays the first exactly for a request like it, and conflicts otherwise. */
  method AdmitTwice(ledger: MemoryLedger, first: Request, source: Source, other: Request, another: Source, at: nat, now: int, late: int)
    returns (bound: Record, again: Outcome<Admission>)
    requires ledger.Valid() && first.key == other.key && first.key !in ledger.receipts && !source.Unresolved?
    requires (source.NoSource? <==> first.key.operation == Forget) && (another.NoSource? <==> other.key.operation == Forget)
    requires source.Source? ==> Follow(ledger.receipts, first.key.namespace, source.predecessors, now)
    modifies ledger
    ensures ledger.Valid()
    ensures again.Done? <==> && other.scope == first.scope && other.input == first.input
                             && (first.key.operation != Forget ==> other.sourceRef == first.sourceRef)
                             && (another.Source? ==> source.Source? && another.digest == source.digest)
    ensures again.Done? ==> again.value.Replay? && Keeps(bound, again.value.record)
  {
    hide Run, After;
    var admitted := ledger.Admit(first, source, Done(()), at, now);
    bound := admitted.value.record;
    again := ledger.Admit(other, another, Done(()), at, late);
  }

  /** A feedback whose capture comes after its pass was given up: its failure was reported as final, the capture with
      a reference that does not resolve drops the receipt, and the key is bound to another request. */
  method RejectedCapture(ledger: MemoryLedger, first: Request, source: Source, other: Request, another: Source, at: nat, now: int, late: int)
    returns (told: Progress, bound: Record, rebound: Record)
    requires ledger.Valid() && first.key.operation == Feedback && first.key == other.key && first.key !in ledger.receipts
    requires source.Source? && Follow(ledger.receipts, first.key.namespace, source.predecessors, now)
    requires another.Source? && Follow(ledger.receipts, first.key.namespace, another.predecessors, late)
    requires MeaningOf(first, Some(source.digest)) != MeaningOf(other, Some(another.digest))
    requires late - now > ABANDONED_MS
    modifies ledger
    ensures ledger.Valid() && told.phase.Failed? && bound.intent == MeaningOf(first, Some(source.digest))
    ensures ledger.receipts == old(ledger.receipts)[first.key := rebound]
    ensures rebound.terminal.None? && rebound.intent == MeaningOf(other, Some(another.digest)) != bound.intent
  {
    hide Run, After;
    var key := first.key;
    var admitted := ledger.Admit(first, source, Done(()), at, now);
    bound := admitted.value.record;
    var read := ledger.ReadProgress(key.namespace, key, late);
    told := read.value;
    assert ledger.receipts[key].terminal == Some(told);
    var dropped := ledger.CaptureEvidence(key, [false], [], "", {});
    assert ledger.receipts == old(ledger.receipts);
    var again := ledger.Admit(other, another, Done(()), at, late);
    rebound := again.value.record;
  }
}
