/** Intake receipts: what binds an idempotency key, and what a receipt's terminal progress may do. */
module Receipts {
  import opened Common

  datatype Operation = Observe | Revise | Feedback | Forget

  /** A receipt's reference is a digest of these four, so they stand for it. */
  datatype Key = Key(namespace: string, space: string, operation: Operation, idempotency: string)

  /** What a request means: the digest stored at intake covers exactly this. */
  datatype Meaning = Meaning(scope: string, input: string, source: Option<(string, Option<string>)>)

  datatype Phase = Recorded | Processed | Available | Failed

  datatype Progress = Progress(key: Key, phase: Phase, availableSeq: Option<nat>, reason: string)

  /** A stored intake; `serial` tells one admission from another. */
  datatype Record = Record(serial: nat, intent: Meaning, sourceDigest: Option<string>, acceptedSeq: nat, createdAt: int,
                           terminal: Option<Progress>, result: string, warnings: set<string>,
                           created: set<string>, evidence: set<string>)

  datatype Intake = Intake(receipts: map<Key, Record>, admissions: nat)

  const NOTHING := Intake(map[], 0)

  datatype Event =
    | Admitted(key: Key, record: Record)
    | Settled(key: Key, progress: Progress, result: string, warnings: set<string>)
    | Traced(key: Key, created: set<string>, evidence: set<string>)
    | Rejected(key: Key)

  /** `settle`: the first terminal progress stays. */
  function Settling(r: Record, progress: Progress, result: string, warnings: set<string>): Record {
    if r.terminal.Some? then r
    else r.(terminal := Some(progress), result := result, warnings := r.warnings + warnings)
  }

  predicate Enabled(s: Intake, e: Event) {
    match e
    case Admitted(key, record) => key !in s.receipts && record.serial == s.admissions && record.terminal.None?
    case _ => e.key in s.receipts
  }

  function Apply(s: Intake, e: Event): Intake
    requires Enabled(s, e)
  {
    match e
    case Admitted(key, record) => Intake(s.receipts[key := record], s.admissions + 1)
    case Settled(key, progress, result, warnings) =>
      s.(receipts := s.receipts[key := Settling(s.receipts[key], progress, result, warnings)])
    case Traced(key, created, evidence) =>
      var r := s.receipts[key];
      s.(receipts := s.receipts[key := r.(created := r.created + created, evidence := r.evidence + evidence)])
    case Rejected(key) => s.(receipts := s.receipts - {key})
  }

  // ── Runs ───────────────────────────────────────────────────────────────

  /** Any interleaving of the ledger's operations, from nothing stored. */
  ghost predicate Run(es: seq<Event>)
    decreases |es|, 0
  {
    es == [] || (Run(es[..|es| - 1]) && Enabled(After(es[..|es| - 1]), es[|es| - 1]))
  }

  ghost function After(es: seq<Event>): Intake
    requires Run(es)
    decreases |es|, 1
  {
    if es == [] then NOTHING else Apply(After(es[..|es| - 1]), es[|es| - 1])
  }

  lemma RunNext(es: seq<Event>, e: Event)
    requires Run(es) && Enabled(After(es), e)
    ensures Run(es + [e]) && After(es + [e]) == Apply(After(es), e)
  {
    assert (es + [e])[..|es|] == es;
  }

  lemma {:induction false} RunPrefix(es: seq<Event>, i: nat)
    requires Run(es) && i <= |es|
    ensures Run(es[..i]) && (i < |es| ==> Enabled(After(es[..i]), es[i]))
    decreases |es|
  {
    if i == |es| {
      assert es[..i] == es;
    } else {
      var n := |es| - 1;
      RunPrefix(es[..n], i);
      assert es[..n][..i] == es[..i];
      if i < n {
        assert es[..n][i] == es[i];
      }
    }
  }

  /** The state after `i` events. */
  ghost function At(es: seq<Event>, i: nat): Intake
    requires Run(es) && i <= |es|
  {
    RunPrefix(es, i);
    After(es[..i])
  }

  lemma AtNext(es: seq<Event>, i: nat)
    requires Run(es) && i < |es|
    ensures Enabled(At(es, i), es[i]) && At(es, i + 1) == Apply(At(es, i), es[i])
  {
    RunPrefix(es, i);
    RunPrefix(es, i + 1);
    assert es[..i + 1][..i] == es[..i];
  }

  /** No capture with an unknown reference dropped the receipt between two moments. */
  ghost predicate Unrejected(es: seq<Event>, i: nat, j: nat, key: Key) {
    forall k :: i <= k < j <= |es| ==> es[k] != Rejected(key)
  }

  ghost predicate Bound(s: Intake, key: Key, r: Record) {
    key in s.receipts && s.receipts[key].serial == r.serial
  }

  /** Serials tell admissions apart. */
  lemma {:induction false} SerialsAreOld(es: seq<Event>, i: nat)
    requires Run(es) && i <= |es|
    ensures forall key :: key in At(es, i).receipts ==> At(es, i).receipts[key].serial < At(es, i).admissions
  {
    if i > 0 {
      SerialsAreOld(es, i - 1);
      AtNext(es, i - 1);
    }
  }

  /** What a stored record keeps as long as it is stored. */
  ghost predicate Keeps(r: Record, t: Record) {
    && t.serial == r.serial && t.intent == r.intent && t.sourceDigest == r.sourceDigest && t.acceptedSeq == r.acceptedSeq
    && t.createdAt == r.createdAt && r.created <= t.created && r.evidence <= t.evidence
    && (r.terminal.Some? ==> t.terminal == r.terminal && t.result == r.result && t.warnings == r.warnings)
  }

  /** Receipts are write-once: while no capture rejects a record, it stays bound, its meaning never changes, and its
      terminal progress, its result and its warnings are the first ones. So a failed or abandoned receipt never becomes
      available. */
  lemma {:induction false} TerminalIsFinal(es: seq<Event>, i: nat, j: nat, key: Key)
    requires Run(es) && i <= j <= |es| && key in At(es, i).receipts && Unrejected(es, i, j, key)
    ensures key in At(es, j).receipts && Keeps(At(es, i).receipts[key], At(es, j).receipts[key])
    decreases j
  {
    if i < j {
      TerminalIsFinal(es, i, j - 1, key);
      AtNext(es, j - 1);
    }
  }

  lemma {:induction false} LostSince(es: seq<Event>, i: nat, j: nat, key: Key, serial: nat)
    requires Run(es) && i <= j <= |es| && serial < At(es, i).admissions
    requires key in At(es, i).receipts ==> At(es, i).receipts[key].serial != serial
    ensures key in At(es, j).receipts ==> At(es, j).receipts[key].serial != serial
    ensures At(es, i).admissions <= At(es, j).admissions
    decreases j
  {
    if i < j {
      LostSince(es, i, j - 1, key, serial);
      AtNext(es, j - 1);
    }
  }

  /** A key stays bound to the record it was bound to exactly as long as no capture with an unknown reference rejects
      it, in every interleaving. */
  lemma BindingHoldsExactly(es: seq<Event>, i: nat, j: nat, key: Key)
    requires Run(es) && i <= j <= |es| && key in At(es, i).receipts
    ensures Bound(At(es, j), key, At(es, i).receipts[key]) <==> Unrejected(es, i, j, key)
  {
    if Unrejected(es, i, j, key) {
      TerminalIsFinal(es, i, j, key);
    } else {
      var k :| i <= k < j && es[k] == Rejected(key);
      SerialsAreOld(es, i);
      AtNext(es, k);
      AdmissionsGrow(es, i, k + 1);
      LostSince(es, k + 1, j, key, At(es, i).receipts[key].serial);
    }
  }

  lemma {:induction false} AdmissionsGrow(es: seq<Event>, i: nat, j: nat)
    requires Run(es) && i <= j <= |es|
    ensures At(es, i).admissions <= At(es, j).admissions
    decreases j
  {
    if i < j {
      AdmissionsGrow(es, i, j - 1);
      AtNext(es, j - 1);
    }
  }

  /** A key starts a second pass only after a capture with an unknown reference dropped its first receipt. */
  lemma SecondPassNeedsRejection(es: seq<Event>, i: nat, j: nat, key: Key)
    requires Run(es) && i < j < |es| && es[i].Admitted? && es[j].Admitted? && es[i].key == es[j].key == key
    ensures !Unrejected(es, i + 1, j, key)
  {
    AtNext(es, i);
    AtNext(es, j);
    if Unrejected(es, i + 1, j, key) {
      TerminalIsFinal(es, i + 1, j, key);
    }
  }
}
