/** The budgeted briefing: coverage, what may be acted on, and the bisection over the answer's size. */
module Briefing {
  import opened Common
  import opened Json
  import opened Receipts
  import opened Text

  const MAX_ITEMS := 128

  datatype Role = Fact | Constraint | Experience | Procedure | Warning | SourceText

  datatype Epistemic = Accepted | Denied | Contested | Uncertain | Insufficient | NotApplicable

  datatype Channel = Constraints | Commitments | Dependencies | Failures | Experiences | Skills | Evidence

  datatype Item = Item(text: string, role: Role, status: Epistemic, evidence: seq<string>, standing: Option<string>)

  datatype Candidate = Candidate(item: Item, required: bool)

  datatype MemoryItem = MemoryItem(ref: string, item: Item, actionEligible: bool)

  datatype Coverage = Coverage(complete: bool, states: seq<string>, pending: seq<Key>, unverified: seq<string>, actionEligible: bool)

  datatype Briefing = Briefing(items: seq<MemoryItem>, coverage: Coverage)

  /** What every briefing of one recall shares: the snapshot it was taken at, the channel plans before any budget, the
      progress of the receipts it waited for, and the values it is rendered with. */
  datatype Basis = Basis(snapshot: nat, basisRef: string, plans: map<Channel, bool>, after: seq<Progress>, unverified: seq<string>,
                         attentionMode: bool, refOf: Key -> string, scope: Json, summary: string, uncertainties: Json,
                         afterText: Json, attention: seq<Field>)

  // ── Channels ───────────────────────────────────────────────────────────

  const CHANNELS := [Constraints, Commitments, Dependencies, Failures, Experiences, Skills, Evidence]

  /** The channel that becomes incomplete when a candidate is left out. */
  function ChannelOf(c: Candidate): Channel {
    if c.item.role.Experience? then Experiences else if c.item.role.Procedure? then Skills else Evidence
  }

  predicate IncompleteIn(plans: map<Channel, bool>, ch: Channel) {
    ch in plans && !plans[ch]
  }

  function StateOf(b: Basis, plans: map<Channel, bool>, ch: Channel): string {
    if b.attentionMode then "not_applicable" else if IncompleteIn(plans, ch) then "incomplete" else "complete"
  }

  function States(b: Basis, plans: map<Channel, bool>): seq<string> {
    seq(|CHANNELS|, i requires 0 <= i < |CHANNELS| => StateOf(b, plans, CHANNELS[i]))
  }

  // ── Coverage ───────────────────────────────────────────────────────────

  predicate IsPending(p: Progress, snapshot: nat) {
    !p.phase.Available? || p.availableSeq.None? || p.availableSeq.value > snapshot
  }

  function PendingOf(after: seq<Progress>, snapshot: nat): (r: seq<Key>)
    ensures r == [] <==> forall p :: p in after ==> !IsPending(p, snapshot)
  {
    if after == [] then []
    else (if IsPending(after[0], snapshot) then [after[0].key] else []) + PendingOf(after[1..], snapshot)
  }

  function CoverageOf(b: Basis, plans: map<Channel, bool>): Coverage {
    var pending := PendingOf(b.after, b.snapshot);
    var complete := (forall i :: 0 <= i < |CHANNELS| ==> !IncompleteIn(plans, CHANNELS[i])) && pending == [];
    Coverage(complete, States(b, plans), pending, b.unverified, complete && b.unverified == [])
  }

  /** A fact or constraint that is accepted. */
  predicate IsActionable(i: Item) {
    i.status.Accepted? && (i.role.Fact? || i.role.Constraint?)
  }

  function RefAt(b: Basis, i: nat): string {
    b.basisRef + [':'] + Decimal(i)
  }

  function ItemsOf(b: Basis, kept: seq<Candidate>, eligible: bool): (r: seq<MemoryItem>)
    ensures |r| == |kept|
  {
    seq(|kept|, i requires 0 <= i < |kept| => MemoryItem(RefAt(b, i), kept[i].item, eligible && IsActionable(kept[i].item)))
  }

  /** `assemble`: the briefing for a candidate list and its plans. */
  function Assemble(b: Basis, kept: seq<Candidate>, plans: map<Channel, bool>): Briefing {
    var coverage := CoverageOf(b, plans);
    Briefing(ItemsOf(b, kept, coverage.actionEligible), coverage)
  }

  // ── Its text ───────────────────────────────────────────────────────────

  function RoleText(r: Role): (s: string)
    ensures |s| >= 4
  {
    match r
    case Fact => "fact"
    case Constraint => "constraint"
    case Experience => "experience"
    case Procedure => "procedure"
    case Warning => "warning"
    case SourceText => "source"
  }

  function StatusText(s: Epistemic): (r: string)
    ensures |r| >= 8
  {
    match s
    case Accepted => "accepted"
    case Denied => "rejected"
    case Contested => "contested"
    case Uncertain => "uncertain"
    case Insufficient => "insufficient"
    case NotApplicable => "not_applicable"
  }

  function Strings(s: seq<string>): Json {
    Arr(seq(|s|, i requires 0 <= i < |s| => Str(s[i])))
  }

  const ITEM_NAMES := ["ref", "text", "role", "epistemic_status", "evidence_refs", "action_eligible"]
  const CHANNEL_NAMES := ["constraints", "commitments", "dependencies", "failures", "experiences", "skills", "evidence"]
  const COVERAGE_NAMES := ["complete", "scope", "channels", "pending_receipts", "unverified_preconditions", "action_eligible"]
  const BRIEFING_NAMES := ["summary", "items", "uncertainties", "basis_ref", "coverage", "after"]

  function ItemValues(m: MemoryItem): (r: seq<Json>)
    ensures |r| == |ITEM_NAMES|
  {
    [Str(m.ref), Str(m.item.text), Str(RoleText(m.item.role)), Str(StatusText(m.item.status)), Strings(m.item.evidence),
     Bool(m.actionEligible)]
  }

  function Standing(i: Item): seq<Field> {
    if i.standing.None? then [] else [Field("standing", Str(i.standing.value))]
  }

  function ItemText(m: MemoryItem): Json {
    Obj(Named(ITEM_NAMES, ItemValues(m)) + Standing(m.item))
  }

  function ItemTexts(items: seq<MemoryItem>): seq<Json> {
    seq(|items|, i requires 0 <= i < |items| => ItemText(items[i]))
  }

  function ChannelsText(states: seq<string>): Json
    requires |states| == |CHANNELS|
  {
    Obj(Named(CHANNEL_NAMES, seq(|states|, i requires 0 <= i < |states| => Str(states[i]))) + [])
  }

  function CoverageValues(b: Basis, c: Coverage): (r: seq<Json>)
    requires |c.states| == |CHANNELS|
    ensures |r| == |COVERAGE_NAMES|
  {
    [Bool(c.complete), b.scope, ChannelsText(c.states),
     Strings(seq(|c.pending|, i requires 0 <= i < |c.pending| => b.refOf(c.pending[i]))),
     Strings(c.unverified), Bool(c.actionEligible)]
  }

  function CoverageText(b: Basis, c: Coverage): Json
    requires |c.states| == |CHANNELS|
  {
    Obj(Named(COVERAGE_NAMES, CoverageValues(b, c)) + [])
  }

  function Values(b: Basis, r: Briefing): (v: seq<Json>)
    requires |r.coverage.states| == |CHANNELS|
    ensures |v| == |BRIEFING_NAMES|
  {
    [Str(b.summary), Arr(ItemTexts(r.items)), b.uncertainties, Str(b.basisRef), CoverageText(b, r.coverage), b.afterText]
  }

  function TextOf(b: Basis, r: Briefing): Json
    requires |r.coverage.states| == |CHANNELS|
  {
    Obj(Named(BRIEFING_NAMES, Values(b, r)) + b.attention)
  }

  /** The size `fitsBudget` measures. */
  function SizeOf(b: Basis, r: Briefing): nat
    requires |r.coverage.states| == |CHANNELS|
  {
    Size(TextOf(b, r))
  }
}
