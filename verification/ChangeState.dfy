/** The durable state of managed memory changes and the writes the protocol makes to it.
    A run is a sequence of durable states, one event (one storage or native write) apart, so a state between
    two events is exactly what an interruption leaves behind. */
module ChangeState {
  import opened Common
  import opened Nexus

  /** A journal key: the digest of caller and operation id, in `kv.list` order. */
  type Key = nat

  datatype ChangeKind = Correct | WorldChange | Misrecorded | Suppress | Delete

  datatype Progress = Prepared | Committing | Reconciling | Confirmed | Discarded

  datatype Record = Record(id: Id, revision: nat, proposition: Id, sources: set<Id>, content: Content)

  datatype Target = Target(id: Id, revision: nat, kind: Kind)

  datatype Preview = Preview(record: Record, newValue: Option<string>, targets: seq<Target>, excluded: set<string>)

  datatype Input = Input(recordId: Id, revision: nat, kind: ChangeKind, newValue: Option<string>)

  /** A journal entry. `digest` is the digest of the preview as prepared; a digest is injective, so it is
      modelled by the preview itself, and it survives when the stored preview is cleared. */
  datatype Change = Change(input: Input, digest: Preview, state: Progress, expiresAt: int, preview: Preview,
                           requests: seq<Request>, completed: seq<Token>,
                           replacement: Option<Id>, sourceEvidence: Option<Id>, error: bool)

  datatype Scrub = Scrub(ids: set<Id>, except: Option<Key>)

  datatype Durable = Durable(epoch: nat, pending: Option<Key>, changes: map<Key, Change>, scrub: Option<Scrub>,
                             suppressed: set<string>, graph: Graph)

  predicate Revises(kind: ChangeKind) {
    kind == Correct || kind == WorldChange
  }

  function TargetIds(c: Change): set<Id> {
    set t | t in c.preview.targets :: t.id
  }

  function RequestFor(kind: ChangeKind, t: Target): Request {
    if kind == Delete then Purge(t.id, t.revision) else Archive(t.id, t.revision)
  }

  function RequestsFor(kind: ChangeKind, preview: Preview): seq<Request> {
    if kind == Correct then [Supersede(preview.record.id, preview.record.revision)]
    else if kind == WorldChange then [Extend(preview.record.id)]
    else seq(|preview.targets|, i requires 0 <= i < |preview.targets| => RequestFor(kind, preview.targets[i]))
  }

  /** The name of the i-th request in `completed` and in its idempotency key. */
  function TokenOf(c: Change, i: nat): Token
    requires Revises(c.input.kind) || i < |c.preview.targets|
  {
    if Revises(c.input.kind) then Revision else On(c.preview.targets[i].id)
  }

  function ClearRecord(c: Change): Change {
    c.(preview := c.preview.(record := c.preview.record.(content := NO_CONTENT)))
  }

  function ClearContent(c: Change): Change {
    var r := ClearRecord(c);
    r.(preview := r.preview.(newValue := None), error := false, requests := [])
  }

  // ── Scrubbing ──────────────────────────────────────────────────────────

  predicate OldErased(c: Change, ids: set<Id>) {
    var r := c.preview.record;
    r.id in ids || r.proposition in ids || exists s :: s in r.sources && s in ids
  }

  predicate ReplacementErased(c: Change, ids: set<Id>) {
    (c.replacement.Some? && c.replacement.value in ids) || (c.sourceEvidence.Some? && c.sourceEvidence.value in ids)
  }

  predicate Touches(c: Change, ids: set<Id>) {
    OldErased(c, ids) || ReplacementErased(c, ids)
  }

  function ScrubChange(c: Change, ids: set<Id>): Change {
    if !Touches(c, ids) then c
    else
      var d := if c.state == Prepared then c.(state := Discarded) else c;
      if ReplacementErased(c, ids) || d.state != Confirmed then ClearContent(d) else ClearRecord(d)
  }

  /** What an erasure promises of one journal entry. */
  predicate Clean(c: Change, ids: set<Id>) {
    Touches(c, ids) ==>
      && c.preview.record.content == NO_CONTENT && c.state != Prepared
      && (c.state != Confirmed || ReplacementErased(c, ids) ==> c.requests == [] && c.preview.newValue == None)
  }

  ghost predicate ScrubComplete(changes: map<Key, Change>, s: Scrub) {
    forall k :: k in changes && Some(k) != s.except ==> Clean(changes[k], s.ids)
  }

  /** A deletion's own entry, once it is confirmed. */
  predicate Emptied(c: Change) {
    c.preview.record.content == NO_CONTENT && c.requests == [] && c.preview.newValue == None
  }

  /** Nothing of what a deletion erased is left in the journal. */
  ghost predicate Disposed(changes: map<Key, Change>, k: Key, c: Change) {
    Emptied(c) && ScrubComplete(changes, Scrub(TargetIds(c), Some(k)))
  }

  // ── Required native state ──────────────────────────────────────────────

  predicate Reached(g: Graph, kind: ChangeKind, id: Id) {
    id in g.elements && (g.elements[id].state == Purged || (kind == Suppress && g.elements[id].state == Archived))
  }

  /** The claim a revision rests on is readable. */
  predicate ClaimReadable(g: Graph, id: Id) {
    && Live(g, id) && g.elements[id].kind == Assertion
    && Live(g, g.elements[id].proposition) && g.elements[id].evidence <= g.elements.Keys
  }

  /** What the last check of `apply` reads: the old claim's status and the replacement, or each target's state. */
  predicate InRequiredState(g: Graph, c: Change) {
    if Revises(c.input.kind) then
      && ClaimReadable(g, c.preview.record.id)
      && g.elements[c.preview.record.id].status == (if c.input.kind == Correct then Superseded else Current)
      && c.replacement.Some?
    else forall t :: t in c.preview.targets ==> Reached(g, c.input.kind, t.id)
  }

  /** Every target of the change is in the state the change promises, and a revision's statement was applied. */
  ghost predicate Verified(g: Graph, k: Key, c: Change) {
    InRequiredState(g, c) && (Revises(c.input.kind) ==> (k, Revision) in g.applied)
  }

  /** No live element outside `ids` refers into `ids`. */
  ghost predicate Sealed(g: Graph, ids: set<Id>) {
    forall x, id :: Live(g, x) && id in g.elements[x].refs && id in ids ==> x in ids
  }

  ghost predicate DistinctTargets(p: Preview) {
    forall i, j :: 0 <= i < j < |p.targets| ==> p.targets[i].id < p.targets[j].id
  }

  // ── Resumability ───────────────────────────────────────────────────────

  /** A target this change has not written yet is as the preview saw it, and the engine will take the
      request. */
  ghost predicate Pristine(g: Graph, k: Key, kind: ChangeKind, t: Target) {
    && (k, On(t.id)) !in g.applied
    && Accepts(g, RequestFor(kind, t))
  }

  ghost predicate ErasureResumable(g: Graph, k: Key, c: Change) {
    && DistinctTargets(c.preview) && c.replacement == None && c.sourceEvidence == None
    && Sealed(g, TargetIds(c))
    && (forall t :: t in c.preview.targets ==> Reached(g, c.input.kind, t.id) || Pristine(g, k, c.input.kind, t))
    && (c.input.kind == Delete ==>
          forall t :: t in c.preview.targets && Reached(g, Delete, t.id) ==> (k, On(t.id)) in g.applied)
    && (forall t :: t in c.preview.targets && On(t.id) in c.completed ==> Reached(g, c.input.kind, t.id))
    && (|| c.requests == RequestsFor(c.input.kind, c.preview)
        || (c.requests == [] && forall t :: t in c.preview.targets ==> Reached(g, c.input.kind, t.id)))
  }

  ghost predicate RevisionResumable(g: Graph, k: Key, c: Change) {
    var id := c.preview.record.id;
    && Revises(c.input.kind) && c.requests == RequestsFor(c.input.kind, c.preview)
    && ClaimReadable(g, id)
    && ((k, Revision) in g.applied ==>
          && g.applied[(k, Revision)].created.Some?
          && g.elements[id].status == (if c.input.kind == Correct then Superseded else Current))
    && ((k, Revision) !in g.applied ==> g.elements[id].status == Current && Accepts(g, c.requests[0]))
    && (Revision in c.completed ==> (k, Revision) in g.applied && c.replacement.Some?)
    && (c.replacement.Some? ==> (k, Revision) in g.applied && c.replacement == g.applied[(k, Revision)].created)
    && (c.sourceEvidence.Some? ==> (k, Revision) in g.applied && c.sourceEvidence == g.applied[(k, Revision)].input)
  }

  /** What a call that finds this entry pending needs to finish it. */
  ghost predicate Resumable(g: Graph, k: Key, c: Change) {
    if Revises(c.input.kind) then RevisionResumable(g, k, c)
    else c.input.kind != Misrecorded && ErasureResumable(g, k, c)
  }

  // ── Events ─────────────────────────────────────────────────────────────

  datatype Event =
    | Opened(epoch: nat, sources: set<string>)
    | Written(epoch: nat, sources: set<string>)
    | Administered
    | Stored(key: Key)
    | Dropped(key: Key)
    | Excluded(key: Key, source: string)
    | Fenced(key: Key)
    | Advanced(key: Key)
    | Mutated(key: Key, token: Token)
    | Cleared(key: Key)
    | Invalidated
    | ScrubOpened(ids: set<Id>)
    | ScrubbedEntry(key: Key)
    | ScrubClosed

  predicate Open(d: Durable) {
    d.pending == None && d.scrub == None
  }

  ghost predicate Fresh(c: Change) {
    && c.state == Prepared && c.preview == c.digest && c.completed == []
    && c.requests == RequestsFor(c.input.kind, c.preview)
    && c.replacement == None && c.sourceEvidence == None && c.input.kind != Misrecorded
  }

  /** What a proposal rests on is there. */
  ghost predicate Standing(g: Graph, r: Record) {
    Live(g, r.id) && Live(g, r.proposition) && forall s :: s in r.sources ==> Live(g, s)
  }

  /** What a journal write by `commit` or `apply` leaves alone. */
  ghost predicate SameChange(c: Change, c': Change) {
    && c'.input == c.input && c'.digest == c.digest && c'.preview.targets == c.preview.targets
    && c'.preview.record.(content := NO_CONTENT) == c.preview.record.(content := NO_CONTENT)
  }

  ghost predicate Next(d: Durable, e: Event, d': Durable) {
    match e
    case Opened(epoch, sources) =>
      Open(d) && epoch == d.epoch && sources !! d.suppressed && d' == d
    case Written(epoch, _) =>
      Open(d) && epoch == d.epoch && ForeignWrite(d.graph, d'.graph) && d' == d.(graph := d'.graph)
    case Administered =>
      Open(d) && ForeignWrite(d.graph, d'.graph) && d' == d.(graph := d'.graph)
    case Stored(k) =>
      && Open(d) && k !in d.changes && k in d'.changes && Fresh(d'.changes[k])
      && Standing(d.graph, d'.changes[k].preview.record)
      && d' == d.(changes := d.changes[k := d'.changes[k]])
    case Dropped(k) =>
      && k in d.changes && d.changes[k].state in {Prepared, Discarded} && d.pending != Some(k)
      && d' == d.(changes := d.changes[k := ClearContent(d.changes[k].(state := Discarded))])
    case Excluded(k, source) =>
      && Open(d) && k in d.changes && d.changes[k].state == Prepared && source in d.changes[k].preview.excluded
      && d' == d.(suppressed := d.suppressed + {source})
    case Fenced(k) =>
      && Open(d) && k in d.changes && d.changes[k].state == Prepared
      && Resumable(d.graph, k, d.changes[k]) && d.changes[k].preview.excluded <= d.suppressed
      && d' == d.(epoch := d.epoch + 1, pending := Some(k))
    case Advanced(k) =>
      && d.pending == Some(k) && k in d.changes && k in d'.changes
      && SameChange(d.changes[k], d'.changes[k]) && Resumable(d.graph, k, d'.changes[k])
      && d'.changes[k].state != Discarded && (d'.changes[k].state == Prepared ==> d.changes[k].state == Prepared)
      && (d'.changes[k].state == Confirmed ==>
            && (d.scrub == None || d.changes[k].state == Confirmed) && Verified(d.graph, k, d'.changes[k])
            && (d'.changes[k].input.kind == Delete ==> Disposed(d.changes, k, d'.changes[k])))
      && d' == d.(changes := d.changes[k := d'.changes[k]])
    case Mutated(k, token) =>
      && d.pending == Some(k) && k in d.changes && (k, token) !in d.graph.applied
      && (exists i :: 0 <= i < |d.changes[k].requests| && (Revises(d.changes[k].input.kind) || i < |d.changes[k].preview.targets|)
           && TokenOf(d.changes[k], i) == token && Accepts(d.graph, d.changes[k].requests[i])
           && d' == d.(graph := Effect(d.graph, k, token, d.changes[k].requests[i])))
    case Cleared(k) =>
      && d.pending == Some(k) && k in d.changes && d.changes[k].state == Confirmed && d.scrub == None
      && d' == d.(pending := None)
    case Invalidated =>
      Open(d) && d' == d.(epoch := d.epoch + 1)
    case ScrubOpened(ids) =>
      && (d.scrub.Some? ==> d.scrub.value.ids <= ids)
      && (d.pending.Some? ==> d.pending.value in d.changes && d.changes[d.pending.value].input.kind == Delete)
      && d' == d.(scrub := Some(Scrub(ids, d.pending)))
    case ScrubbedEntry(k) =>
      && d.scrub.Some? && k in d.changes && d.scrub.value.except != Some(k)
      && d' == d.(changes := d.changes[k := ScrubChange(d.changes[k], d.scrub.value.ids)])
    case ScrubClosed =>
      && d.scrub.Some? && ScrubComplete(d.changes, d.scrub.value)
      && d' == d.(scrub := None)
  }

  // ── The invariant of every durable state ───────────────────────────────

  ghost predicate Inv(d: Durable) {
    && Wellformed(d.graph)
    && (forall k, t :: (k, t) in d.graph.applied ==> k in d.changes)
    && (forall k :: k in d.changes && d.changes[k].state in {Committing, Reconciling} ==> d.pending == Some(k))
    && (d.pending.Some? ==>
          && d.pending.value in d.changes && d.changes[d.pending.value].state != Discarded
          && Resumable(d.graph, d.pending.value, d.changes[d.pending.value]))
    && (d.scrub.Some? ==>
          && d.scrub.value.except == d.pending
          && (d.pending.Some? ==> d.changes[d.pending.value].input.kind == Delete))
    && (forall k :: k in d.changes && d.changes[k].state == Prepared && d.pending != Some(k) ==>
          Fresh(d.changes[k]) && forall t :: (k, t) !in d.graph.applied)
    && (forall k :: k in d.changes && d.changes[k].state == Confirmed && d.changes[k].input.kind == Delete ==>
          Erased(d.graph, k, d.changes[k]))
    && (d.pending.Some? && d.changes[d.pending.value].state == Confirmed ==>
          Verified(d.graph, d.pending.value, d.changes[d.pending.value]))
  }

  predicate ConfirmedDeletion(d: Durable, k: Key) {
    k in d.changes && d.changes[k].state == Confirmed && d.changes[k].input.kind == Delete
  }

  /** What a confirmed deletion erased is gone from the journal, and no change still being carried out concerns it. */
  ghost predicate Spotless(d: Durable) {
    forall k :: ConfirmedDeletion(d, k) ==> Disposed(d.changes, k, d.changes[k]) && Unconcerned(d, k, TargetIds(d.changes[k]))
  }

  ghost predicate Unconcerned(d: Durable, k: Key, ids: set<Id>) {
    d.pending.Some? && d.pending != Some(k) && d.pending.value in d.changes ==>
      && !Touches(d.changes[d.pending.value], ids)
      && ((d.pending.value, Revision) in d.graph.applied ==> Avoids(d.graph.applied[(d.pending.value, Revision)], ids))
  }

  /** What a revision created is not among some ids. */
  predicate Avoids(h: Handles, ids: set<Id>) {
    (h.created.Some? ==> h.created.value !in ids) && (h.input.Some? ==> h.input.value !in ids)
  }

  /** Every target purged by this change's own mutation, and no live element refers to one. */
  ghost predicate Erased(g: Graph, k: Key, c: Change) {
    && (forall t :: t in c.preview.targets ==> IsPurged(g, t.id) && (k, On(t.id)) in g.applied)
    && (forall x, id :: Live(g, x) && id in g.elements[x].refs ==> id !in TargetIds(c))
  }

  ghost predicate Start(d: Durable) {
    && d.epoch == 0 && Open(d) && d.changes == map[] && d.suppressed == {}
    && Wellformed(d.graph) && d.graph.applied == map[]
  }

  /** A run: states one event apart, from an empty journal. */
  ghost predicate Run(h: seq<Durable>, es: seq<Event>) {
    && |h| == |es| + 1
    && Start(h[0])
    && forall i :: 0 <= i < |es| ==> Next(h[i], es[i], h[i + 1])
  }
}
