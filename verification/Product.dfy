/** `MemoryProduct`: managed memory changes over a journal in durable storage. Every storage write and every
    native mutation is one event of the run kept in `history`, so an interrupted call leaves a state of a run. */
module Product {
  import opened Common
  import opened Nexus
  import opened ChangeState
  import opened Closure
  import opened Journal
  import opened Text
  import Runs = ChangeRuns
  import Utf8

  const MAX_SAFE_INTEGER := 9007199254740991
  const PREVIEW_LIFETIME := 600_000

  /** How the next storage or native write goes: it succeeds, it throws, or the isolate dies before it. */
  datatype Fate = Succeeds | Throws | Dies

  /** How the next write goes under some weather, and the weather after it. */
  function FateOf(weather: seq<Fate>): Fate {
    if weather == [] then Succeeds else weather[0]
  }

  function Later(weather: seq<Fate>): seq<Fate> {
    if weather == [] then [] else weather[1..]
  }

  /** Weather in which `n` writes succeed and the isolate dies before the next. */
  predicate CutAfter(weather: seq<Fate>, n: nat) {
    |weather| == n + 1 && weather[n] == Dies && forall i :: 0 <= i < n ==> weather[i] == Succeeds
  }

  /** The caller of one call: who it is, whether its grants read everything the call loads, and the clock. */
  datatype Caller = Caller(principal: string, granted: bool, now: int)

  /** What the statements of a change need beside its preview: for a revision, that the claim's object is a Concept the
      caller reads; for a correction, a start of its interval or a time it was asserted at; and that the native dry run
      of the statements passes. */
  datatype Draft = Draft(conceptObject: bool, hasStart: bool, dryRun: bool)

  predicate Statable(kind: ChangeKind, draft: Draft) {
    (Revises(kind) ==> draft.conceptObject) && (kind == Correct ==> draft.hasStart) && draft.dryRun
  }

  // ── Previews ───────────────────────────────────────────────────────────

  /** The claim as a reader sees it, when it, its tuple and its sources are readable. */
  function RecordOf(g: Graph, id: Id): Option<Record> {
    if ClaimReadable(g, id) then
      var e := g.elements[id];
      Some(Record(id, e.version, e.proposition, e.evidence, e.content))
    else None
  }

  /** Every source is there, with its bytes, and its identity is bound. */
  predicate SourcesComplete(g: Graph, bindings: map<Id, set<string>>, r: Record) {
    r.sources != {} && forall s :: s in r.sources ==> Live(g, s) && s in bindings
  }

  function SourceKeys(bindings: map<Id, set<string>>, ids: set<Id>): set<string> {
    set id, key | id in ids && id in bindings && key in bindings[id] :: key
  }

  function TargetOf(g: Graph, id: Id): Target
    requires id in g.elements
  {
    Target(id, g.elements[id].version, g.elements[id].kind)
  }

  /** A replacement value: not blank, at most 8192 bytes, and not what the claim already says. */
  predicate Acceptable(value: string, shown: string) {
    Trim(value) != "" && Utf8Size(value) <= 8192 && value != shown
  }

  ghost predicate RevisionAllowed(g: Graph, r: Record, input: Input, principal: string)
    requires r.id in g.elements
  {
    var e := g.elements[r.id];
    && e.status == Current && e.state == Active && e.supports && e.actor == principal
    && input.newValue.Some? && Acceptable(input.newValue.value, r.content.objectLabel)
  }

  /** A claim the caller can read: it, its tuple and its sources are there. */
  ghost predicate Readable(g: Graph, id: Id) {
    && Live(g, id) && g.elements[id].kind == Assertion && Live(g, g.elements[id].proposition)
    && forall s :: s in g.elements[id].evidence ==> s in g.elements
  }

  /** A value that is not blank, takes at most 8192 bytes in UTF-8, and is not what the claim says. */
  ghost predicate IsNewValue(value: string, shown: string) {
    && (exists i :: 0 <= i < |value| && !IsSpace(value[i])) && |Utf8.Encode(value)| <= 8192 && value != shown
  }

  /** When a preview is given: to a caller who reads the claim at the revision named, with every source there and known;
      for a revision by the claim's own current actor, of a new value; for an erasure, where the search may go. */
  ghost predicate MayPreview(g: Graph, bindings: map<Id, set<string>>, input: Input, who: Caller) {
    && who.granted && Readable(g, input.recordId)
    && var e := g.elements[input.recordId];
       && e.version == input.revision
       && e.evidence != {} && (forall s :: s in e.evidence ==> Live(g, s) && s in bindings)
       && if Revises(input.kind)
          then
            && e.status == Current && e.state == Active && e.supports && e.actor == who.principal
            && input.newValue.Some? && IsNewValue(input.newValue.value, e.content.objectLabel)
          else input.newValue == None && Deletable(g, bindings.Keys, e.proposition)
  }

  lemma AcceptableExactly(value: string, shown: string)
    ensures Acceptable(value, shown) <==> IsNewValue(value, shown)
  {
    BlankExactly(value);
    Utf8.SizeIsLength(value);
  }

  lemma MayPreviewExactly(g: Graph, bindings: map<Id, set<string>>, input: Input, who: Caller)
    ensures MayPreview(g, bindings, input, who) <==>
      (&& who.granted && RecordOf(g, input.recordId).Some?
       && var r := RecordOf(g, input.recordId).value;
          && r.revision == input.revision && SourcesComplete(g, bindings, r)
          && if Revises(input.kind)
             then RevisionAllowed(g, r, input, who.principal)
             else input.newValue == None && Deletable(g, bindings.Keys, r.proposition))
  {
    if RecordOf(g, input.recordId).Some? && input.newValue.Some? {
      AcceptableExactly(input.newValue.value, g.elements[input.recordId].content.objectLabel);
    }
  }

  /** What a returned preview says, in terms of the graph it was taken from. */
  ghost predicate PreviewOf(g: Graph, bindings: map<Id, set<string>>, input: Input, principal: string, p: Preview) {
    && RecordOf(g, input.recordId) == Some(p.record)
    && p.record.revision == input.revision && SourcesComplete(g, bindings, p.record)
    && p.newValue == input.newValue
    && DistinctTargets(p)
    && (if Revises(input.kind) then
          && RevisionAllowed(g, p.record, input, principal)
          && p.targets == [Target(p.record.id, p.record.revision, Assertion)]
          && p.excluded == SourceKeys(bindings, p.record.sources)
        else
          && input.newValue == None
          && (forall x :: x in Ids(p) <==> Reaches(g, p.record.proposition, x) && Live(g, x))
          && (forall t :: t in p.targets ==> t.id in g.elements && t == TargetOf(g, t.id))
          && (forall x :: x in Ids(p) ==> MayErase(g, bindings.Keys, x))
          && p.excluded == SourceKeys(bindings, p.record.sources + Sources(g, Ids(p))))
  }

  /** A source whose identities a change excludes: one its claim cites, or, for an erasure, an Evidence among its targets. */
  ghost predicate Excludes(kind: ChangeKind, p: Preview, source: Id) {
    source in p.record.sources || (!Revises(kind) && exists t :: t in p.targets && t.id == source && t.kind.Evidence?)
  }

  /** A preview names every identity bound to a source it excludes, and no other. */
  ghost predicate ExcludedExactly(bindings: map<Id, set<string>>, kind: ChangeKind, p: Preview) {
    forall key :: key in p.excluded <==> exists id :: id in bindings && key in bindings[id] && Excludes(kind, p, id)
  }

  /** The record of a preview is the claim as it stands. */
  ghost predicate Shows(g: Graph, id: Id, r: Record) {
    && Live(g, id) && g.elements[id].kind.Assertion? && Live(g, g.elements[id].proposition)
    && r.id == id && r.revision == g.elements[id].version && r.proposition == g.elements[id].proposition
    && r.sources == g.elements[id].evidence && r.content == g.elements[id].content
    && r.sources != {}
  }

  lemma PreviewExcludes(g: Graph, bindings: map<Id, set<string>>, input: Input, principal: string, p: Preview)
    requires PreviewOf(g, bindings, input, principal, p)
    ensures ExcludedExactly(bindings, input.kind, p) && Shows(g, input.recordId, p.record)
  {
    if !Revises(input.kind) {
      forall id
        ensures id in Sources(g, Ids(p)) <==> exists t :: t in p.targets && t.id == id && t.kind.Evidence?
      {
        if id in Sources(g, Ids(p)) {
          var t :| t in p.targets && t.id == id;
          assert t.kind.Evidence?;
        }
      }
    }
  }

  function Ids(p: Preview): set<Id> {
    set t | t in p.targets :: t.id
  }

  function Sources(g: Graph, ids: set<Id>): set<Id> {
    set x | x in ids && x in g.elements && g.elements[x].kind == Evidence
  }

  /** What the search returned, closed under references, leaves no live element referring into it. */
  lemma ClosedIsSealed(g: Graph, root: Id, ids: set<Id>)
    requires forall x :: x in ids <==> Reaches(g, root, x) && Live(g, x)
    ensures Sealed(g, ids)
  {
    forall x, id | Live(g, x) && id in g.elements[x].refs && id in ids
      ensures x in ids
    {
      ReachesNext(g, root, id, x);
    }
  }

  ghost predicate Ascending(ts: seq<Target>) {
    forall i, j :: 0 <= i < j < |ts| ==> ts[i].id < ts[j].id
  }

  lemma TailTargets(ts: seq<Target>)
    requires ts != [] && Ascending(ts)
    ensures Ascending(ts[1..]) && forall t :: t in ts[1..] <==> t in ts && t != ts[0]
    ensures forall t :: t in ts ==> ts[0].id <= t.id
  {
    assert ts == [ts[0]] + ts[1..];
    assert forall i :: 0 <= i < |ts[1..]| ==> ts[1..][i] == ts[i + 1] && ts[1..][i].id > ts[0].id;
  }

  /** Two ascending target lists of the same elements as they stand are one list. */
  lemma {:induction false} TargetsAreUnique(g: Graph, a: seq<Target>, b: seq<Target>)
    requires Ascending(a) && Ascending(b)
    requires forall t :: t in a || t in b ==> t.id in g.elements && t == TargetOf(g, t.id)
    requires forall t :: t in a <==> t in b
    ensures a == b
    decreases |a|
  {
    assert b != [] ==> b[0] in a;
    if a != [] {
      assert a[0] in b && b[0] in a;
      TailTargets(a);
      TailTargets(b);
      assert a[0] == b[0];
      TargetsAreUnique(g, a[1..], b[1..]);
    }
  }

  /** A graph gives one preview for an input. */
  lemma PreviewIsUnique(g: Graph, bindings: map<Id, set<string>>, input: Input, principal: string, p: Preview, q: Preview)
    requires PreviewOf(g, bindings, input, principal, p) && PreviewOf(g, bindings, input, principal, q)
    ensures p == q
  {
    if !Revises(input.kind) {
      forall x
        ensures x in Ids(p) <==> x in Ids(q)
      {
      }
      assert Ids(p) == Ids(q);
      forall t
        ensures t in p.targets <==> t in q.targets
      {
        if t in p.targets {
          assert t.id in Ids(q);
        }
        if t in q.targets {
          assert t.id in Ids(p);
        }
      }
      TargetsAreUnique(g, p.targets, q.targets);
    }
  }

  /** A change prepared on this graph can be carried through from it. */
  lemma PreviewIsResumable(g: Graph, bindings: map<Id, set<string>>, input: Input, principal: string, k: Key, c: Change)
    requires PreviewOf(g, bindings, input, principal, c.preview) && input.kind == c.input.kind && Fresh(c)
    requires forall t :: (k, t) !in g.applied
    ensures Resumable(g, k, c)
  {
    if !Revises(c.input.kind) {
      assert TargetIds(c) == Ids(c.preview);
      ClosedIsSealed(g, c.preview.record.proposition, TargetIds(c));
      forall t | t in c.preview.targets
        ensures Reached(g, c.input.kind, t.id) || Pristine(g, k, c.input.kind, t)
        ensures !Reached(g, Delete, t.id)
      {
        assert t.id in Ids(c.preview);
        assert Live(g, t.id) && MayErase(g, bindings.Keys, t.id);
      }
    }
  }

  function TargetList(g: Graph, ids: seq<Id>): (r: seq<Target>)
    requires forall id :: id in ids ==> id in g.elements
    ensures |r| == |ids| && forall i :: 0 <= i < |ids| ==> r[i] == TargetOf(g, ids[i])
  {
    seq(|ids|, i requires 0 <= i < |ids| => TargetOf(g, ids[i]))
  }

  function ErasurePreview(g: Graph, bindings: map<Id, set<string>>, record: Record, ids: set<Id>): Preview
    requires ids <= g.elements.Keys
  {
    Preview(record, None, TargetList(g, SortedIds(ids)), SourceKeys(bindings, record.sources + Sources(g, ids)))
  }

  lemma ErasurePreviewTargets(g: Graph, bindings: map<Id, set<string>>, record: Record, ids: set<Id>)
    requires ids <= g.elements.Keys
    ensures var p := ErasurePreview(g, bindings, record, ids);
      && DistinctTargets(p) && Ids(p) == ids
      && forall t :: t in p.targets ==> t.id in g.elements && t == TargetOf(g, t.id)
  {
    var p := ErasurePreview(g, bindings, record, ids);
    var sorted := SortedIds(ids);
    forall id | id in ids
      ensures id in Ids(p)
    {
      var i :| 0 <= i < |sorted| && sorted[i] == id;
      assert p.targets[i] in p.targets;
    }
  }

  lemma RevisionPreviewIs(g: Graph, bindings: map<Id, set<string>>, input: Input, principal: string, r: Record, p: Preview)
    requires RecordOf(g, input.recordId) == Some(r) && r.revision == input.revision && SourcesComplete(g, bindings, r)
    requires Revises(input.kind) && RevisionAllowed(g, r, input, principal)
    requires p == Preview(r, input.newValue, [Target(r.id, r.revision, Assertion)], SourceKeys(bindings, r.sources))
    ensures PreviewOf(g, bindings, input, principal, p)
  {
  }

  lemma ErasurePreviewIs(g: Graph, bindings: map<Id, set<string>>, input: Input, principal: string, r: Record, ids: set<Id>, p: Preview)
    requires RecordOf(g, input.recordId) == Some(r) && r.revision == input.revision && SourcesComplete(g, bindings, r)
    requires !Revises(input.kind) && input.newValue == None && ids <= g.elements.Keys
    requires forall x :: x in ids <==> Reaches(g, r.proposition, x) && Live(g, x)
    requires forall x :: x in ids ==> MayErase(g, bindings.Keys, x)
    requires p == ErasurePreview(g, bindings, r, ids)
    ensures PreviewOf(g, bindings, input, principal, p)
  {
    ErasurePreviewTargets(g, bindings, r, ids);
  }

  // ── The stored entry, as each call reads and rewrites it ───────────────

  function Expired(c: Change, k: Key, pending: Option<Key>, now: int): Change {
    if c.state == Prepared && c.expiresAt < now && pending != Some(k) then ClearContent(c.(state := Discarded)) else c
  }

  /** The ids of a scrub that did not finish. */
  function MarkedIds(scrub: Option<Scrub>): set<Id> {
    if scrub.Some? then scrub.value.ids else {}
  }

  /** What the scrub makes of one entry. */
  function Treated(c: Change, k: Key, pending: Option<Key>, ids: set<Id>, now: int): Change {
    if pending == Some(k) then c else ScrubChange(Expired(c, k, pending, now), ids)
  }

  /** An entry named an erased element: as its claim, the claim's tuple or one of its sources. */
  ghost predicate NamesOld(c: Change, ids: set<Id>) {
    c.preview.record.id in ids || c.preview.record.proposition in ids || !(c.preview.record.sources !! ids)
  }

  /** Or what its own revision created was erased. */
  ghost predicate NamesNew(c: Change, ids: set<Id>) {
    exists id :: id in ids && (c.replacement == Some(id) || c.sourceEvidence == Some(id))
  }

  /** What is left of an entry that loses its text, and of one that loses its requests and its new value too. */
  function WithoutText(c: Change): Change {
    c.(preview := c.preview.(record := c.preview.record.(content := Content("", "", "", None, None))))
  }

  function WithoutContent(c: Change): Change {
    WithoutText(c).(preview := WithoutText(c).preview.(newValue := None), requests := [], error := false)
  }

  /** A proposal whose time is up is discarded with its content, unless it is the pending change; nothing else is. */
  lemma ExpiredExactly(c: Change, k: Key, pending: Option<Key>, now: int)
    ensures Expired(c, k, pending, now)
         == if c.state == Prepared && c.expiresAt < now && pending != Some(k) then WithoutContent(c).(state := Discarded) else c
  {
  }

  /** The scrub changes exactly the entries that name something erased: a proposal is discarded; an entry keeps its requests
      and its new value only if it is confirmed and names nothing newer than its claim. */
  lemma ScrubbedExactly(c: Change, ids: set<Id>)
    ensures ScrubChange(c, ids)
         == if !NamesOld(c, ids) && !NamesNew(c, ids) then c
            else if NamesNew(c, ids) || c.state != Confirmed then
              WithoutContent(c).(state := if c.state == Prepared then Discarded else c.state)
            else WithoutText(c)
  {
    assert OldErased(c, ids) <==> NamesOld(c, ids) by {
      assert (exists s :: s in c.preview.record.sources && s in ids) <==> !(c.preview.record.sources !! ids);
    }
    assert ReplacementErased(c, ids) <==> NamesNew(c, ids);
  }

  lemma TreatedIsClean(c: Change, k: Key, pending: Option<Key>, ids: set<Id>, now: int)
    requires pending != Some(k)
    ensures Clean(Treated(c, k, pending, ids, now), ids)
  {
  }

  /** The scrub has treated the entries in `done` and no others. */
  ghost predicate TreatedIn(was: map<Key, Change>, changes: map<Key, Change>, done: set<Key>, pending: Option<Key>, ids: set<Id>, now: int) {
    && changes.Keys == was.Keys
    && forall k :: k in was ==> changes[k] == if k in done then Treated(was[k], k, pending, ids, now) else was[k]
  }

  lemma TreatedIsComplete(was: map<Key, Change>, changes: map<Key, Change>, pending: Option<Key>, ids: set<Id>, now: int)
    requires TreatedIn(was, changes, was.Keys, pending, ids, now)
    ensures ScrubComplete(changes, Scrub(ids, pending))
  {
    forall k | k in changes && Some(k) != pending
      ensures Clean(changes[k], ids)
    {
      TreatedIsClean(was[k], k, pending, ids, now);
    }
  }

  /** A scrub for some ids is a scrub for fewer. */
  lemma CompleteForFewer(changes: map<Key, Change>, ids: set<Id>, fewer: set<Id>, except: Option<Key>)
    requires ScrubComplete(changes, Scrub(ids, except)) && fewer <= ids
    ensures ScrubComplete(changes, Scrub(fewer, except))
  {
    forall k | k in changes && Some(k) != except
      ensures Clean(changes[k], fewer)
    {
      assert Clean(changes[k], ids);
    }
  }

  /** The in-memory copy a call works on may run ahead of the journal; this is all it may differ in. */
  ghost predicate Working(d: Durable, k: Key, stored: Change) {
    && d.pending == Some(k) && k in d.changes
    && SameChange(d.changes[k], stored) && Resumable(d.graph, k, stored)
    && stored.state != Discarded && (stored.state == Prepared ==> d.changes[k].state == Prepared)
    && (stored.state == Confirmed ==> Verified(d.graph, k, stored))
  }

  lemma AdvanceIsNext(d: Durable, k: Key, stored: Change)
    requires Working(d, k, stored)
    requires stored.state == Confirmed ==> d.scrub == None || d.changes[k].state == Confirmed
    requires stored.state == Confirmed && stored.input.kind == Delete ==> Disposed(d.changes, k, stored)
    ensures var d' := d.(changes := d.changes[k := stored]);
      Next(d, Advanced(k), d') && Working(d', k, stored)
  {
  }

  lemma MutationIsNext(d: Durable, k: Key, stored: Change, i: nat)
    requires Working(d, k, stored) && Wellformed(d.graph) && d.changes[k].requests == stored.requests
    requires i < |stored.requests| && (Revises(stored.input.kind) || i < |stored.preview.targets|)
    requires (k, TokenOf(stored, i)) !in d.graph.applied && Accepts(d.graph, stored.requests[i])
    ensures var d' := d.(graph := Effect(d.graph, k, TokenOf(stored, i), stored.requests[i]));
      Next(d, Mutated(k, TokenOf(stored, i)), d') && Working(d', k, stored)
  {
    var g' := Effect(d.graph, k, TokenOf(stored, i), stored.requests[i]);
    Runs.MutationAt(d.graph, k, stored, i, g');
    assert TokenOf(d.changes[k], i) == TokenOf(stored, i);
  }

  /** Every request was carried out, so the change is verified. */
  lemma CompletedIsVerified(g: Graph, k: Key, c: Change)
    requires Resumable(g, k, c)
    requires forall i :: 0 <= i < |c.requests| && (Revises(c.input.kind) || i < |c.preview.targets|) ==> TokenOf(c, i) in c.completed
    ensures Verified(g, k, c)
  {
    if Revises(c.input.kind) {
      assert TokenOf(c, 0) == Revision;
    } else {
      forall t | t in c.preview.targets
        ensures Reached(g, c.input.kind, t.id)
      {
        var i :| 0 <= i < |c.preview.targets| && c.preview.targets[i] == t;
        if |c.requests| > 0 {
          assert TokenOf(c, i) == On(t.id);
        }
      }
    }
  }

  /** Completing one more token keeps the entry resumable once its target is there. */
  lemma CompletionResumable(g: Graph, k: Key, c: Change, token: Token, c': Change)
    requires Resumable(g, k, c)
    requires c' == c.(completed := c.completed + [token], replacement := c'.replacement, sourceEvidence := c'.sourceEvidence)
    requires if Revises(c.input.kind)
             then token == Revision && (k, Revision) in g.applied && c'.replacement.Some?
                  && Handles(c'.sourceEvidence, c'.replacement) == g.applied[(k, Revision)]
             else token.On? && Reached(g, c.input.kind, token.id) && c'.replacement == None && c'.sourceEvidence == None
    ensures Resumable(g, k, c')
  {
  }

  /** A request not completed yet was applied before, or the engine takes it now. */
  lemma RequestAccepted(g: Graph, k: Key, c: Change, i: nat)
    requires Resumable(g, k, c) && i < |c.requests| && (Revises(c.input.kind) || i < |c.preview.targets|)
    requires !Revises(c.input.kind) ==> !Reached(g, c.input.kind, c.preview.targets[i].id)
    ensures (k, TokenOf(c, i)) in g.applied || Accepts(g, c.requests[i])
  {
    if !Revises(c.input.kind) {
      assert Pristine(g, k, c.input.kind, c.preview.targets[i]);
    }
  }

  lemma MutatedIsReached(g: Graph, k: Key, c: Change, i: nat)
    requires Resumable(g, k, c) && i < |c.requests| && (Revises(c.input.kind) || i < |c.preview.targets|)
    requires (k, TokenOf(c, i)) in g.applied
    ensures !Revises(c.input.kind) ==> Reached(g, c.input.kind, c.preview.targets[i].id)
    ensures Revises(c.input.kind) ==> g.applied[(k, TokenOf(c, i))].created.Some?
  {
    if !Revises(c.input.kind) {
      assert !Pristine(g, k, c.input.kind, c.preview.targets[i]);
    }
  }

  lemma RequestCount(g: Graph, k: Key, c: Change)
    requires Resumable(g, k, c)
    ensures Revises(c.input.kind) || |c.requests| <= |c.preview.targets|
  {
  }

  /** Clearing the content of a finished deletion leaves it resumable: nothing is left to request. */
  lemma ClearedIsResumable(g: Graph, k: Key, c: Change)
    requires Resumable(g, k, c) && Verified(g, k, c) && c.input.kind == Delete
    ensures Resumable(g, k, ClearContent(c)) && Verified(g, k, ClearContent(c))
    ensures SameChange(c, ClearContent(c)) && Emptied(ClearContent(c))
  {
    assert TargetIds(ClearContent(c)) == TargetIds(c);
  }

  lemma ConfirmedIsWorking(d: Durable, k: Key, c: Change)
    requires Working(d, k, c) && Verified(d.graph, k, c)
    ensures Working(d, k, c.(state := Confirmed, error := false))
    ensures Verified(d.graph, k, c.(state := Confirmed, error := false))
  {
    assert TargetIds(c.(state := Confirmed, error := false)) == TargetIds(c);
  }

  lemma PendingIsWorking(h: seq<Durable>, es: seq<Event>, d: Durable, k: Key)
    requires Runs.Recorded(h, es, d) && d.pending == Some(k)
    ensures k in d.changes && Working(d, k, d.changes[k])
  {
    Runs.RecordedInv(h, es, d);
  }

  lemma GraphIsWellformed(h: seq<Durable>, es: seq<Event>, d: Durable)
    requires Runs.Recorded(h, es, d)
    ensures Wellformed(d.graph)
  {
    Runs.RecordedInv(h, es, d);
  }

  /** A prepared change is as it was prepared, and nothing of it was applied. */
  lemma PreparedIsFresh(h: seq<Durable>, es: seq<Event>, d: Durable, k: Key)
    requires Runs.Recorded(h, es, d) && d.pending == None && k in d.changes && d.changes[k].state == Prepared
    ensures Fresh(d.changes[k]) && forall t :: (k, t) !in d.graph.applied
  {
    Runs.RecordedInv(h, es, d);
  }

  /** What a preview rests on is there. */
  lemma PreviewStands(g: Graph, bindings: map<Id, set<string>>, input: Input, principal: string, p: Preview)
    requires PreviewOf(g, bindings, input, principal, p)
    ensures Standing(g, p.record)
  {
  }

  /** An entry of an earlier moment is still the same change. */
  lemma EntryKept(h: seq<Durable>, es: seq<Event>, n: nat, d: Durable, k: Key)
    requires Runs.Recorded(h, es, d) && n <= |es| && k in h[n].changes
    ensures k in d.changes && SameChange(h[n].changes[k], d.changes[k])
  {
    Runs.RecordedIsRun(h, es, d);
    Runs.EntryStays(h, es, n, |es|, k);
  }

  /** Only a deletion is scrubbed for. */
  lemma ScrubIsOfDeletion(h: seq<Durable>, es: seq<Event>, d: Durable, k: Key)
    requires Runs.Recorded(h, es, d) && d.pending == Some(k)
    ensures k in d.changes && (d.scrub.Some? ==> d.changes[k].input.kind == Delete)
  {
    Runs.RecordedInv(h, es, d);
  }

  lemma ConfirmedRequestsNothing(h: seq<Durable>, es: seq<Event>, d: Durable, k: Key)
    requires Runs.Recorded(h, es, d)
    ensures ConfirmedDeletion(d, k) ==> d.changes[k].requests == []
  {
    Runs.RecordedInv(h, es, d);
  }

  /** The input `commit` takes its preview again with. */
  function InputOf(c: Change): Input {
    Input(c.preview.record.id, c.preview.record.revision, c.input.kind,
          if Revises(c.input.kind) then c.preview.newValue else None)
  }

  /** The stored preview is what a new preview of this graph says. */
  ghost predicate Rechecked(g: Graph, bindings: map<Id, set<string>>, principal: string, c: Change) {
    c.preview == c.digest && PreviewOf(g, bindings, InputOf(c), principal, c.preview)
  }

  lemma FencedExcludes(g: Graph, bindings: map<Id, set<string>>, principal: string, c: Change)
    requires Rechecked(g, bindings, principal, c)
    ensures forall id, key :: id in bindings && key in bindings[id] && Excludes(c.input.kind, c.preview, id) ==> key in c.preview.excluded
  {
    PreviewExcludes(g, bindings, InputOf(c), principal, c.preview);
  }

  lemma CommittingIsWorking(h: seq<Durable>, es: seq<Event>, d: Durable, k: Key)
    requires Runs.Recorded(h, es, d) && d.pending == Some(k)
    ensures k in d.changes && Working(d, k, d.changes[k].(state := Committing))
  {
    Runs.RecordedInv(h, es, d);
    assert TargetIds(d.changes[k].(state := Committing)) == TargetIds(d.changes[k]);
  }

  lemma ReconcilingIsWorking(d: Durable, k: Key, c: Change)
    requires Working(d, k, c)
    ensures Working(d, k, c.(state := Reconciling, error := true))
  {
    assert TargetIds(c.(state := Reconciling, error := true)) == TargetIds(c);
  }

  /** What a scrub completed stays so while the pending change is carried out. */
  lemma TreatedStaysClean(h: seq<Durable>, es: seq<Event>, i: nat, d: Durable, ids: set<Id>)
    requires Runs.Recorded(h, es, d) && i <= |es| && h[i].epoch == d.epoch && h[i].changes.Keys == d.changes.Keys
    requires ScrubComplete(h[i].changes, Scrub(ids, h[i].pending))
    ensures ScrubComplete(d.changes, Scrub(ids, h[i].pending))
  {
    Runs.RecordedIsRun(h, es, d);
    forall x | x in d.changes && Some(x) != h[i].pending
      ensures Clean(d.changes[x], ids)
    {
      assert Clean(h[i].changes[x], ids);
      Runs.CleanStays(h, es, i, |es|, x, ids);
    }
  }

  /** Where `apply` leaves a change it returned from: confirmed with the fence open, or still fenced. */
  ghost predicate Settled(d: Durable, k: Key) {
    && k in d.changes
    && (|| (d.changes[k].state == Confirmed && d.pending == None && d.scrub == None && Verified(d.graph, k, d.changes[k]))
        || (d.changes[k].state == Reconciling && d.pending == Some(k)))
    && (d.changes[k].state == Confirmed && d.changes[k].input.kind == Delete ==> Disposed(d.changes, k, d.changes[k]))
  }

  /** What carrying out one change leaves alone. */
  ghost predicate Progressed(was: Durable, d: Durable, k: Key) {
    && d.epoch == was.epoch && d.suppressed == was.suppressed && d.changes.Keys == was.changes.Keys
    && k in d.changes && k in was.changes && SameChange(was.changes[k], d.changes[k])
    && (d.pending == was.pending || d.pending == None)
  }

  // ── Native erasure ─────────────────────────────────────────────────────

  /** The engine's answer to one PURGE with its cascade; none when it refuses, or the element is not the caller's to see. */
  type Purging = (Graph, Id) -> Option<Graph>

  ghost predicate Purges(purge: Purging) {
    forall g, id {:trigger purge(g, id)} :: Wellformed(g) && purge(g, id).Some? ==>
      ForeignWrite(g, purge(g, id).value) && IsPurged(purge(g, id).value, id)
  }

  /** The ids purged between two graphs: the `purge` changes of the outcomes in between. */
  function PurgedSince(was: Graph, g: Graph): set<Id> {
    set x | x in g.elements && IsPurged(g, x) && !IsPurged(was, x)
  }

  lemma PurgedInTwo(a: Graph, b: Graph, c: Graph)
    requires ForeignWrite(a, b) && ForeignWrite(b, c)
    ensures ForeignWrite(a, c) && PurgedSince(a, c) == PurgedSince(a, b) + PurgedSince(b, c)
  {
  }

  /** The graph once the first `n` entities were taken up. */
  function ErasedTo(g: Graph, entities: seq<Id>, n: nat, purge: Purging): Graph
    requires n <= |entities|
  {
    if n == 0 then g
    else
      var before := ErasedTo(g, entities, n - 1, purge);
      if IsWritten(before, entities, n - 1, purge) then purge(before, entities[n - 1]).value else before
  }

  /** Whether the entity at `i` is erased by a write: named first there, still alive, and not refused. */
  predicate IsWritten(g: Graph, entities: seq<Id>, i: nat, purge: Purging)
    requires i < |entities|
  {
    entities[i] !in entities[..i] && Live(g, entities[i]) && purge(g, entities[i]).Some?
  }

  function WritesTo(g: Graph, entities: seq<Id>, n: nat, purge: Purging): nat
    requires n <= |entities|
  {
    if n == 0 then 0
    else WritesTo(g, entities, n - 1, purge) + if IsWritten(ErasedTo(g, entities, n - 1, purge), entities, n - 1, purge) then 1 else 0
  }

  lemma {:induction false} WritesGrow(g: Graph, entities: seq<Id>, n: nat, purge: Purging)
    requires n < |entities|
    ensures WritesTo(g, entities, n, purge) <= WritesTo(g, entities, n + 1, purge) <= WritesTo(g, entities, |entities|, purge)
    decreases |entities| - n
  {
    if n + 1 < |entities| {
      WritesGrow(g, entities, n + 1, purge);
    }
  }

  /** What one turn of the erasure's loop does to the weather and the graph. */
  predicate Turned(w: seq<Fate>, g: Graph, entities: seq<Id>, i: nat, purge: Purging, done: bool, w': seq<Fate>, g': Graph)
    requires i < |entities|
  {
    if IsWritten(g, entities, i, purge) then
      FateOf(w) == Succeeds ==> done && w' == Later(w) && g' == purge(g, entities[i]).value
    else
      done && w' == w && g' == g
  }

  /** Before turn `i` of an erasure under no weather, or under weather that cuts it right after its last write. */
  ghost predicate OnCourse(was: Graph, entities: seq<Id>, i: nat, purge: Purging, w: seq<Fate>, w': seq<Fate>, g: Graph)
    requires i <= |entities|
  {
    && (w == [] ==> w' == [] && g == ErasedTo(was, entities, i, purge))
    && (CutAfter(w, WritesTo(was, entities, |entities|, purge)) ==>
          && g == ErasedTo(was, entities, i, purge) && WritesTo(was, entities, i, purge) <= WritesTo(was, entities, |entities|, purge)
          && CutAfter(w', WritesTo(was, entities, |entities|, purge) - WritesTo(was, entities, i, purge)))
  }

  lemma StaysOnCourse(was: Graph, entities: seq<Id>, i: nat, purge: Purging, w: seq<Fate>, w': seq<Fate>, g: Graph,
                      done: bool, w'': seq<Fate>, g': Graph)
    requires i < |entities| && OnCourse(was, entities, i, purge, w, w', g) && Turned(w', g, entities, i, purge, done, w'', g')
    ensures OnCourse(was, entities, i + 1, purge, w, w'', g')
    ensures w == [] || CutAfter(w, WritesTo(was, entities, |entities|, purge)) ==> done
  {
    WritesGrow(was, entities, i, purge);
  }

  class MemoryProduct {
    var epoch: nat
    var pending: Option<Key>
    var changes: map<Key, Change>
    var scrub: Option<Scrub>
    var suppressed: set<string>
    var graph: Graph
    /** The source keys bound to each captured Evidence. */
    var bindings: map<Id, set<string>>
    /** What the storage will do next; when it runs out, every write succeeds. */
    var weather: seq<Fate>
    ghost var history: seq<Durable>
    ghost var events: seq<Event>

    function Now(): Durable
      reads this
    {
      Durable(epoch, pending, changes, scrub, suppressed, graph)
    }

    ghost predicate Valid()
      reads this
    {
      Runs.Recorded(history, events, Now())
    }

    twostate predicate Continues()
      reads this
    {
      old(history) <= history && old(events) <= events && bindings == old(bindings)
    }

    constructor (graph: Graph, bindings: map<Id, set<string>>, weather: seq<Fate>)
      requires Wellformed(graph) && graph.applied == map[]
      ensures Valid() && Open(Now()) && this.graph == graph && this.bindings == bindings && this.weather == weather
      ensures changes == map[] && epoch == 0 && suppressed == {} && events == []
    {
      epoch, pending, changes, scrub, suppressed := 0, None, map[], None, {};
      this.graph, this.bindings, this.weather := graph, bindings, weather;
      history, events := [Durable(0, None, map[], None, {}, graph)], [];
    }

    /** How the next write goes. */
    method Forecast() returns (fate: Fate)
      modifies this`weather
      ensures fate == FateOf(old(weather)) && weather == Later(old(weather))
    {
      if weather == [] {
        return Succeeds;
      }
      fate, weather := weather[0], weather[1..];
    }

    method Store(next: Durable)
      modifies this`epoch, this`pending, this`changes, this`scrub, this`suppressed, this`graph
      ensures Now() == next
    {
      epoch, pending, changes := next.epoch, next.pending, next.changes;
      scrub, suppressed, graph := next.scrub, next.suppressed, next.graph;
    }

    /** One write: it happens whole, or it throws, or the isolate dies before it. */
    method Put(ghost event: Event, next: Durable) returns (o: Outcome<()>)
      requires Valid() && Next(Now(), event, next)
      modifies this
      ensures Valid() && Continues()
      ensures o.Done? ==> Now() == next && events == old(events) + [event]
      ensures !o.Done? ==> Now() == old(Now()) && events == old(events)
      ensures (o.Done? <==> FateOf(old(weather)) == Succeeds) && (o.Died? <==> FateOf(old(weather)) == Dies)
      ensures weather == Later(old(weather))
    {
      hide Runs.Recorded, Next;
      var fate := Forecast();
      if fate == Throws {
        return Failed("storage_failed");
      }
      if fate == Dies {
        return Died;
      }
      Runs.Extend(history, events, Now(), event, next);
      history, events := history + [next], events + [event];
      Store(next);
      o := Done(());
    }

    // ── Admission ────────────────────────────────────────────────────────

    /** Refuses a pass while a change or a scrub is pending, or once its epoch is over. */
    method Check(admitted: nat) returns (o: Outcome<()>)
      ensures o.Done? <==> Open(Now()) && admitted == epoch
      ensures o.Failed? <==> !o.Done?
    {
      if pending != None || scrub != None {
        return Failed("memory_change_pending");
      }
      if admitted != epoch {
        return Failed("memory_changed_rebuild_context");
      }
      o := Done(());
    }

    method Begin(sources: set<string>) returns (o: Outcome<nat>)
      requires Valid()
      modifies this
      ensures Valid() && Continues() && Now() == old(Now()) && weather == old(weather)
      ensures o.Done? <==> Open(Now()) && sources !! suppressed
      ensures o.Done? ==> o.value == epoch && events == old(events) + [Opened(epoch, sources)]
    {
      var _ :- Check(epoch);
      if !(sources !! suppressed) {
        return Failed("source_suppressed");
      }
      Runs.Extend(history, events, Now(), Opened(epoch, sources), Now());
      history, events := history + [Now()], events + [Opened(epoch, sources)];
      o := Done(epoch);
    }

    method Invalidate() returns (o: Outcome<()>)
      requires Valid()
      modifies this
      ensures Valid() && Continues()
      ensures o.Done? ==> Open(Now()) && Now() == old(Now()).(epoch := old(epoch) + 1) && events == old(events) + [Invalidated]
      ensures !o.Done? ==> Now() == old(Now())
      ensures o.Done? <==> Open(old(Now())) && old(epoch) < MAX_SAFE_INTEGER && FateOf(old(weather)) == Succeeds
      ensures old(weather) == [] ==> weather == []
    {
      var _ :- Check(epoch);
      if epoch + 1 > MAX_SAFE_INTEGER {
        return Failed("epoch_exhausted");
      }
      o := Put(Invalidated, Durable(epoch + 1, pending, changes, scrub, suppressed, graph));
    }

    /** A native write outside the managed changes, by a pass under its epoch or by an administrator. */
    method WriteOpen(ghost event: Event, next: Graph) returns (o: Outcome<()>)
      requires Valid() && Open(Now()) && ForeignWrite(graph, next)
      requires event == Administered || (event.Written? && event.epoch == epoch)
      modifies this
      ensures Valid() && Continues()
      ensures Now() == old(Now()).(graph := if o.Done? then next else old(graph))
      ensures o.Done? ==> events == old(events) + [event]
      ensures (o.Done? <==> FateOf(old(weather)) == Succeeds) && (o.Died? <==> FateOf(old(weather)) == Dies)
      ensures weather == Later(old(weather))
    {
      o := Put(event, Now().(graph := next));
    }

    // ── Previews ─────────────────────────────────────────────────────────

    ghost predicate Previewable(input: Input, who: Caller)
      reads this
    {
      MayPreview(graph, bindings, input, who)
    }

    method PreviewChange(input: Input, who: Caller) returns (o: Outcome<Preview>)
      ensures o.Done? <==> Previewable(input, who)
      ensures o.Done? ==> PreviewOf(graph, bindings, input, who.principal, o.value)
      ensures o.Done? ==> ExcludedExactly(bindings, input.kind, o.value) && Shows(graph, input.recordId, o.value.record)
      ensures o.Failed? <==> !o.Done?
    {
      hide MayPreview, PreviewOf, ExcludedExactly, Shows;
      MayPreviewExactly(graph, bindings, input, who);
      var found := RecordOf(graph, input.recordId);
      if !who.granted || found == None {
        return Failed("not_found");
      }
      var record := found.value;
      if record.revision != input.revision {
        return Failed("revision_conflict");
      }
      if !SourcesComplete(graph, bindings, record) {
        return Failed("unsupported_scope");
      }
      if Revises(input.kind) {
        var e := graph.elements[record.id];
        if e.status != Current || e.state != Active || !e.supports || e.actor != who.principal {
          return Failed("unsupported_scope");
        }
        if input.newValue == None || !Acceptable(input.newValue.value, record.content.objectLabel) {
          return Failed("invalid_request");
        }
        o := Done(Preview(record, input.newValue, [Target(record.id, record.revision, Assertion)],
                          SourceKeys(bindings, record.sources)));
        RevisionPreviewIs(graph, bindings, input, who.principal, record, o.value);
      } else {
        if input.newValue != None {
          return Failed("invalid_request");
        }
        var ids := Search(graph, bindings.Keys, record.proposition);
        if ids == None {
          return Failed("unsupported_scope");
        }
        o := Done(ErasurePreview(graph, bindings, record, ids.value));
        ErasurePreviewIs(graph, bindings, input, who.principal, record, ids.value, o.value);
      }
      PreviewExcludes(graph, bindings, input, who.principal, o.value);
    }

    // ── The journal scrub ────────────────────────────────────────────────

    /** A prepared entry past its time is discarded, unless its fence was persisted. */
    method Expire(k: Key, now: int) returns (o: Outcome<()>)
      requires Valid() && k in changes
      modifies this
      ensures Valid() && Continues()
      ensures o.Done? ==> Now() == old(Now()).(changes := old(changes)[k := Expired(old(changes)[k], k, old(pending), now)])
      ensures !o.Done? ==> Now() == old(Now())
      ensures old(weather) == [] ==> o.Done? && weather == []
      ensures Expired(old(changes)[k], k, old(pending), now) == old(changes)[k] && old(changes)[k].state == Prepared ==> o.Done? && weather == old(weather)
    {
      var c := changes[k];
      if c.state == Prepared && c.expiresAt < now && pending != Some(k) {
        o := Put(Dropped(k), Now().(changes := changes[k := Expired(c, k, pending, now)]));
      } else {
        assert changes == changes[k := c];
        o := Done(());
      }
    }

    method ScrubEntry(k: Key, ids: set<Id>, now: int) returns (o: Outcome<()>)
      requires Valid() && k in changes && scrub == Some(Scrub(ids, pending)) && pending != Some(k)
      modifies this
      ensures Valid() && Continues()
      ensures o.Done? ==> Now() == old(Now()).(changes := old(changes)[k := Treated(old(changes)[k], k, pending, ids, now)])
      ensures !o.Done? ==> changes.Keys == old(changes.Keys) && Now() == old(Now()).(changes := changes)
                           && forall other :: other in changes && other != k ==> changes[other] == old(changes)[other]
      ensures old(weather) == [] ==> o.Done? && weather == []
    {
      hide Runs.Recorded;
      var _ :- Expire(k, now);
      var c := changes[k];
      if !Touches(c, ids) {
        return Done(());
      }
      o := Put(ScrubbedEntry(k), Now().(changes := changes[k := ScrubChange(c, ids)]));
    }

    /** What a scrub may have changed when it did not finish: entries other than the pending one. */
    ghost predicate OnlyJournalOf(was: Durable)
      reads this
    {
      && Now() == was.(changes := changes, scrub := scrub) && changes.Keys == was.changes.Keys
      && (pending.Some? && pending.value in changes ==> changes[pending.value] == was.changes[pending.value])
    }

    ghost predicate Scrubbing(was: Durable, done: set<Key>, ids: set<Id>, now: int)
      reads this
    {
      && Valid() && scrub == Some(Scrub(ids, pending)) && OnlyJournalOf(was)
      && TreatedIn(was.changes, changes, done, pending, ids, now)
    }

    method ScrubNext(k: Key, ids: set<Id>, now: int, ghost was: Durable, ghost done: set<Key>) returns (o: Outcome<()>)
      requires Scrubbing(was, done, ids, now) && k in changes && k !in done
      modifies this
      ensures Valid() && Continues() && scrub == old(scrub) && OnlyJournalOf(was)
      ensures o.Done? ==> Scrubbing(was, done + {k}, ids, now)
      ensures old(weather) == [] ==> o.Done? && weather == []
    {
      o := Done(());
      if pending != Some(k) {
        o := ScrubEntry(k, ids, now);
      }
    }

    method ScrubPage(page: seq<Key>, ids: set<Id>, now: int, ghost was: Durable, ghost done: set<Key>) returns (o: Outcome<()>)
      requires Scrubbing(was, done, ids, now)
      requires Increasing(page) && forall k :: k in page ==> k in was.changes && k !in done
      modifies this
      ensures Valid() && Continues() && scrub == old(scrub) && OnlyJournalOf(was)
      ensures o.Done? ==> Scrubbing(was, done + (set k | k in page), ids, now)
      ensures old(weather) == [] ==> o.Done? && weather == []
    {
      hide Runs.Recorded, TreatedIn;
      ghost var reached := done;
      for i := 0 to |page|
        invariant Continues() && Scrubbing(was, reached, ids, now)
        invariant reached == done + KeysTo(page, i)
        invariant old(weather) == [] ==> weather == []
      {
        KeysNext(page, i);
        o := ScrubNext(page[i], ids, now, was, reached);
        if !o.Done? {
          return;
        }
        reached := reached + {page[i]};
      }
      KeysAll(page);
      assert reached == done + set k | k in page;
      o := Done(());
    }

    /** The pages of the journal, one after the other. */
    method ScrubAll(ids: set<Id>, now: int, ghost was: Durable) returns (o: Outcome<()>, ghost visited: seq<Key>)
      requires Scrubbing(was, {}, ids, now)
      modifies this
      ensures Valid() && Continues() && scrub == old(scrub) && OnlyJournalOf(was)
      ensures o.Done? ==> Scrubbing(was, was.changes.Keys, ids, now) && visited == SortedIds(was.changes.Keys)
      ensures old(weather) == [] ==> o.Done? && weather == []
    {
      visited, o := [], Done(());
      ghost var keys := changes.Keys;
      ghost var done := {};
      var cursor, more := None, true;
      while more
        invariant Continues() && Scrubbing(was, done, ids, now) && o.Done?
        invariant Visited(keys, cursor, more, done, visited)
        invariant old(weather) == [] ==> weather == []
        decreases more, keys - done
      {
        var page := ListPage(changes.Keys, cursor);
        PageVisited(keys, cursor, page, done, visited);
        if |page| >= PAGE {
          PageShrinks(keys, done, page);
        }
        o := ScrubPage(page, ids, now, was, done);
        if !o.Done? {
          return;
        }
        done, visited := done + (set k | k in page), visited + page;
        more := |page| >= PAGE;
        if more {
          cursor := Some(page[|page| - 1]);
        }
      }
      AllVisited(keys, cursor, done, visited);
    }

    /** A marked scrub: every page is treated, and then the marker is cleared. */
    method ScrubMarked(ids: set<Id>, now: int) returns (o: Outcome<()>, ghost visited: seq<Key>)
      requires Scrubbing(Now(), {}, ids, now)
      modifies this
      ensures Valid() && Continues() && OnlyJournalOf(old(Now()))
      ensures if o.Done? then
          && scrub == None && visited == SortedIds(changes.Keys)
          && TreatedIn(old(changes), changes, old(changes.Keys), pending, ids, now)
          && ScrubComplete(changes, Scrub(ids, pending))
        else scrub == old(scrub)
      ensures old(weather) == [] ==> o.Done? && weather == []
    {
      ghost var was := Now();
      o, visited := ScrubAll(ids, now, was);
      if !o.Done? {
        return;
      }
      TreatedIsComplete(was.changes, changes, pending, ids, now);
      o := Put(ScrubClosed, Now().(scrub := None));
    }

    /** Erased content leaves every journal entry but the excepted one. The marker goes first and is cleared last,
        so the fence stays closed in between, and a scrub that finds a marker takes over its ids. */
    method ScrubChanges(erased: set<Id>, except: Option<Key>, now: int) returns (o: Outcome<()>, ghost visited: seq<Key>)
      requires Valid() && except == pending
      requires pending.Some? ==> pending.value in changes && changes[pending.value].input.kind == Delete
      modifies this
      ensures Valid() && Continues() && OnlyJournalOf(old(Now()))
      ensures var ids := erased + MarkedIds(old(scrub));
        if o.Done? then
          && scrub == None && visited == SortedIds(changes.Keys)
          && TreatedIn(old(changes), changes, old(changes.Keys), pending, ids, now)
          && ScrubComplete(changes, Scrub(ids, except))
        else scrub == Some(Scrub(ids, except)) || Now() == old(Now())
      ensures FateOf(old(weather)) == Dies ==> o.Died? && Now() == old(Now())
      ensures old(weather) == [] ==> o.Done? && weather == []
    {
      visited := [];
      var ids := erased + MarkedIds(scrub);
      o := Put(ScrubOpened(ids), Now().(scrub := Some(Scrub(ids, pending))));
      if !o.Done? {
        return;
      }
      o, visited := ScrubMarked(ids, now);
    }

    // ── Carrying a change out ────────────────────────────────────────────

    /** The journal write of `commit` and `apply`. */
    method PutChange(k: Key, stored: Change) returns (o: Outcome<()>)
      requires Valid() && Working(Now(), k, stored)
      requires stored.state == Confirmed ==> scrub == None || changes[k].state == Confirmed
      requires stored.state == Confirmed && stored.input.kind == Delete ==> Disposed(changes, k, stored)
      modifies this
      ensures Valid() && Continues() && Working(Now(), k, stored)
      ensures Now() == old(Now()).(changes := if o.Done? then old(changes)[k := stored] else old(changes))
      ensures old(weather) == [] ==> o.Done? && weather == []
    {
      AdvanceIsNext(Now(), k, stored);
      o := Put(Advanced(k), Now().(changes := changes[k := stored]));
    }

    method PutMutation(k: Key, stored: Change, i: nat) returns (o: Outcome<()>)
      requires Valid() && Working(Now(), k, stored) && changes[k].requests == stored.requests
      requires i < |stored.requests| && (Revises(stored.input.kind) || i < |stored.preview.targets|)
      requires (k, TokenOf(stored, i)) !in graph.applied && Accepts(graph, stored.requests[i])
      modifies this
      ensures Valid() && Continues() && Working(Now(), k, stored)
      ensures Now() == old(Now()).(graph := if o.Done? then Effect(old(graph), k, TokenOf(stored, i), stored.requests[i]) else old(graph))
      ensures old(weather) == [] ==> o.Done? && weather == []
    {
      Runs.RecordedInv(history, events, Now());
      MutationIsNext(Now(), k, stored, i);
      o := Put(Mutated(k, TokenOf(stored, i)), Now().(graph := Effect(graph, k, TokenOf(stored, i), stored.requests[i])));
    }

    /** One native statement under its idempotency key: replayed if it was applied before. */
    method Mutate(k: Key, stored: Change, i: nat) returns (o: Outcome<Handles>)
      requires Valid() && Working(Now(), k, stored) && changes[k].requests == stored.requests
      requires i < |stored.requests| && (Revises(stored.input.kind) || i < |stored.preview.targets|)
      modifies this
      ensures Valid() && Continues() && Working(Now(), k, stored)
      ensures Now() == old(Now()).(graph := graph)
      ensures o.Done? ==> (k, TokenOf(stored, i)) in graph.applied && o.value == graph.applied[(k, TokenOf(stored, i))]
      ensures old(weather) == [] ==> weather == []
      ensures old(weather) == [] && old((k, TokenOf(stored, i)) in graph.applied || Accepts(graph, stored.requests[i])) ==> o.Done?
    {
      var token := TokenOf(stored, i);
      if (k, token) in graph.applied {
        return Done(graph.applied[(k, token)]);
      }
      if !Accepts(graph, stored.requests[i]) {
        return Failed("change_not_committed");
      }
      var _ :- PutMutation(k, stored, i);
      o := Done(graph.applied[(k, token)]);
    }

    /** Brings one request's target where it has to be, writing only when it is not there yet. */
    method Reach(k: Key, stored: Change, i: nat, who: Caller) returns (o: Outcome<()>, done: Change)
      requires Valid() && Working(Now(), k, stored) && changes[k].requests == stored.requests
      requires i < |stored.requests| && (Revises(stored.input.kind) || i < |stored.preview.targets|)
      modifies this
      ensures Valid() && Continues() && Working(Now(), k, stored) && Now() == old(Now()).(graph := graph)
      ensures o.Done? ==> Working(Now(), k, done)
      ensures o.Done? ==> done == stored.(completed := stored.completed + [TokenOf(stored, i)],
                                          replacement := done.replacement, sourceEvidence := done.sourceEvidence)
      ensures o.Done? && !Revises(stored.input.kind) ==> who.granted && TokenOf(stored, i).id in old(graph).elements
      ensures old(weather) == [] ==> weather == []
      ensures old(weather) == [] && who.granted ==> o.Done?
    {
      hide Runs.Recorded;
      var token := TokenOf(stored, i);
      o, done := Done(()), stored;
      if !Revises(stored.input.kind) && !(who.granted && token.id in graph.elements) {
        return Failed("not_found"), stored;
      }
      if Revises(stored.input.kind) || !Reached(graph, stored.input.kind, token.id) {
        RequestAccepted(graph, k, stored, i);
        var outcome := Mutate(k, stored, i);
        if !outcome.Done? {
          return outcome.PropagateFailure(), stored;
        }
        if Revises(stored.input.kind) {
          done := done.(replacement := outcome.value.created, sourceEvidence := outcome.value.input);
        }
        MutatedIsReached(graph, k, stored, i);
      }
      done := done.(completed := done.completed + [token]);
      CompletionResumable(graph, k, stored, token, done);
    }

    /** One request of the change: skipped when it is completed, and recorded once its target is there. */
    method ApplyRequest(k: Key, stored: Change, i: nat, who: Caller) returns (o: Outcome<()>, done: Change)
      requires Valid() && Working(Now(), k, stored) && changes[k].requests == stored.requests
      requires stored.state == changes[k].state
      requires i < |stored.requests| && (Revises(stored.input.kind) || i < |stored.preview.targets|)
      modifies this
      ensures Valid() && Continues() && Working(Now(), k, done)
      ensures Now() == old(Now()).(graph := graph, changes := changes) && changes.Keys == old(changes.Keys)
      ensures SameChange(old(changes)[k], changes[k])
      ensures done.preview == stored.preview && done.requests == stored.requests && changes[k].requests == stored.requests
      ensures changes[k].state == stored.state
      ensures done.input == stored.input && done.state == stored.state && stored.completed <= done.completed
      ensures o.Done? ==> TokenOf(stored, i) in done.completed
      ensures old(weather) == [] ==> weather == []
      ensures old(weather) == [] && who.granted ==> o.Done?
    {
      hide Runs.Recorded;
      if TokenOf(stored, i) in stored.completed {
        return Done(()), stored;
      }
      ConfirmedRequestsNothing(history, events, Now(), k);
      o, done := Reach(k, stored, i, who);
      if !o.Done? {
        done := stored;
        return;
      }
      o := PutChange(k, done);
    }

    /** The request loop at request i: the first i are completed, in memory and in the journal. */
    ghost predicate Applying(was: Durable, k: Key, start: Change, stored: Change, i: nat)
      reads this
    {
      && Valid() && Working(Now(), k, stored) && k in was.changes
      && Now() == was.(graph := graph, changes := changes) && changes.Keys == was.changes.Keys
      && SameChange(was.changes[k], changes[k])
      && changes[k].requests == stored.requests == start.requests && changes[k].state == stored.state
      && stored.preview == start.preview && stored.input == start.input
      && i <= |start.requests| && (Revises(start.input.kind) || |start.requests| <= |start.preview.targets|)
      && forall j :: 0 <= j < i ==> TokenOf(start, j) in stored.completed
    }

    method ApplyNext(k: Key, start: Change, before: Change, i: nat, who: Caller, ghost was: Durable)
      returns (o: Outcome<()>, stored: Change)
      requires Applying(was, k, start, before, i) && i < |start.requests|
      modifies this
      ensures Valid() && Continues() && Working(Now(), k, stored)
      ensures Now() == was.(graph := graph, changes := changes) && changes.Keys == was.changes.Keys
      ensures SameChange(was.changes[k], changes[k]) && stored.preview == start.preview && stored.input == start.input
      ensures o.Done? ==> Applying(was, k, start, stored, i + 1)
      ensures old(weather) == [] ==> weather == []
      ensures old(weather) == [] && who.granted ==> o.Done?
    {
      hide Runs.Recorded;
      o, stored := ApplyRequest(k, before, i, who);
      assert TokenOf(before, i) == TokenOf(start, i);
      assert forall j :: 0 <= j < i ==> TokenOf(start, j) in before.completed;
    }

    /** The request loop of `apply`. */
    method ApplyRequests(k: Key, start: Change, who: Caller) returns (o: Outcome<()>, stored: Change)
      requires Valid() && Working(Now(), k, start) && changes[k] == start
      modifies this
      ensures Valid() && Continues() && Working(Now(), k, stored)
      ensures Now() == old(Now()).(graph := graph, changes := changes) && changes.Keys == old(changes.Keys)
      ensures SameChange(start, changes[k]) && stored.preview == start.preview && stored.input == start.input
      ensures o.Done? ==> Verified(graph, k, stored)
      ensures old(weather) == [] ==> weather == []
      ensures old(weather) == [] && who.granted ==> o.Done?
    {
      o, stored := Done(()), start;
      var i := 0;
      RequestCount(graph, k, start);
      while i < |start.requests|
        invariant Applying(old(Now()), k, start, stored, i)
        invariant Continues() && o.Done?
        invariant old(weather) == [] ==> weather == []
      {
        o, stored := ApplyNext(k, start, stored, i, who, old(Now()));
        if !o.Done? {
          return;
        }
        i := i + 1;
      }
      assert forall j :: 0 <= j < |start.requests| ==> TokenOf(stored, j) == TokenOf(start, j);
      CompletedIsVerified(graph, k, stored);
    }

    /** The last check before a change is confirmed. */
    method Verify(stored: Change, who: Caller) returns (o: Outcome<()>)
      ensures o.Done? <==> (who.granted || (!Revises(stored.input.kind) && stored.preview.targets == [])) && InRequiredState(graph, stored)
      ensures o.Failed? <==> !o.Done?
    {
      if Revises(stored.input.kind) {
        var record := RecordOf(graph, stored.preview.record.id);
        if !who.granted || record == None {
          return Failed("not_found");
        }
        var expected := if stored.input.kind == Correct then Superseded else Current;
        if graph.elements[record.value.id].status != expected || stored.replacement == None {
          return Failed("verification_incomplete");
        }
      } else {
        for i := 0 to |stored.preview.targets|
          invariant i > 0 ==> who.granted
          invariant forall j :: 0 <= j < i ==> Reached(graph, stored.input.kind, stored.preview.targets[j].id)
        {
          var id := stored.preview.targets[i].id;
          if !who.granted || id !in graph.elements {
            return Failed("not_found");
          }
          if !Reached(graph, stored.input.kind, id) {
            return Failed("verification_incomplete");
          }
        }
      }
      o := Done(());
    }

    method ConfirmAndClear(k: Key, verified: Change) returns (o: Outcome<()>, stored: Change)
      requires Valid() && Working(Now(), k, verified) && Verified(graph, k, verified)
      requires scrub == None && (verified.input.kind == Delete ==> Disposed(changes, k, verified))
      modifies this
      ensures Valid() && Continues()
      ensures o.Done? ==> pending == None && scrub == None && k in changes && changes[k] == stored && Verified(graph, k, stored)
      ensures o.Done? ==> stored == verified.(state := Confirmed, error := false)
      ensures o.Done? && stored.input.kind == Delete ==> Disposed(changes, k, stored)
      ensures !o.Done? ==> Working(Now(), k, stored)
      ensures Progressed(old(Now()), Now(), k)
      ensures old(weather) == [] ==> o.Done? && weather == []
    {
      hide Runs.Recorded;
      stored := verified.(state := Confirmed, error := false);
      ConfirmedIsWorking(Now(), k, verified);
      assert TargetIds(stored) == TargetIds(verified);
      o := PutChange(k, stored);
      if !o.Done? {
        return;
      }
      o := Put(Cleared(k), Now().(pending := None));
    }

    /** A deletion's copies in the journal go, and the content of its own entry with them. */
    method ClearCopies(k: Key, verified: Change, now: int) returns (o: Outcome<()>, stored: Change)
      requires Valid() && Working(Now(), k, verified) && Verified(graph, k, verified) && verified.input.kind == Delete
      modifies this
      ensures Valid() && Continues() && Progressed(old(Now()), Now(), k)
      ensures Working(Now(), k, stored) && stored.input == verified.input
      ensures o.Done? ==> scrub == None && Verified(graph, k, stored) && Disposed(changes, k, stored)
      ensures old(weather) == [] ==> o.Done? && weather == []
    {
      hide Runs.Recorded, Next;
      stored := verified;
      ghost var visited;
      o, visited := ScrubChanges(TargetIds(stored), Some(k), now);
      if !o.Done? {
        return;
      }
      ClearedIsResumable(graph, k, stored);
      assert TargetIds(ClearContent(stored)) == TargetIds(stored);
      CompleteForFewer(changes, TargetIds(stored) + MarkedIds(old(scrub)), TargetIds(stored), Some(k));
      stored := ClearContent(stored);
    }

    /** A verified change is confirmed: a deletion's copies in the journal go first, then the confirmed entry is
        stored, and last of all the fence is opened. */
    method Finish(k: Key, verified: Change, now: int) returns (o: Outcome<()>, stored: Change)
      requires Valid() && Working(Now(), k, verified) && Verified(graph, k, verified)
      modifies this
      ensures Valid() && Continues()
      ensures o.Done? ==> pending == None && scrub == None && k in changes && changes[k] == stored
                          && stored.state == Confirmed && !stored.error && Verified(graph, k, stored)
      ensures o.Done? && stored.input.kind == Delete ==> Disposed(changes, k, stored)
      ensures !o.Done? ==> Working(Now(), k, stored)
      ensures Progressed(old(Now()), Now(), k)
      ensures old(weather) == [] ==> o.Done? && weather == []
    {
      hide Runs.Recorded, Next;
      stored := verified;
      ScrubIsOfDeletion(history, events, Now(), k);
      if stored.input.kind == Delete {
        o, stored := ClearCopies(k, stored, now);
        if !o.Done? {
          return;
        }
      }
      o, stored := ConfirmAndClear(k, stored);
    }

    /** The body of `apply`'s `try`. `stored` is the copy in memory, which the `catch` writes back. */
    method CarryOut(k: Key, who: Caller) returns (o: Outcome<()>, stored: Change)
      requires Valid() && pending == Some(k) && k in changes
      modifies this
      ensures Valid() && Continues()
      ensures o.Done? ==> pending == None && scrub == None && k in changes && changes[k] == stored
                          && stored.state == Confirmed && !stored.error && Verified(graph, k, stored)
      ensures !who.granted ==> o.Failed? && Now() == old(Now())
      ensures o.Done? && stored.input.kind == Delete ==> Disposed(changes, k, stored)
      ensures !o.Done? ==> Working(Now(), k, stored)
      ensures Progressed(old(Now()), Now(), k)
      ensures old(weather) == [] ==> weather == []
      ensures old(weather) == [] && who.granted ==> o.Done?
    {
      stored := changes[k];
      PendingIsWorking(history, events, Now(), k);
      if !who.granted {
        return Failed("unauthorized"), stored;
      }
      o, stored := ApplyRequests(k, stored, who);
      if !o.Done? {
        return;
      }
      o := Verify(stored, who);
      if !o.Done? {
        return;
      }
      o, stored := Finish(k, stored, who.now);
    }

    /** The `catch` of `apply`. */
    method Reconcile(k: Key, failed: Change) returns (o: Outcome<Change>)
      requires Valid() && Working(Now(), k, failed)
      modifies this
      ensures Valid() && Continues() && Progressed(old(Now()), Now(), k)
      ensures Now() == old(Now()) || Now() == old(Now()).(changes := changes)
      ensures o.Done? ==> o.value == changes[k] == failed.(state := Reconciling, error := true) && pending == old(pending)
      ensures old(weather) == [] ==> o.Done? && weather == []
    {
      ReconcilingIsWorking(Now(), k, failed);
      var stored := failed.(state := Reconciling, error := true);
      var _ :- PutChange(k, stored);
      o := Done(stored);
    }

    /** Carries the pending change as far as it goes. A thrown error leaves it reconciling, still fenced. */
    method Apply(k: Key, who: Caller) returns (o: Outcome<Change>)
      requires Valid() && pending == Some(k)
      modifies this
      ensures Valid() && Continues() && Progressed(old(Now()), Now(), k)
      ensures o.Done? ==> o.value == changes[k] && Settled(Now(), k) && o.value.error == (o.value.state == Reconciling)
      ensures !who.granted ==> Now() == old(Now()).(changes := changes) && (o.Done? ==> o.value.state == Reconciling)
      ensures old(weather) == [] ==> weather == []
      ensures old(weather) == [] && who.granted ==> o.Done? && o.value.state == Confirmed && pending == None && scrub == None
    {
      Runs.RecordedInv(history, events, Now());
      var carried, stored := CarryOut(k, who);
      if carried.Died? {
        return Died;
      }
      if carried.Failed? {
        o := Reconcile(k, stored);
        return;
      }
      o := Done(stored);
    }

    /** Finishes an interrupted scrub, with the ids of its marker. */
    method ResumeScrub(now: int) returns (o: Outcome<()>)
      requires Valid()
      modifies this
      ensures Valid() && Continues() && OnlyJournalOf(old(Now())) && !o.Done? == scrub.Some?
      ensures o.Done? ==> ScrubComplete(changes, Scrub(MarkedIds(old(scrub)), pending))
      ensures old(scrub) == None ==> o.Done? && Now() == old(Now()) && events == old(events) && weather == old(weather)
      ensures old(weather) == [] ==> o.Done? && weather == []
    {
      o := Done(());
      if scrub.Some? {
        Runs.RecordedInv(history, events, Now());
        ghost var visited;
        o, visited := ScrubChanges(scrub.value.ids, scrub.value.except, now);
        if o.Failed? {
          o := Failed("memory_change_pending");
        }
        assert scrub.None? ==> ScrubComplete(changes, Scrub(old(scrub).value.ids + MarkedIds(old(scrub)), pending));
        assert old(scrub).value.ids + MarkedIds(old(scrub)) == MarkedIds(old(scrub));
      }
    }

    /** Runs before every entry point: an interrupted scrub is finished, then an interrupted change. Undisturbed, it
        leaves nothing pending, and the change it found confirmed and verified. */
    method Recover(who: Caller) returns (o: Outcome<()>)
      requires Valid()
      modifies this
      ensures Valid() && Continues() && epoch == old(epoch) && suppressed == old(suppressed)
      ensures o.Done? ==> (scrub.Some? ==> pending.Some?) && (old(pending) == None ==> Open(Now()))
      ensures o.Done? && old(pending).Some? ==> Settled(Now(), old(pending.value))
      ensures o.Done? ==> ScrubComplete(changes, Scrub(MarkedIds(old(scrub)), old(pending)))
      ensures old(pending) == None ==> graph == old(graph)
      ensures Open(old(Now())) ==> o.Done? && Now() == old(Now()) && events == old(events) && weather == old(weather)
      ensures old(weather) == [] ==> weather == []
      ensures old(weather) == [] && (who.granted || old(pending) == None) ==> o.Done? && Open(Now())
    {
      var _ :- ResumeScrub(who.now);
      ghost var scrubbed, ids := Now(), MarkedIds(old(scrub));
      ghost var n := |events|;
      if pending.Some? {
        ghost var h := history;
        var _ :- Apply(pending.value, who);
        assert history[n] == h[n];
        TreatedStaysClean(history, events, n, Now(), ids);
      }
      o := Done(());
    }

    // ── The entry points ─────────────────────────────────────────────────

    /** The stored entry as a caller sees it: expired when its time is up, hidden without grants. */
    method ReadChange(k: Key, who: Caller) returns (o: Outcome<Change>)
      requires Valid() && k in changes
      modifies this
      ensures Valid() && Continues()
      ensures o.Done? ==> who.granted && k in changes && o.value == changes[k]
      ensures Now() == old(Now()) || Now() == old(Now()).(changes := old(changes)[k := Expired(old(changes)[k], k, old(pending), who.now)])
      ensures o.Done? ==> changes[k] == Expired(old(changes)[k], k, old(pending), who.now)
      ensures old(weather) == [] ==> weather == []
      ensures old(weather) == [] && who.granted ==> o.Done?
      ensures Expired(old(changes)[k], k, old(pending), who.now) == old(changes)[k] && old(changes)[k].state == Prepared && who.granted ==>
        o.Done? && weather == old(weather)
    {
      var _ :- Expire(k, who.now);
      if !who.granted {
        return Failed("not_found");
      }
      o := Done(changes[k]);
    }

    method Discard(k: Key) returns (o: Outcome<()>)
      requires Valid()
      modifies this
      ensures Valid() && Continues()
      ensures o.Done? <==> && k in old(changes) && old(changes)[k].state in {Prepared, Discarded} && old(pending) != Some(k)
                           && FateOf(old(weather)) == Succeeds
      ensures o.Done? ==> Now() == old(Now()).(changes := old(changes)[k := ClearContent(old(changes)[k].(state := Discarded))])
      ensures !o.Done? ==> Now() == old(Now())
    {
      if k !in changes {
        return Failed("not_found");
      }
      var c := changes[k];
      if c.state !in {Prepared, Discarded} || pending == Some(k) {
        return Failed("memory_change_pending");
      }
      o := Put(Dropped(k), Now().(changes := changes[k := ClearContent(c.(state := Discarded))]));
    }

    predicate Preparable(d: Durable, input: Input, draft: Draft) {
      Open(d) && input.revision >= 1 && input.kind != Misrecorded && Statable(input.kind, draft)
    }

    /** `requests`, and the dry run of what it returns. */
    method DryRun(kind: ChangeKind, draft: Draft) returns (o: Outcome<()>)
      ensures o.Done? <==> Statable(kind, draft)
      ensures o.Failed? <==> !o.Done?
    {
      if Revises(kind) && !draft.conceptObject {
        return Failed("unsupported_scope");
      }
      if kind == Correct && !draft.hasStart {
        return Failed("unsupported_scope");
      }
      if !draft.dryRun {
        return Failed("dry_run_refused");
      }
      o := Done(());
    }

    /** A reviewable proposal under a new operation id. */
    method PrepareNew(k: Key, input: Input, who: Caller, draft: Draft) returns (o: Outcome<Change>)
      requires Valid() && k !in changes && input.revision >= 1 && input.kind != Misrecorded
      modifies this
      ensures Valid() && Continues()
      ensures o.Done? ==>
        && Fresh(o.value) && o.value.input == input
        && PreviewOf(old(graph), bindings, input, who.principal, o.value.preview)
        && o.value.expiresAt == who.now + PREVIEW_LIFETIME && !o.value.error
        && Now() == old(Now()).(changes := old(changes)[k := o.value])
      ensures !o.Done? ==> Now() == old(Now())
      ensures old(weather) == [] ==> weather == []
      ensures o.Done? <==> Preparable(old(Now()), input, draft) && old(Previewable(input, who)) && FateOf(old(weather)) == Succeeds
    {
      hide Runs.Recorded, PreviewOf, Previewable, Standing, Statable, RequestsFor;
      var _ :- Check(epoch);
      var preview :- PreviewChange(input, who);
      var _ :- DryRun(input.kind, draft);
      var change := Change(input, preview, Prepared, who.now + PREVIEW_LIFETIME, preview,
                           RequestsFor(input.kind, preview), [], None, None, false);
      PreviewStands(graph, bindings, input, who.principal, preview);
      var _ :- Put(Stored(k), Now().(changes := changes[k := change]));
      o := Done(change);
    }

    /** A reviewable proposal, for which the claim and the engine answer `draft`. */
    method Prepare(k: Key, input: Input, who: Caller, draft: Draft) returns (o: Outcome<Change>)
      requires Valid()
      modifies this
      ensures Valid() && Continues()
      ensures o.Done? && k !in old(changes) ==>
        && Open(old(Now())) && Fresh(o.value) && o.value.input == input && Statable(input.kind, draft)
        && PreviewOf(old(graph), bindings, input, who.principal, o.value.preview)
        && o.value.expiresAt == who.now + PREVIEW_LIFETIME && !o.value.error
        && Now() == old(Now()).(changes := old(changes)[k := o.value])
      ensures old(weather) == [] ==> weather == []
      ensures o.Done? && k in old(changes) ==> o.value.input == input && Now() == old(Now()) && o.value == changes[k]
      ensures k !in old(changes) ==> (o.Done? <==> Preparable(old(Now()), input, draft) && old(Previewable(input, who))
                                                   && FateOf(old(weather)) == Succeeds)
      ensures !o.Done? && Now() != old(Now()) ==>
        && k in old(changes)
        && Now() == old(Now()).(changes := old(changes)[k := Expired(old(changes)[k], k, old(pending), who.now)])
    {
      hide Runs.Recorded;
      if input.revision < 1 {
        return Failed("invalid_request");
      }
      if input.kind == Misrecorded {
        return Failed("unsupported_capability");
      }
      if k in changes {
        var _ :- Expire(k, who.now);
        if changes[k].state == Discarded {
          return Failed("preview_expired");
        }
        if changes[k].input != input {
          return Failed("idempotency_conflict");
        }
        o := ReadChange(k, who);
      } else {
        o := PrepareNew(k, input, who, draft);
      }
    }

    /** Stores the tombstone of one source. */
    method ExcludeOne(k: Key, source: string) returns (o: Outcome<()>)
      requires Valid() && Open(Now()) && k in changes && changes[k].state == Prepared && source in changes[k].preview.excluded
      modifies this
      ensures Valid() && Continues() && weather == Later(old(weather)) && (o.Done? <==> FateOf(old(weather)) == Succeeds)
      ensures Now() == if o.Done? then old(Now()).(suppressed := old(suppressed) + {source}) else old(Now())
    {
      o := Put(Excluded(k, source), Now().(suppressed := suppressed + {source}));
    }

    /** Stores the tombstones of a change's sources, one key each. */
    method Exclude(k: Key, sources: set<string>) returns (o: Outcome<()>)
      requires Valid() && Open(Now()) && k in changes && changes[k].state == Prepared
      requires sources <= changes[k].preview.excluded
      modifies this
      ensures Valid() && Continues() && Now() == old(Now()).(suppressed := suppressed)
      ensures old(suppressed) <= suppressed <= old(suppressed) + sources
      ensures o.Done? ==> suppressed == old(suppressed) + sources
      ensures old(weather) == [] ==> o.Done? && weather == []
      ensures CutAfter(old(weather), |sources|) ==> o.Done? && weather == [Dies]
    {
      hide Runs.Recorded, Next;
      var rest := sources;
      while rest != {}
        invariant Valid() && Continues() && Now() == old(Now()).(suppressed := suppressed)
        invariant rest <= sources && suppressed == old(suppressed) + (sources - rest)
        invariant old(weather) == [] ==> weather == []
        invariant CutAfter(old(weather), |sources|) ==> CutAfter(weather, |rest|)
        decreases rest
      {
        var source :| source in rest;
        var _ :- ExcludeOne(k, source);
        rest := rest - {source};
      }
      o := Done(());
    }

    /** The preview of a stored change still holds for a caller. */
    ghost predicate Holds(k: Key, who: Caller)
      requires k in changes
      reads this
    {
      Previewable(InputOf(changes[k]), who) && Rechecked(graph, bindings, who.principal, changes[k])
    }

    /** `commit`'s second look at the preview. */
    method Recheck(k: Key, who: Caller) returns (o: Outcome<()>)
      requires k in changes && changes[k].preview == changes[k].digest
      ensures o.Done? <==> Holds(k, who)
      ensures o.Failed? <==> !o.Done?
    {
      var c := changes[k];
      var again :- PreviewChange(InputOf(c), who);
      if again != c.digest {
        if Rechecked(graph, bindings, who.principal, c) {
          PreviewIsUnique(graph, bindings, InputOf(c), who.principal, again, c.preview);
        }
        return Failed("revision_conflict");
      }
      o := Done(());
    }

    /** The first half of `commit`: the preview is taken again on the current graph, and only if it is the one the
        caller reviewed are the sources excluded and the fence persisted, in that order. */
    method Fence(k: Key, who: Caller) returns (o: Outcome<()>)
      requires Valid() && Open(Now()) && k in changes && changes[k].state == Prepared
      modifies this
      ensures Valid() && Continues()
      ensures o.Done? ==> Now() == old(Now()).(epoch := old(epoch) + 1, pending := Some(k),
                                               suppressed := old(suppressed) + old(changes)[k].preview.excluded)
      ensures o.Done? ==> old(Holds(k, who))
      ensures !o.Done? ==> Now() == old(Now()).(suppressed := suppressed)
                           && old(suppressed) <= suppressed <= old(suppressed) + old(changes)[k].preview.excluded
      ensures old(weather) == [] ==> weather == [] && (o.Done? <==> old(Holds(k, who)) && old(epoch) < MAX_SAFE_INTEGER)
      ensures CutAfter(old(weather), |old(changes)[k].preview.excluded|) && old(Holds(k, who)) && old(epoch) < MAX_SAFE_INTEGER ==>
        o.Died? && suppressed == old(suppressed) + old(changes)[k].preview.excluded
    {
      hide Runs.Recorded, Previewable, PreviewOf, Resumable;
      PreparedIsFresh(history, events, Now(), k);
      var c := changes[k];
      var _ :- Recheck(k, who);
      if epoch + 1 > MAX_SAFE_INTEGER {
        return Failed("epoch_exhausted");
      }
      PreviewIsResumable(graph, bindings, InputOf(c), who.principal, k, c);
      var _ :- Exclude(k, c.preview.excluded);
      o := Put(Fenced(k), Now().(epoch := epoch + 1, pending := Some(k)));
    }

    /** Commits a reviewed change, or takes up the one that is pending. Nothing native is written before the fence
        is persisted, and the fence is persisted only for a preview that still holds. */
    method Commit(k: Key, digest: Preview, who: Caller) returns (o: Outcome<Change>)
      requires Valid() && (scrub.Some? ==> pending.Some?)
      modifies this
      ensures Valid() && Continues()
      ensures o.Done? ==> k in old(changes) && old(changes)[k].digest == digest && k in changes && o.value == changes[k]
      ensures k in old(changes) ==> k in changes && SameChange(old(changes)[k], changes[k])
      ensures o.Done? ==> Settled(Now(), k) || (old(changes)[k].state == Confirmed && pending == None && Now() == old(Now()))
      ensures old(pending) == None && epoch == old(epoch) ==> Unfenced(old(Now()), Now(), k, who.now)
      ensures epoch != old(epoch) ==>
        && epoch == old(epoch) + 1 && k in old(changes) && old(changes)[k].digest == digest
        && old(changes)[k].preview.excluded <= suppressed
        && Rechecked(old(graph), bindings, who.principal, old(changes)[k])
        && forall id, key :: id in bindings && key in bindings[id] && Excludes(old(changes)[k].input.kind, old(changes)[k].preview, id)
                             ==> key in suppressed
      ensures old(weather) == [] && epoch != old(epoch) ==> o.Done? && o.value.state == Confirmed
      ensures old(weather) == [] && old(pending) == Some(k) && o.Done? ==> o.value.state == Confirmed
      ensures old(Committable(k, digest, who)) && old(weather) == [] ==> epoch == old(epoch) + 1
      ensures old(Committable(k, digest, who)) && CutAfter(old(weather), |old(changes)[k].preview.excluded|) ==>
        o.Died? && Now() == old(Now()).(suppressed := old(suppressed) + old(changes)[k].preview.excluded)
    {
      hide Runs.Recorded, Excludes, PreviewOf, Deletable, IsNewValue;
      if k !in changes {
        return Failed("not_found");
      }
      var c := changes[k];
      var _ :- ReadChange(k, who);
      if c.digest != digest {
        return Failed("revision_conflict");
      }
      o := CommitRead(k, c, who);
      if epoch != old(epoch) {
        FencedExcludes(old(graph), bindings, who.principal, c);
      }
    }

    /** What a commit that did not reach its fence may have left: excluded keys, and its own entry expired. */
    ghost predicate Unfenced(was: Durable, d: Durable, k: Key, now: int) {
      && d == was.(changes := d.changes, suppressed := d.suppressed)
      && was.suppressed <= d.suppressed
      && if k in was.changes then
           && d.suppressed <= was.suppressed + was.changes[k].preview.excluded
           && (d.changes == was.changes || d.changes == was.changes[k := Expired(was.changes[k], k, was.pending, now)])
         else d == was
    }

    /** A prepared change that nothing stands in the way of. */
    ghost predicate Committable(k: Key, digest: Preview, who: Caller)
      reads this
    {
      && Open(Now()) && k in changes && changes[k].state == Prepared && changes[k].digest == digest
      && who.now <= changes[k].expiresAt && epoch < MAX_SAFE_INTEGER && Holds(k, who)
    }

    /** `commit`, once the entry was read as `c`. */
    method CommitRead(k: Key, c: Change, who: Caller) returns (o: Outcome<Change>)
      requires Valid() && (scrub.Some? ==> pending.Some?) && who.granted
      requires k in changes && changes[k] == Expired(c, k, pending, who.now)
      modifies this
      ensures Valid() && Continues() && k in changes && SameChange(old(changes)[k], changes[k])
      ensures o.Done? ==> o.value == changes[k]
      ensures o.Done? ==> Settled(Now(), k) || (c.state == Confirmed && pending == None && Now() == old(Now()))
      ensures old(pending) == None && epoch == old(epoch) ==>
        Now() == old(Now()).(suppressed := suppressed) && old(suppressed) <= suppressed <= old(suppressed) + c.preview.excluded
      ensures epoch != old(epoch) ==>
        && epoch == old(epoch) + 1 && old(changes)[k] == c && c.preview.excluded <= suppressed
        && Rechecked(old(graph), bindings, who.principal, c)
      ensures old(weather) == [] && epoch != old(epoch) ==> o.Done? && o.value.state == Confirmed
      ensures old(weather) == [] && old(pending) == Some(k) && o.Done? ==> o.value.state == Confirmed
      ensures old(Committable(k, c.digest, who)) && old(weather) == [] ==> epoch == old(epoch) + 1
      ensures old(Committable(k, c.digest, who)) && CutAfter(old(weather), |c.preview.excluded|) ==>
        o.Died? && Now() == old(Now()).(suppressed := old(suppressed) + c.preview.excluded)
    {
      if c.state == Confirmed && pending == None {
        o := ReadChange(k, who);
        return;
      }
      if pending.Some? && pending != Some(k) {
        return Failed("memory_change_pending");
      }
      if c.state == Discarded {
        return Failed("preview_expired");
      }
      if pending == None {
        if c.state != Prepared || who.now > c.expiresAt {
          return Failed("preview_expired");
        }
        o := FenceAndCarry(k, who);
      } else {
        o := CarryThrough(k, who);
      }
    }

    method FenceAndCarry(k: Key, who: Caller) returns (o: Outcome<Change>)
      requires Valid() && Open(Now()) && k in changes && changes[k].state == Prepared
      modifies this
      ensures Valid() && Continues() && k in changes && SameChange(old(changes)[k], changes[k])
      ensures o.Done? ==> o.value == changes[k] && Settled(Now(), k)
      ensures epoch == old(epoch) ==>
        && Now() == old(Now()).(suppressed := suppressed) && !o.Done?
        && old(suppressed) <= suppressed <= old(suppressed) + old(changes)[k].preview.excluded
      ensures epoch != old(epoch) ==>
        && epoch == old(epoch) + 1 && old(changes)[k].preview.excluded <= suppressed
        && Rechecked(old(graph), bindings, who.principal, old(changes)[k])
      ensures old(weather) == [] && epoch != old(epoch) ==> o.Done? && o.value.state == Confirmed
      ensures old(Holds(k, who)) && old(epoch) < MAX_SAFE_INTEGER && old(weather) == [] ==> epoch == old(epoch) + 1
      ensures old(Holds(k, who)) && old(epoch) < MAX_SAFE_INTEGER && CutAfter(old(weather), |old(changes)[k].preview.excluded|) ==>
        o.Died? && Now() == old(Now()).(suppressed := old(suppressed) + old(changes)[k].preview.excluded)
    {
      var _ :- Fence(k, who);
      o := CarryThrough(k, who);
    }

    /** The second half of `commit`, behind the fence. */
    method CarryThrough(k: Key, who: Caller) returns (o: Outcome<Change>)
      requires Valid() && pending == Some(k)
      modifies this
      ensures Valid() && Continues() && Progressed(old(Now()), Now(), k)
      ensures o.Done? ==> o.value == changes[k] && Settled(Now(), k)
      ensures old(weather) == [] ==> weather == []
      ensures old(weather) == [] && who.granted ==> o.Done? && o.value.state == Confirmed
    {
      CommittingIsWorking(history, events, Now(), k);
      var committing := changes[k].(state := Committing);
      var _ :- PutChange(k, committing);
      o := Apply(k, who);
    }

    // ── Administrative erasure ───────────────────────────────────────────

    /** The erasure of one entity; a write that throws is passed over like a refusal. */
    method EraseOne(id: Id, purge: Purging) returns (o: Outcome<set<Id>>)
      requires Valid() && Open(Now()) && Purges(purge)
      modifies this
      ensures Valid() && Continues() && Now() == old(Now()).(graph := graph) && ForeignWrite(old(graph), graph)
      ensures !o.Failed? && (o.Done? ==> o.value == PurgedSince(old(graph), graph))
      ensures !(Live(old(graph), id) && purge(old(graph), id).Some?) ==> o.Done? && graph == old(graph) && weather == old(weather)
      ensures Live(old(graph), id) && purge(old(graph), id).Some? ==>
        && weather == Later(old(weather)) && (o.Died? <==> FateOf(old(weather)) == Dies)
        && graph == if FateOf(old(weather)) == Succeeds then purge(old(graph), id).value else old(graph)
    {
      GraphIsWellformed(history, events, Now());
      o := Done({});
      if Live(graph, id) {
        var next := purge(graph, id);
        if next.Some? {
          var before := graph;
          var written := WriteOpen(Administered, next.value);
          o := if written.Died? then Died else Done(PurgedSince(before, graph));
        }
      }
    }

    /** One turn of the loop: an entity named before is not taken up again. */
    method EraseAt(entities: seq<Id>, i: nat, purge: Purging) returns (o: Outcome<set<Id>>)
      requires Valid() && Open(Now()) && Purges(purge) && i < |entities|
      modifies this
      ensures Valid() && Continues() && Now() == old(Now()).(graph := graph) && ForeignWrite(old(graph), graph)
      ensures !o.Failed? && (o.Done? ==> o.value == PurgedSince(old(graph), graph))
      ensures Turned(old(weather), old(graph), entities, i, purge, o.Done?, weather, graph)
    {
      GraphIsWellformed(history, events, Now());
      o := Done({});
      if entities[i] !in entities[..i] {
        o := EraseOne(entities[i], purge);
      }
    }

    /** The native erasures of `forget`, one entity at a time: an entity that is gone, or that the engine refuses to
        erase, is passed over. */
    method EraseNative(entities: seq<Id>, purge: Purging) returns (o: Outcome<set<Id>>)
      requires Valid() && Open(Now()) && Purges(purge)
      modifies this
      ensures Valid() && Continues() && Now() == old(Now()).(graph := graph) && ForeignWrite(old(graph), graph)
      ensures !o.Failed? && (o.Done? ==> o.value == PurgedSince(old(graph), graph))
      ensures old(weather) == [] ==> o.Done? && weather == [] && graph == ErasedTo(old(graph), entities, |entities|, purge)
      ensures CutAfter(old(weather), WritesTo(old(graph), entities, |entities|, purge)) ==>
        o.Done? && weather == [Dies] && graph == ErasedTo(old(graph), entities, |entities|, purge)
    {
      hide Runs.Recorded;
      GraphIsWellformed(history, events, Now());
      var erased, was := {}, graph;
      for i := 0 to |entities|
        invariant Valid() && Continues() && Open(Now()) && Now() == old(Now()).(graph := graph)
        invariant ForeignWrite(was, graph) && erased == PurgedSince(was, graph)
        invariant OnCourse(was, entities, i, purge, old(weather), weather, graph)
      {
        ghost var before, sky := graph, weather;
        var more := EraseAt(entities, i, purge);
        StaysOnCourse(was, entities, i, purge, old(weather), sky, before, more.Done?, weather, graph);
        if more.Died? {
          return Died;
        }
        PurgedInTwo(was, before, graph);
        erased := erased + more.value;
      }
      o := Done(erased);
    }

    /** What `forget` does once passes are fenced: the native erasures, and then the scrub of every id they purged. An
        unfinished call has stored the marker with exactly these ids, or has left the journal as it was. */
    method EraseOpen(entities: seq<Id>, purge: Purging, now: int) returns (o: Outcome<()>)
      requires Valid() && Open(Now()) && Purges(purge)
      modifies this
      ensures Valid() && Continues() && ForeignWrite(old(graph), graph)
      ensures epoch == old(epoch) && pending == None && suppressed == old(suppressed)
      ensures o.Done? ==> Open(Now()) && ScrubComplete(changes, Scrub(PurgedSince(old(graph), graph), None))
      ensures !o.Done? ==>
        scrub == Some(Scrub(PurgedSince(old(graph), graph), None)) || (scrub == None && changes == old(changes))
      ensures old(weather) == [] ==> o.Done? && weather == [] && graph == ErasedTo(old(graph), entities, |entities|, purge)
      ensures CutAfter(old(weather), WritesTo(old(graph), entities, |entities|, purge)) ==>
        && Now() == old(Now()).(graph := ErasedTo(old(graph), entities, |entities|, purge))
        && (o.Done? <==> PurgedSince(old(graph), graph) == {})
      ensures PurgedSince(old(graph), graph) == {} && o.Done? ==> changes == old(changes)
    {
      var erased :- EraseNative(entities, purge);
      assert erased + MarkedIds(scrub) == erased;
      o := Done(());
      if erased != {} {
        ghost var written := Now();
        ghost var visited;
        o, visited := ScrubChanges(erased, None, now);
        assert OnlyJournalOf(written);
      }
    }
  }
}
