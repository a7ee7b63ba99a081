/** What every run of the change protocol keeps, whatever it was interrupted by. */
module ChangeRuns {
  import opened Common
  import opened Nexus
  import opened ChangeState

  // ── One event ──────────────────────────────────────────────────────────

  lemma ForeignWriteKeepsInv(d: Durable, d': Durable)
    requires Inv(d) && Open(d) && ForeignWrite(d.graph, d'.graph) && d' == d.(graph := d'.graph)
    ensures Inv(d')
  {
  }

  /** Purging or archiving one target leaves the change resumable. */
  lemma TargetMutationResumable(g: Graph, k: Key, c: Change, i: nat, g': Graph)
    requires !Revises(c.input.kind) && i < |c.requests| && i < |c.preview.targets| && Resumable(g, k, c)
    requires (k, On(c.preview.targets[i].id)) !in g.applied && Accepts(g, c.requests[i])
    requires g' == Effect(g, k, On(c.preview.targets[i].id), c.requests[i])
    ensures Resumable(g', k, c)
  {
    var t := c.preview.targets[i];
    assert c.requests[i] == RequestFor(c.input.kind, t);
    forall u | u in c.preview.targets
      ensures Reached(g', c.input.kind, u.id) || Pristine(g', k, c.input.kind, u)
    {
      if u.id != t.id && !Reached(g, c.input.kind, u.id) {
        assert Pristine(g, k, c.input.kind, u);
      }
    }
  }

  /** Every element is still there. Outside some ids it is as it was; an element of these changed at most its lifecycle
      state, its status and its version. */
  ghost predicate Spares(g: Graph, g': Graph, ids: set<Id>) {
    forall x :: x in g.elements ==>
      && x in g'.elements
      && var (e, e') := (g.elements[x], g'.elements[x]);
         e' == if x in ids then e.(state := e'.state, status := e'.status, version := e'.version) else e
  }

  /** A mutation keeps what is purged and what was applied. */
  lemma EffectKeeps(g: Graph, k: Key, request: Request, token: Token, g': Graph)
    requires Accepts(g, request) && g' == Effect(g, k, token, request) && Wellformed(g)
    ensures !IsPurged(g, request.id) && g.applied.Keys <= g'.applied.Keys
    ensures forall id :: IsPurged(g, id) ==> IsPurged(g', id)
  {
    hide Created;
  }

  /** And it points at nothing old but its own element. */
  lemma EffectSpares(g: Graph, k: Key, request: Request, token: Token, g': Graph)
    requires Accepts(g, request) && g' == Effect(g, k, token, request) && Wellformed(g)
    ensures forall x, id :: Live(g', x) && id in g'.elements[x].refs ==>
      (Live(g, x) && id in g.elements[x].refs) || id == request.id || id >= g.next
  {
    var created := Created(request.id, g.elements[request.id], g.next);
    forall x, id | Live(g', x) && id in g'.elements[x].refs
      ensures (Live(g, x) && id in g.elements[x].refs) || id == request.id || id >= g.next
    {
      assert x in g.elements || x in created.Keys;
    }
  }

  /** So nothing a mutation of an active change does touches what earlier deletions erased. */
  lemma ErasedStays(g: Graph, k: Key, request: Request, token: Token, g': Graph, other: Key, erased: Change)
    requires Wellformed(g) && Accepts(g, request) && g' == Effect(g, k, token, request)
    requires Erased(g, other, erased)
    ensures Erased(g', other, erased)
  {
    EffectKeeps(g, k, request, token, g');
    EffectSpares(g, k, request, token, g');
    UnreferredStays(g, request.id, g', other, erased);
  }

  lemma UnreferredStays(g: Graph, id: Id, g': Graph, other: Key, erased: Change)
    requires Wellformed(g) && Erased(g, other, erased) && !IsPurged(g, id) && g.applied.Keys <= g'.applied.Keys
    requires forall x :: IsPurged(g, x) ==> IsPurged(g', x)
    requires forall x, y :: Live(g', x) && y in g'.elements[x].refs ==>
      (Live(g, x) && y in g.elements[x].refs) || y == id || y >= g.next
    ensures Erased(g', other, erased)
  {
    forall x, y | Live(g', x) && y in g'.elements[x].refs
      ensures y !in TargetIds(erased)
    {
      assert y in TargetIds(erased) ==> IsPurged(g, y) && y < g.next;
    }
  }

  lemma ErasureTouches(g: Graph, k: Key, request: Request, token: Token, g': Graph)
    requires Wellformed(g) && Accepts(g, request) && g' == Effect(g, k, token, request) && !IsRevision(request)
    ensures Spares(g, g', {request.id})
  {
  }

  lemma RevisionTouches(g: Graph, k: Key, request: Request, token: Token, g': Graph)
    requires Wellformed(g) && Accepts(g, request) && g' == Effect(g, k, token, request) && IsRevision(request)
    ensures Spares(g, g', {request.id})
  {
    hide Created;
    assert forall x :: x in g.elements ==> x !in Created(request.id, g.elements[request.id], g.next);
  }

  /** A mutation changes the status of its own element at most. */
  lemma EffectTouches(g: Graph, k: Key, request: Request, token: Token, g': Graph)
    requires Wellformed(g) && Accepts(g, request) && g' == Effect(g, k, token, request)
    ensures Spares(g, g', {request.id})
  {
    hide Effect, Spares;
    if IsRevision(request) {
      RevisionTouches(g, k, request, token, g');
    } else {
      ErasureTouches(g, k, request, token, g');
    }
  }

  /** And a revision adds five elements that were never used. */
  lemma EffectAdds(g: Graph, k: Key, request: Request, token: Token, g': Graph)
    requires Wellformed(g) && Accepts(g, request) && g' == Effect(g, k, token, request)
    ensures g'.elements.Keys == g.elements.Keys + AddedBy(request, g.next)
    ensures !IsRevision(request) ==> g'.next == g.next
  {
    hide Created;
  }

  predicate IsRevision(request: Request) {
    request.Supersede? || request.Extend?
  }

  function AddedBy(request: Request, next: Id): set<Id> {
    if IsRevision(request) then FiveFrom(next) else {}
  }

  function FiveFrom(next: Id): set<Id> {
    {next, next + 1, next + 2, next + 3, next + 4}
  }

  /** A revision leaves its claim as readable as it was. */
  lemma RevisionEffect(g: Graph, k: Key, request: Request, g': Graph)
    requires Wellformed(g) && Accepts(g, request) && g' == Effect(g, k, Revision, request) && IsRevision(request)
    ensures request.id in g'.elements && (k, Revision) in g'.applied && g'.applied[(k, Revision)].created.Some?
    ensures var (e, e') := (g.elements[request.id], g'.elements[request.id]);
      && e'.kind == e.kind && e'.state == e.state && e'.proposition == e.proposition && e'.evidence == e.evidence
      && e'.status == if request.Supersede? then Superseded else e.status
  {
    hide Created;
  }

  lemma RevisionMutationResumable(g: Graph, k: Key, c: Change, g': Graph)
    requires Wellformed(g) && Revises(c.input.kind) && Resumable(g, k, c)
    requires (k, Revision) !in g.applied && Accepts(g, c.requests[0]) && g' == Effect(g, k, Revision, c.requests[0])
    ensures Resumable(g', k, c)
  {
    hide Effect;
    EffectTouches(g, k, c.requests[0], Revision, g');
    RevisionEffect(g, k, c.requests[0], g');
  }

  lemma MutationApplied(g: Graph, k: Key, token: Token, request: Request, g': Graph)
    requires Wellformed(g) && Accepts(g, request) && g' == Effect(g, k, token, request)
    ensures Wellformed(g') && g'.applied.Keys == g.applied.Keys + {(k, token)}
  {
    hide Created;
  }

  /** A confirmed entry is mutated no further. */
  lemma ConfirmedTakesNoMutation(g: Graph, k: Key, c: Change, i: nat)
    requires Resumable(g, k, c) && Verified(g, k, c) && i < |c.requests|
    requires Revises(c.input.kind) || i < |c.preview.targets|
    ensures (k, TokenOf(c, i)) in g.applied || !Accepts(g, c.requests[i])
  {
    if !Revises(c.input.kind) {
      assert c.requests[i] == RequestFor(c.input.kind, c.preview.targets[i]);
    }
  }

  lemma MutationKeepsInv(d: Durable, k: Key, token: Token, d': Durable)
    requires Inv(d) && Next(d, Mutated(k, token), d')
    ensures Inv(d')
  {
    hide Effect, Resumable, Verified, Erased, Fresh;
    var c, g, g' := d.changes[k], d.graph, d'.graph;
    var i :| 0 <= i < |c.requests| && (Revises(c.input.kind) || i < |c.preview.targets|)
      && TokenOf(c, i) == token && Accepts(g, c.requests[i])
      && d' == d.(graph := Effect(g, k, token, c.requests[i]));
    MutationAt(g, k, c, i, g');
    forall other | other in d.changes && d.changes[other].state == Confirmed && d.changes[other].input.kind == Delete
      ensures Erased(g', other, d.changes[other])
    {
      ErasedStays(g, k, c.requests[i], token, g', other, d.changes[other]);
    }
  }

  lemma MutationAt(g: Graph, k: Key, c: Change, i: nat, g': Graph)
    requires Wellformed(g) && Resumable(g, k, c) && i < |c.requests| && (Revises(c.input.kind) || i < |c.preview.targets|)
    requires (k, TokenOf(c, i)) !in g.applied && Accepts(g, c.requests[i])
    requires g' == Effect(g, k, TokenOf(c, i), c.requests[i])
    ensures Wellformed(g') && Resumable(g', k, c) && !Verified(g, k, c)
    ensures g'.applied.Keys == g.applied.Keys + {(k, TokenOf(c, i))}
  {
    MutationApplied(g, k, TokenOf(c, i), c.requests[i], g');
    if Revises(c.input.kind) {
      RevisionMutationResumable(g, k, c, g');
    } else {
      TargetMutationResumable(g, k, c, i, g');
    }
    if Verified(g, k, c) {
      ConfirmedTakesNoMutation(g, k, c, i);
    }
  }

  /** The scrub keeps what an entry is about, and what it leaves prepared it leaves alone. */
  lemma ScrubbedIs(c: Change, ids: set<Id>, c': Change)
    requires c' == ScrubChange(c, ids)
    ensures c'.input == c.input && c'.preview.targets == c.preview.targets && TargetIds(c') == TargetIds(c)
    ensures if c'.state == Prepared then c' == c else c'.state == c.state || c'.state == Discarded
  {
    assert c'.preview.targets == c.preview.targets;
  }

  lemma ScrubEntryKeepsInv(d: Durable, k: Key, d': Durable)
    requires Inv(d) && Next(d, ScrubbedEntry(k), d')
    ensures Inv(d')
  {
    hide ScrubChange, Resumable, Verified, Fresh;
    ScrubbedIs(d.changes[k], d.scrub.value.ids, d'.changes[k]);
  }

  lemma AdvanceKeepsInv(d: Durable, k: Key, d': Durable)
    requires Inv(d) && Next(d, Advanced(k), d')
    ensures Inv(d')
  {
    hide Fresh;
    var c' := d'.changes[k];
    if c'.state == Confirmed && c'.input.kind == Delete {
      assert Erased(d.graph, k, c');
    }
  }

  lemma JournalKeepsInv(d: Durable, e: Event, d': Durable)
    requires Inv(d) && Next(d, e, d') && (e.Stored? || e.Dropped?)
    ensures Inv(d')
  {
    hide Resumable, Verified, Erased;
  }

  lemma ControlKeepsInv(d: Durable, e: Event, d': Durable)
    requires Inv(d) && Next(d, e, d') && (e.Fenced? || e.Cleared? || e.Invalidated? || e.Excluded? || e.Opened?)
    ensures Inv(d')
  {
    hide Verified, Erased;
  }

  lemma ScrubMarkKeepsInv(d: Durable, e: Event, d': Durable)
    requires Inv(d) && Next(d, e, d') && (e.ScrubOpened? || e.ScrubClosed?)
    ensures Inv(d')
  {
  }

  lemma JournalEventKeepsInv(d: Durable, e: Event, d': Durable)
    requires Inv(d) && Next(d, e, d')
    requires e.Stored? || e.Dropped? || e.ScrubOpened? || e.ScrubbedEntry? || e.ScrubClosed?
    ensures Inv(d')
  {
    if e.ScrubbedEntry? {
      ScrubEntryKeepsInv(d, e.key, d');
    } else if e.Stored? || e.Dropped? {
      JournalKeepsInv(d, e, d');
    } else {
      ScrubMarkKeepsInv(d, e, d');
    }
  }

  /** Every event keeps the invariant. */
  lemma StepKeepsInv(d: Durable, e: Event, d': Durable)
    requires Inv(d) && Next(d, e, d')
    ensures Inv(d')
  {
    if e.Stored? || e.Dropped? || e.ScrubOpened? || e.ScrubbedEntry? || e.ScrubClosed? {
      JournalEventKeepsInv(d, e, d');
    } else if e.Written? || e.Administered? {
      ForeignWriteKeepsInv(d, d');
    } else if e.Mutated? {
      MutationKeepsInv(d, e.key, e.token, d');
    } else if e.Advanced? {
      AdvanceKeepsInv(d, e.key, d');
    } else {
      ControlKeepsInv(d, e, d');
    }
  }

  // ── What deletions erased ──────────────────────────────────────────────

  /** An erased id is purged, so it is neither standing nor still unused. */
  lemma ErasedAreOld(d: Durable, k: Key)
    requires Inv(d) && ConfirmedDeletion(d, k)
    ensures forall id :: id in TargetIds(d.changes[k]) ==> IsPurged(d.graph, id) && id < d.graph.next
  {
    assert Erased(d.graph, k, d.changes[k]);
  }

  lemma ScrubbedStaysClean(c: Change, erased: set<Id>, ids: set<Id>)
    requires Clean(c, ids)
    ensures Clean(ScrubChange(c, erased), ids) && (Touches(ScrubChange(c, erased), ids) <==> Touches(c, ids))
    ensures TargetIds(ScrubChange(c, erased)) == TargetIds(c)
  {
    assert ScrubChange(c, erased).preview.targets == c.preview.targets;
  }

  lemma DroppedIsClean(c: Change, ids: set<Id>)
    ensures Clean(ClearContent(c.(state := Discarded)), ids)
  {
  }

  lemma StoredStaysSpotless(d: Durable, x: Key, d': Durable)
    requires Inv(d) && Spotless(d) && Next(d, Stored(x), d')
    ensures Spotless(d')
  {
    hide Inv;
    forall k | ConfirmedDeletion(d', k)
      ensures Disposed(d'.changes, k, d'.changes[k]) && Unconcerned(d', k, TargetIds(d'.changes[k]))
    {
      assert ConfirmedDeletion(d, k);
      ErasedAreOld(d, k);
      assert !Touches(d'.changes[x], TargetIds(d.changes[k]));
    }
  }

  lemma DroppedStaysSpotless(d: Durable, x: Key, d': Durable)
    requires Inv(d) && Spotless(d) && Next(d, Dropped(x), d')
    ensures Spotless(d')
  {
    hide Inv;
    forall k | ConfirmedDeletion(d', k)
      ensures Disposed(d'.changes, k, d'.changes[k]) && Unconcerned(d', k, TargetIds(d'.changes[k]))
    {
      assert ConfirmedDeletion(d, k);
      DroppedIsClean(d.changes[x], TargetIds(d.changes[k]));
    }
  }

  lemma ScrubStaysSpotless(d: Durable, x: Key, d': Durable)
    requires Inv(d) && Spotless(d) && Next(d, ScrubbedEntry(x), d')
    ensures Spotless(d')
  {
    hide Inv;
    var erased := d.scrub.value.ids;
    forall k | ConfirmedDeletion(d', k)
      ensures Disposed(d'.changes, k, d'.changes[k]) && Unconcerned(d', k, TargetIds(d'.changes[k]))
    {
      assert ConfirmedDeletion(d, k);
      var ids := TargetIds(d.changes[k]);
      assert TargetIds(d'.changes[k]) == ids by {
        assert d'.changes[k].preview.targets == d.changes[k].preview.targets;
      }
      if x != k {
        ScrubbedStaysClean(d.changes[x], erased, ids);
      }
    }
  }

  /** While a change is carried out, what it names and what it created were not erased before. */
  lemma AdvancedAvoids(d: Durable, x: Key, c: Change, ids: set<Id>)
    requires d.pending == Some(x) && x in d.changes && SameChange(d.changes[x], c) && Resumable(d.graph, x, c)
    requires !Touches(d.changes[x], ids)
    requires (x, Revision) in d.graph.applied ==> Avoids(d.graph.applied[(x, Revision)], ids)
    ensures !Touches(c, ids)
  {
    var was, now := d.changes[x].preview.record, c.preview.record;
    assert was.(content := NO_CONTENT) == now.(content := NO_CONTENT);
    assert now.id == was.id && now.proposition == was.proposition && now.sources == was.sources;
  }

  lemma AdvancedStaysSpotless(d: Durable, x: Key, d': Durable)
    requires Inv(d) && Spotless(d) && Next(d, Advanced(x), d')
    ensures Spotless(d')
  {
    hide Inv, Resumable, Verified;
    forall k | ConfirmedDeletion(d', k)
      ensures Disposed(d'.changes, k, d'.changes[k]) && Unconcerned(d', k, TargetIds(d'.changes[k]))
    {
      if k != x {
        assert ConfirmedDeletion(d, k);
        AdvancedAvoids(d, x, d'.changes[x], TargetIds(d.changes[k]));
      }
    }
  }

  /** A mutation creates only ids that were never used. */
  lemma EffectAvoids(g: Graph, x: Key, token: Token, request: Request, g': Graph, ids: set<Id>)
    requires Accepts(g, request) && g' == Effect(g, x, token, request) && forall id :: id in ids ==> id < g.next
    requires (x, Revision) in g.applied ==> Avoids(g.applied[(x, Revision)], ids)
    ensures (x, Revision) in g'.applied ==> Avoids(g'.applied[(x, Revision)], ids)
  {
  }

  lemma MutatedStaysSpotless(d: Durable, x: Key, token: Token, d': Durable)
    requires Inv(d) && Spotless(d) && Next(d, Mutated(x, token), d')
    ensures Spotless(d')
  {
    var i :| 0 <= i < |d.changes[x].requests| && Accepts(d.graph, d.changes[x].requests[i])
             && d' == d.(graph := Effect(d.graph, x, token, d.changes[x].requests[i]));
    forall k | ConfirmedDeletion(d', k)
      ensures Disposed(d'.changes, k, d'.changes[k]) && Unconcerned(d', k, TargetIds(d'.changes[k]))
    {
      assert ConfirmedDeletion(d, k);
      ErasedAreOld(d, k);
      if k != x {
        EffectAvoids(d.graph, x, token, d.changes[x].requests[i], d'.graph, TargetIds(d.changes[k]));
      }
    }
  }

  lemma ControlStaysSpotless(d: Durable, e: Event, d': Durable)
    requires Inv(d) && Spotless(d) && Next(d, e, d')
    requires !e.Stored? && !e.Dropped? && !e.ScrubbedEntry? && !e.Advanced? && !e.Mutated?
    ensures Spotless(d')
  {
    forall k | ConfirmedDeletion(d', k)
      ensures Disposed(d'.changes, k, d'.changes[k]) && Unconcerned(d', k, TargetIds(d'.changes[k]))
    {
      assert ConfirmedDeletion(d, k);
      if e.Fenced? && k != e.key {
        assert Clean(d.changes[e.key], TargetIds(d.changes[k]));
      }
    }
  }

  lemma EntryKeepsSpotless(d: Durable, e: Event, d': Durable)
    requires Inv(d) && Spotless(d) && Next(d, e, d') && (e.Stored? || e.Dropped? || e.ScrubbedEntry?)
    ensures Spotless(d')
  {
    match e {
      case Stored(x) => StoredStaysSpotless(d, x, d');
      case Dropped(x) => DroppedStaysSpotless(d, x, d');
      case ScrubbedEntry(x) => ScrubStaysSpotless(d, x, d');
    }
  }

  /** Every event keeps the journal free of what confirmed deletions erased. */
  lemma StepKeepsSpotless(d: Durable, e: Event, d': Durable)
    requires Inv(d) && Spotless(d) && Next(d, e, d')
    ensures Spotless(d')
  {
    if e.Stored? || e.Dropped? || e.ScrubbedEntry? {
      EntryKeepsSpotless(d, e, d');
    } else if e.Advanced? {
      AdvancedStaysSpotless(d, e.key, d');
    } else if e.Mutated? {
      MutatedStaysSpotless(d, e.key, e.token, d');
    } else {
      ControlStaysSpotless(d, e, d');
    }
  }

  // ── Every run ──────────────────────────────────────────────────────────

  /** Whatever the interruptions, every durable state of a run can be resumed, and its journal holds nothing that a
      confirmed deletion erased. */
  lemma {:induction false} InvThroughout(h: seq<Durable>, es: seq<Event>, i: nat)
    requires Run(h, es) && i < |h|
    ensures Inv(h[i]) && Spotless(h[i])
  {
    if i > 0 {
      InvThroughout(h, es, i - 1);
      StepKeepsInv(h[i - 1], es[i - 1], h[i]);
      StepKeepsSpotless(h[i - 1], es[i - 1], h[i]);
    }
  }

  /** A run told from its end: what a live object keeps as it goes. */
  ghost predicate Recorded(h: seq<Durable>, es: seq<Event>, d: Durable)
    decreases |es|
  {
    && |h| == |es| + 1 && h[|es|] == d
    && if es == [] then Start(d)
       else
         var n := |es| - 1;
         Recorded(h[..n + 1], es[..n], h[n]) && Next(h[n], es[n], d)
  }

  /** What is recorded is a run. */
  lemma {:induction false} RecordedIsRun(h: seq<Durable>, es: seq<Event>, d: Durable)
    requires Recorded(h, es, d)
    ensures Run(h, es)
    decreases |es|
  {
    if es != [] {
      var n := |es| - 1;
      RecordedIsRun(h[..n + 1], es[..n], h[n]);
      forall i | 0 <= i < |es|
        ensures Next(h[i], es[i], h[i + 1])
      {
        if i < n {
          assert Next(h[..n + 1][i], es[..n][i], h[..n + 1][i + 1]);
        }
      }
    }
  }

  /** Where a run stands, the invariant holds. */
  lemma RecordedInv(h: seq<Durable>, es: seq<Event>, d: Durable)
    requires Recorded(h, es, d)
    ensures Inv(d) && Spotless(d)
  {
    RecordedIsRun(h, es, d);
    InvThroughout(h, es, |es|);
  }

  lemma Extend(h: seq<Durable>, es: seq<Event>, d: Durable, e: Event, d': Durable)
    requires Recorded(h, es, d) && Next(d, e, d')
    ensures Recorded(h + [d'], es + [e], d')
  {
    var h', es' := h + [d'], es + [e];
    assert h'[..|es| + 1] == h && es'[..|es|] == es;
    assert h'[|es|] == d && es'[|es|] == e;
  }

  ghost predicate Held(d: Durable, k: Key) {
    k in d.changes && d.changes[k].state != Discarded && (d.pending == Some(k) || d.changes[k].state == Confirmed)
  }

  lemma EventKeepsHeld(d: Durable, e: Event, d': Durable, k: Key)
    requires Held(d, k) && Next(d, e, d') && (d.scrub.Some? ==> d.scrub.value.except == d.pending)
    ensures Held(d', k)
  {
    hide Resumable, Verified, Effect;
  }

  lemma HeldStays(d: Durable, e: Event, d': Durable, k: Key)
    requires Inv(d) && Held(d, k) && Next(d, e, d')
    ensures Held(d', k) && SameChange(d.changes[k], d'.changes[k])
  {
    hide Next;
    EventKeepsEntry(d, e, d', k);
    EventKeepsHeld(d, e, d', k);
  }

  /** A change whose fence was persisted is never discarded: it stays pending until it is confirmed, and
      confirmed from then on, with the same targets. */
  lemma {:induction false} FencedNeverDiscarded(h: seq<Durable>, es: seq<Event>, i: nat, j: nat, k: Key)
    requires Run(h, es) && i <= j < |h| && Held(h[i], k)
    ensures Held(h[j], k) && h[j].changes[k].preview.targets == h[i].changes[k].preview.targets
    ensures h[j].changes[k].input == h[i].changes[k].input
    decreases j
  {
    hide Next, Inv, Spotless;
    if i < j {
      FencedNeverDiscarded(h, es, i, j - 1, k);
      InvThroughout(h, es, j - 1);
      HeldStays(h[j - 1], es[j - 1], h[j], k);
    }
  }

  lemma {:induction false} AppliedStays(h: seq<Durable>, es: seq<Event>, i: nat, j: nat, k: Key, t: Token)
    requires Run(h, es) && i <= j < |h| && (k, t) in h[i].graph.applied
    ensures (k, t) in h[j].graph.applied
    decreases j
  {
    if i < j {
      AppliedStays(h, es, i, j - 1, k, t);
      assert Next(h[j - 1], es[j - 1], h[j]);
    }
  }

  /** Each target's native mutation takes effect at most once, over the whole run. */
  lemma MutatedAtMostOnce(h: seq<Durable>, es: seq<Event>, i: nat, j: nat, k: Key, t: Token)
    requires Run(h, es) && i < |es| && j < |es|
    requires es[i] == Mutated(k, t) && es[j] == Mutated(k, t)
    ensures i == j
  {
    if i < j {
      assert Next(h[i], es[i], h[i + 1]) && Next(h[j], es[j], h[j + 1]);
      AppliedStays(h, es, i + 1, j, k, t);
    } else if j < i {
      MutatedAtMostOnce(h, es, j, i, k, t);
    }
  }

  /** An entry of the idempotency table was written by that mutation's event. */
  lemma {:induction false} AppliedByEvent(h: seq<Durable>, es: seq<Event>, i: nat, k: Key, t: Token) returns (m: nat)
    requires Run(h, es) && i < |h| && (k, t) in h[i].graph.applied
    ensures m < i && es[m] == Mutated(k, t)
  {
    assert i > 0;
    assert Next(h[i - 1], es[i - 1], h[i]);
    if (k, t) in h[i - 1].graph.applied {
      m := AppliedByEvent(h, es, i - 1, k, t);
    } else {
      m := i - 1;
    }
  }

  /** `pending` leaves a change in one way: by an event that finds it confirmed and every target verified. */
  lemma PendingClearedOnlyWhenDone(d: Durable, e: Event, d': Durable, k: Key)
    requires Inv(d) && Next(d, e, d') && d.pending == Some(k) && d'.pending != Some(k)
    ensures e == Cleared(k) && k in d'.changes && d'.changes[k].state == Confirmed && d'.scrub == None
    ensures Verified(d'.graph, k, d'.changes[k])
  {
  }

  /** When a change is cleared, its mutations were each applied exactly once: a revision's one statement, and
      one purge for every target of a deletion. */
  lemma ClearedMeansAppliedOnce(h: seq<Durable>, es: seq<Event>, i: nat, k: Key, t: Token) returns (m: nat)
    requires Run(h, es) && i < |es| && h[i].pending == Some(k) && h[i + 1].pending != Some(k)
    requires k in h[i].changes
    requires var c := h[i].changes[k];
      if Revises(c.input.kind) then t == Revision
      else c.input.kind == Delete && t.On? && t.id in TargetIds(c)
    ensures m < i && es[m] == Mutated(k, t)
    ensures forall n :: 0 <= n < |es| && es[n] == Mutated(k, t) ==> n == m
  {
    InvThroughout(h, es, i);
    PendingClearedOnlyWhenDone(h[i], es[i], h[i + 1], k);
    assert (k, t) in h[i].graph.applied;
    m := AppliedByEvent(h, es, i, k, t);
    forall n | 0 <= n < |es| && es[n] == Mutated(k, t)
      ensures n == m
    {
      MutatedAtMostOnce(h, es, n, m, k, t);
    }
  }

  /** From the moment a deletion is cleared, in every later state its targets are purged and no live element
      refers to one. */
  lemma DeletionLeavesNoReference(h: seq<Durable>, es: seq<Event>, i: nat, j: nat, k: Key)
    requires Run(h, es) && i < j < |h| && es[i] == Cleared(k) && k in h[i].changes
    requires h[i].changes[k].input.kind == Delete
    ensures forall id :: id in TargetIds(h[i].changes[k]) ==> IsPurged(h[j].graph, id)
    ensures forall x, id :: Live(h[j].graph, x) && id in h[j].graph.elements[x].refs ==> id !in TargetIds(h[i].changes[k])
  {
    assert Next(h[i], es[i], h[i + 1]);
    FencedNeverDiscarded(h, es, i, j, k);
    InvThroughout(h, es, j);
    ConfirmedStays(h, es, i, j, k);
    assert Erased(h[j].graph, k, h[j].changes[k]);
    assert TargetIds(h[j].changes[k]) == TargetIds(h[i].changes[k]);
  }

  /** From the moment a deletion is cleared, in every later state the journal holds nothing of it: its own entry is
      emptied, every other entry that names an erased element lost its text, endpoints and labels, and one that is
      unconfirmed, or whose replacement was erased, its requests and new value too. */
  lemma ErasedContentIsGone(h: seq<Durable>, es: seq<Event>, i: nat, j: nat, k: Key)
    requires Run(h, es) && i < j < |h| && es[i] == Cleared(k) && k in h[i].changes
    requires h[i].changes[k].input.kind == Delete
    ensures k in h[j].changes && Emptied(h[j].changes[k])
    ensures forall x :: x in h[j].changes && x != k ==> Clean(h[j].changes[x], TargetIds(h[i].changes[k]))
  {
    assert Next(h[i], es[i], h[i + 1]);
    FencedNeverDiscarded(h, es, i, j, k);
    InvThroughout(h, es, j);
    ConfirmedStays(h, es, i, j, k);
    assert ConfirmedDeletion(h[j], k);
    assert TargetIds(h[j].changes[k]) == TargetIds(h[i].changes[k]);
  }

  /** Once cleared, a change is never pending again. */
  lemma {:induction false} ConfirmedStays(h: seq<Durable>, es: seq<Event>, i: nat, j: nat, k: Key)
    requires Run(h, es) && i < j < |h| && es[i] == Cleared(k)
    ensures k in h[j].changes && h[j].changes[k].state == Confirmed && h[j].pending != Some(k)
    decreases j
  {
    assert Next(h[i], es[i], h[i + 1]);
    if i + 1 < j {
      ConfirmedStays(h, es, i, j - 1, k);
      assert Next(h[j - 1], es[j - 1], h[j]);
    }
  }

  // ── What a change leaves alone ─────────────────────────────────────────

  /** What a change may touch: a revision its claim, any other its targets. */
  function Footprint(c: Change): set<Id> {
    if Revises(c.input.kind) then {c.preview.record.id} else TargetIds(c)
  }

  lemma SparesTwice(a: Graph, b: Graph, c: Graph, ids: set<Id>, more: set<Id>)
    requires Spares(a, b, ids) && Spares(b, c, more) && more <= ids
    ensures Spares(a, c, ids)
  {
  }

  /** What the requests of a change made of the graph it was fenced on, so far. */
  ghost predicate CarriedFrom(was: Graph, g: Graph, k: Key, c: Change) {
    && Spares(was, g, Footprint(c))
    && (if Revises(c.input.kind) && (k, Revision) in g.applied then g.elements.Keys == was.elements.Keys + FiveFrom(was.next)
        else g.elements.Keys == was.elements.Keys && g.next == was.next)
  }

  lemma RequestIsInFootprint(g: Graph, k: Key, c: Change, i: nat)
    requires Resumable(g, k, c) && i < |c.requests| && (Revises(c.input.kind) || i < |c.preview.targets|)
    ensures c.requests[i].id in Footprint(c) && (IsRevision(c.requests[i]) <==> Revises(c.input.kind))
    ensures Revises(c.input.kind) <==> TokenOf(c, i) == Revision
  {
    if !Revises(c.input.kind) {
      assert c.requests[i] == RequestFor(c.input.kind, c.preview.targets[i]);
    }
  }

  lemma MutationCarries(was: Graph, g: Graph, k: Key, c: Change, i: nat, g': Graph)
    requires Wellformed(g) && CarriedFrom(was, g, k, c) && Resumable(g, k, c)
    requires i < |c.requests| && (Revises(c.input.kind) || i < |c.preview.targets|)
    requires (k, TokenOf(c, i)) !in g.applied && Accepts(g, c.requests[i]) && g' == Effect(g, k, TokenOf(c, i), c.requests[i])
    ensures CarriedFrom(was, g', k, c)
  {
    hide Effect, Resumable;
    RequestIsInFootprint(g, k, c, i);
    EffectTouches(g, k, c.requests[i], TokenOf(c, i), g');
    EffectAdds(g, k, c.requests[i], TokenOf(c, i), g');
    MutationApplied(g, k, TokenOf(c, i), c.requests[i], g');
    SparesTwice(was, g, g', Footprint(c), {c.requests[i].id});
  }

  /** An entry stays the entry it was: its input, its digest, its targets, and the claim and sources it is about. */
  lemma EventKeepsEntry(d: Durable, e: Event, d': Durable, k: Key)
    requires Next(d, e, d') && k in d.changes
    ensures k in d'.changes && SameChange(d.changes[k], d'.changes[k])
  {
    hide Resumable, Verified, Effect;
  }

  lemma {:induction false} EntryStays(h: seq<Durable>, es: seq<Event>, i: nat, j: nat, k: Key)
    requires Run(h, es) && i <= j < |h| && k in h[i].changes
    ensures k in h[j].changes && SameChange(h[i].changes[k], h[j].changes[k])
    decreases j
  {
    if i < j {
      EntryStays(h, es, i, j - 1, k);
      EventKeepsEntry(h[j - 1], es[j - 1], h[j], k);
    }
  }

  lemma SameFootprint(c: Change, c': Change)
    requires SameChange(c, c')
    ensures Footprint(c') == Footprint(c) && Revises(c'.input.kind) == Revises(c.input.kind)
  {
    assert c.preview.record.(content := NO_CONTENT) == c'.preview.record.(content := NO_CONTENT);
  }

  lemma MutatedCarries(was: Graph, d: Durable, token: Token, d': Durable, k: Key, c: Change)
    requires Wellformed(d.graph) && k in d.changes && Resumable(d.graph, k, c) && c == d.changes[k]
    requires Next(d, Mutated(k, token), d') && CarriedFrom(was, d.graph, k, c)
    ensures CarriedFrom(was, d'.graph, k, c)
  {
    hide CarriedFrom, Effect, Resumable;
    var i :| 0 <= i < |c.requests| && (Revises(c.input.kind) || i < |c.preview.targets|)
      && TokenOf(c, i) == token && Accepts(d.graph, c.requests[i])
      && d' == d.(graph := Effect(d.graph, k, token, c.requests[i]));
    MutationCarries(was, d.graph, k, c, i, d'.graph);
  }

  lemma EventKeepsGraph(d: Durable, e: Event, d': Durable, k: Key)
    requires d.pending == Some(k) && Next(d, e, d') && e != Cleared(k)
    ensures d'.pending == Some(k) && if e.Mutated? then e.key == k else d'.graph == d.graph
  {
    hide Effect, Resumable, Verified;
  }

  lemma EventCarries(was: Graph, d: Durable, e: Event, d': Durable, k: Key, c: Change)
    requires Inv(d) && d.pending == Some(k) && Next(d, e, d') && e != Cleared(k)
    requires SameChange(c, d.changes[k]) && CarriedFrom(was, d.graph, k, c)
    ensures d'.pending == Some(k) && CarriedFrom(was, d'.graph, k, c)
  {
    hide CarriedFrom, Next, Resumable, Verified, SameChange;
    EventKeepsGraph(d, e, d', k);
    if e.Mutated? {
      CarriedOfSame(was, d.graph, k, c, d.changes[k]);
      MutatedCarries(was, d, e.token, d', k, d.changes[k]);
      CarriedOfSame(was, d'.graph, k, c, d.changes[k]);
    }
  }

  lemma CarriedOfSame(was: Graph, g: Graph, k: Key, c: Change, c': Change)
    requires SameChange(c, c')
    ensures CarriedFrom(was, g, k, c) <==> CarriedFrom(was, g, k, c')
  {
    SameFootprint(c, c');
  }

  lemma FenceCarriesNothing(d: Durable, k: Key, d': Durable)
    requires Inv(d) && Next(d, Fenced(k), d')
    ensures d'.pending == Some(k) && k in d.changes && CarriedFrom(d.graph, d'.graph, k, d.changes[k])
  {
    hide Resumable, Verified;
  }

  /** From its fence until it is cleared, and whatever it is interrupted by, a change touches nothing outside its
      footprint, and of that only the state, the status and the version. A suppression or a deletion adds no element; a
      revision adds five that were never used, once it is applied. */
  lemma {:induction false} ChangeSparesOthers(h: seq<Durable>, es: seq<Event>, i: nat, j: nat, k: Key)
    requires Run(h, es) && i < j < |h| && es[i] == Fenced(k) && forall m :: i < m < j ==> es[m] != Cleared(k)
    ensures h[j].pending == Some(k) && k in h[i].changes && CarriedFrom(h[i].graph, h[j].graph, k, h[i].changes[k])
    decreases j
  {
    hide Next, Inv, Spotless, CarriedFrom;
    InvThroughout(h, es, i);
    FenceCarriesNothing(h[i], k, h[i + 1]);
    if i + 1 < j {
      InvThroughout(h, es, j - 1);
      ChangeSparesOthers(h, es, i, j - 1, k);
      EntryStays(h, es, i, j - 1, k);
      EventCarries(h[i].graph, h[j - 1], es[j - 1], h[j], k, h[i].changes[k]);
    }
  }

  /** So a change that was cleared spared everything else, and a revision added exactly five elements. */
  lemma ClearedSparedOthers(h: seq<Durable>, es: seq<Event>, i: nat, j: nat, k: Key)
    requires Run(h, es) && i < j < |es| && es[i] == Fenced(k) && es[j] == Cleared(k)
    requires forall m :: i < m < j ==> es[m] != Cleared(k)
    ensures k in h[i].changes
    ensures var (c, g, g') := (h[i].changes[k], h[i].graph, h[j + 1].graph);
      Spares(g, g', Footprint(c)) && g'.elements.Keys == g.elements.Keys + if Revises(c.input.kind) then FiveFrom(g.next) else {}
  {
    ChangeSparesOthers(h, es, i, j, k);
    EntryStays(h, es, i, j, k);
    InvThroughout(h, es, j);
    assert Next(h[j], es[j], h[j + 1]);
    PendingClearedOnlyWhenDone(h[j], es[j], h[j + 1], k);
  }

  // ── The fence ──────────────────────────────────────────────────────────

  lemma {:induction false} EpochGrows(h: seq<Durable>, es: seq<Event>, i: nat, j: nat)
    requires Run(h, es) && i <= j < |h|
    ensures h[i].epoch <= h[j].epoch
    decreases j
  {
    if i < j {
      EpochGrows(h, es, i, j - 1);
      assert Next(h[j - 1], es[j - 1], h[j]);
    }
  }

  /** A pass that writes under its admitted epoch saw no fence and no invalidation since its admission, and
      no change was pending at any moment in between. */
  lemma PassIsFenced(h: seq<Durable>, es: seq<Event>, i: nat, j: nat, m: nat)
    requires Run(h, es) && i <= m <= j < |es|
    requires es[i].Opened? && es[j].Written? && es[j].epoch == es[i].epoch
    ensures h[m].epoch == es[i].epoch && h[m].pending == None
    ensures !es[m].Fenced? && !es[m].Invalidated?
    decreases m
  {
    assert Next(h[i], es[i], h[i + 1]) && Next(h[j], es[j], h[j + 1]) && Next(h[m], es[m], h[m + 1]);
    EpochGrows(h, es, i, m);
    EpochGrows(h, es, m, j);
    if m < j {
      EpochGrows(h, es, m + 1, j);
    }
    if i < m {
      PassIsFenced(h, es, i, j, m - 1);
      assert Next(h[m - 1], es[m - 1], h[m]);
    }
  }

  lemma {:induction false} SuppressedBetween(h: seq<Durable>, es: seq<Event>, i: nat, j: nat, source: string)
    requires Run(h, es) && i <= j < |h|
    ensures source in h[j].suppressed <==>
      source in h[i].suppressed || exists m :: i <= m < j && es[m].Excluded? && es[m].source == source
    decreases j
  {
    if i < j {
      SuppressedBetween(h, es, i, j - 1, source);
      assert Next(h[j - 1], es[j - 1], h[j]);
    }
  }

  /** A pass writes with a suppressed source exactly when that exclusion was persisted after its admission by a
      commit whose fence was not: the keys are stored before the fence, so a commit cut between the two leaves
      the epoch as it was. */
  lemma SuppressedSourceWrites(h: seq<Durable>, es: seq<Event>, i: nat, j: nat, source: string)
    requires Run(h, es) && i < j < |es|
    requires es[i].Opened? && es[j].Written? && es[j].epoch == es[i].epoch && source in es[i].sources
    ensures source in h[j].suppressed <==>
      exists m :: i < m < j && es[m].Excluded? && es[m].source == source
                  && forall n :: m < n < j ==> es[n] != Fenced(es[m].key)
  {
    assert Next(h[i], es[i], h[i + 1]);
    SuppressedBetween(h, es, i, j, source);
    forall n | i < n < j
      ensures !es[n].Fenced?
    {
      PassIsFenced(h, es, i, j, n);
    }
  }

  /** So a pass admitted before a commit that reached its fence writes nothing after it. */
  lemma NoWriteAfterFence(h: seq<Durable>, es: seq<Event>, i: nat, m: nat, j: nat)
    requires Run(h, es) && i < m < j < |es|
    requires es[i].Opened? && (es[m].Fenced? || es[m].Invalidated?)
    ensures !(es[j].Written? && es[j].epoch == es[i].epoch)
  {
    if es[j].Written? && es[j].epoch == es[i].epoch {
      PassIsFenced(h, es, i, j, m);
    }
  }

  // ── What a scrub treated stays treated ─────────────────────────────────

  /** With no new fence, only the change that was pending is carried out. */
  lemma {:induction false} NoNewFence(h: seq<Durable>, es: seq<Event>, i: nat, j: nat)
    requires Run(h, es) && i <= j < |h| && h[i].epoch == h[j].epoch
    ensures h[j].pending == None || h[j].pending == h[i].pending
    decreases j
  {
    hide Resumable, Verified, Effect;
    if i < j {
      EpochGrows(h, es, i, j - 1);
      EpochGrows(h, es, j - 1, j);
      NoNewFence(h, es, i, j - 1);
      assert Next(h[j - 1], es[j - 1], h[j]);
    }
  }

  /** An entry that is clean of some ids stays so while it is not carried out itself. */
  lemma {:induction false} CleanStays(h: seq<Durable>, es: seq<Event>, i: nat, j: nat, x: Key, ids: set<Id>)
    requires Run(h, es) && i <= j < |h| && h[i].epoch == h[j].epoch
    requires x in h[i].changes && h[i].pending != Some(x) && Clean(h[i].changes[x], ids)
    ensures x in h[j].changes && Clean(h[j].changes[x], ids)
    decreases j
  {
    hide Resumable, Verified, Effect;
    if i < j {
      EpochGrows(h, es, i, j - 1);
      EpochGrows(h, es, j - 1, j);
      NoNewFence(h, es, i, j - 1);
      CleanStays(h, es, i, j - 1, x, ids);
      var e := es[j - 1];
      assert Next(h[j - 1], e, h[j]);
      if e == ScrubbedEntry(x) {
        ScrubbedStaysClean(h[j - 1].changes[x], h[j - 1].scrub.value.ids, ids);
      } else if e == Dropped(x) {
        DroppedIsClean(h[j - 1].changes[x], ids);
      }
    }
  }
}
