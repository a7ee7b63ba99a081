/** What a managed change or an erasure leaves when the isolate dies between two of its writes: runs of the operations
    themselves, for any service, and for one memory in particular. */
module Interruptions {
  import opened Brain
  import opened ChangeState
  import opened Closure
  import opened Common
  import opened Nexus
  import opened Product

  // ── One claim, its tuple and its source ────────────────────────────────

  const TUPLE: Id := 1
  const SOURCE: Id := 2
  const CLAIM: Id := 3
  const OPERATION: Key := 7
  const SHOWN := Content("tea", "she", "tea", None, None)
  const ALICE := Caller("alice", true, 0)

  function Memory(): Graph {
    Graph(map[
      TUPLE := Element(Proposition, Active, Current, 1, false, 0, {}, {}, "", false, NO_CONTENT),
      SOURCE := Element(Evidence, Active, Current, 1, false, 0, {}, {}, "", false, NO_CONTENT),
      CLAIM := Element(Assertion, Active, Current, 1, false, TUPLE, {SOURCE}, {TUPLE, SOURCE}, "alice", true, SHOWN)
    ], map[], 4)
  }

  const BINDINGS: map<Id, set<string>> := map[SOURCE := {"chat"}]

  const FORGET_CLAIM := Input(CLAIM, 1, Delete, None)

  lemma Steps()
    ensures Successors(Memory(), TUPLE) == {CLAIM} && Successors(Memory(), SOURCE) == {CLAIM}
    ensures Successors(Memory(), CLAIM) == {TUPLE, SOURCE}
  {
  }

  lemma ClaimReaches()
    ensures forall x :: Reaches(Memory(), TUPLE, x) <==> x in {TUPLE, SOURCE, CLAIM}
  {
    var g, reached := Memory(), {TUPLE, SOURCE, CLAIM};
    Steps();
    ReachesRoot(g, TUPLE);
    ReachesNext(g, TUPLE, TUPLE, CLAIM);
    ReachesNext(g, TUPLE, CLAIM, SOURCE);
    forall x | Reaches(g, TUPLE, x)
      ensures x in reached
    {
      var p :| IsPath(g, p) && p[0] == TUPLE && p[|p| - 1] == x;
      ClosedHoldsPath(g, reached, p);
    }
  }

  /** The claim can be deleted, with its tuple and its source. */
  lemma ClaimIsDeletable()
    ensures Deletable(Memory(), BINDINGS.Keys, TUPLE)
  {
    var reached: set<Id> := {TUPLE, SOURCE, CLAIM};
    ClaimReaches();
    assert |reached| <= MAX_TARGETS && forall x :: x in reached ==> MayErase(Memory(), BINDINGS.Keys, x);
  }

  /** A new service over a memory whose claim can be deleted, in which that deletion was prepared. */
  method Prepared(g: Graph, bindings: map<Id, set<string>>, input: Input, who: Caller) returns (product: MemoryProduct, change: Change)
    requires Wellformed(g) && g.applied == map[] && who.granted && input.kind == Delete && input.newValue == None && input.revision >= 1
    requires RecordOf(g, input.recordId).Some?
    requires var r := RecordOf(g, input.recordId).value;
      r.revision == input.revision && SourcesComplete(g, bindings, r) && Deletable(g, bindings.Keys, r.proposition)
    ensures fresh(product) && product.Valid() && Open(product.Now()) && product.epoch == 0 && product.weather == []
    ensures product.graph == g && product.bindings == bindings && product.changes == map[OPERATION := change]
    ensures product.suppressed == {}
    ensures Fresh(change) && change.input == input && change.expiresAt == who.now + PREVIEW_LIFETIME
    ensures PreviewOf(g, bindings, input, who.principal, change.preview)
  {
    product := new MemoryProduct(g, bindings, []);
    MayPreviewExactly(g, bindings, input, who);
    assert product.Previewable(input, who);
    var prepared := product.Prepare(OPERATION, input, who, Draft(true, true, true));
    change := prepared.value;
  }

  /** The deletion of this claim, prepared. */
  method PreparedDeletion() returns (product: MemoryProduct, change: Change)
    ensures fresh(product) && product.Valid() && Open(product.Now()) && product.epoch == 0 && product.weather == []
    ensures product.graph == Memory() && product.bindings == BINDINGS && product.changes == map[OPERATION := change]
    ensures product.suppressed == {}
    ensures Fresh(change) && change.input == FORGET_CLAIM && change.expiresAt == PREVIEW_LIFETIME
    ensures PreviewOf(Memory(), BINDINGS, FORGET_CLAIM, "alice", change.preview)
  {
    ClaimIsDeletable();
    product, change := Prepared(Memory(), BINDINGS, FORGET_CLAIM, ALICE);
  }

  lemma SourcesOfPreview(p: Preview)
    requires PreviewOf(Memory(), BINDINGS, FORGET_CLAIM, "alice", p)
    ensures p.excluded == {"chat"} && p.record.content == SHOWN && p.record.id == CLAIM
  {
    ClaimReaches();
    assert Ids(p) == {TUPLE, SOURCE, CLAIM};
    assert Sources(Memory(), Ids(p)) == {SOURCE};
    assert SourceKeys(BINDINGS, {SOURCE}) == {"chat"};
  }

  /** What the pass writes: one more Concept. */
  function Learn(g: Graph): Graph {
    Graph(g.elements[g.next := Element(Concept, Active, Current, 1, false, 0, {}, {}, "", false, NO_CONTENT)], g.applied, g.next + 1)
  }

  lemma LearnIsForeign(write: Graph -> Graph)
    requires write == Learn
    ensures forall g {:trigger write(g)} :: Wellformed(g) ==> ForeignWrite(g, write(g))
  {
    forall g {:trigger write(g)} | Wellformed(g)
      ensures ForeignWrite(g, write(g))
    {
      assert write(g) == Learn(g);
    }
  }

  /** Weather in which `n` writes succeed and the isolate then dies. */
  function Cut(n: nat): (weather: seq<Fate>)
    ensures CutAfter(weather, n)
  {
    seq(n, _ => Succeeds) + [Dies]
  }

  /** Any commit that nothing stands in the way of can be cut after its excluded keys and before its fence. */
  method CutBeforeFence(product: MemoryProduct, k: Key, who: Caller)
    requires product.Valid() && k in product.changes && product.Committable(k, product.changes[k].digest, who)
    modifies product
    ensures product.Valid() && product.Continues() && product.weather == []
    ensures product.Now() == old(product.Now()).(suppressed := old(product.suppressed) + old(product.changes)[k].preview.excluded)
  {
    product.weather := Cut(|product.changes[k].preview.excluded|);
    var _ := product.Commit(k, product.changes[k].digest, who);
    product.weather := [];
  }

  /** So a pass admitted before writes after the sources it was admitted with were excluded: whatever the change, the
      sources and the write. */
  method CutCommit(product: MemoryProduct, k: Key, sources: set<string>, write: Graph -> Graph, who: Caller)
    requires product.Valid() && k in product.changes && product.Committable(k, product.changes[k].digest, who)
    requires sources !! product.suppressed
    requires forall g {:trigger write(g)} :: Wellformed(g) ==> ForeignWrite(g, write(g))
    modifies product
    ensures product.Valid() && product.graph == write(old(product.graph)) && product.epoch == old(product.epoch)
    ensures Opened(product.epoch, sources) in product.events
    ensures old(product.changes)[k].preview.excluded <= product.suppressed
  {
    var brain := new AndaBrain(product);
    var admitted := product.Begin(sources);
    ghost var begun := product.events;
    assert begun[|begun| - 1] == Opened(product.epoch, sources);
    CutBeforeFence(product, k, who);
    var plan := brain.ExecutePlan(admitted.value, sources, write, who);
    assert product.events[|begun| - 1] == begun[|begun| - 1];
  }

  /** With this memory: the source "chat" is excluded, and the pass that was admitted with it writes. */
  method CutCommitLetsExcludedSourceWrite() returns (product: MemoryProduct)
    ensures product.Valid() && product.graph == Learn(Memory()) && "chat" in product.suppressed
    ensures Opened(0, {"chat"}) in product.events && product.epoch == 0
  {
    var change;
    product, change := PreparedDeletion();
    SourcesOfPreview(change.preview);
    ClaimIsDeletable();
    MayPreviewExactly(Memory(), BINDINGS, FORGET_CLAIM, ALICE);
    assert product.Holds(OPERATION, ALICE);
    var write: Graph -> Graph := Learn;
    LearnIsForeign(write);
    CutCommit(product, OPERATION, {"chat"}, write, ALICE);
  }

  // ── An erasure cut before its marker ───────────────────────────────────

  /** An erasure under any weather, which leaves the state `left`, and then an undisturbed recovery: the journal is free
      of what was purged exactly if the erasure finished, or its marker was stored, or the journal was free of it before. */
  method EraseAndRecover(product: MemoryProduct, entities: seq<Id>, purge: Purging, who: Caller)
    returns (o: Outcome<()>, ghost left: Durable)
    requires product.Valid() && Open(product.Now()) && Purges(purge)
    modifies product
    ensures product.Valid() && product.Continues() && Open(product.Now())
    ensures left in product.history && left.graph == product.graph
    ensures var purged := PurgedSince(old(product.graph), product.graph);
      ScrubComplete(product.changes, Scrub(purged, None)) <==>
        (o.Done? || left.scrub == Some(Scrub(purged, None)) || ScrubComplete(old(product.changes), Scrub(purged, None)))
  {
    o := product.EraseOpen(entities, purge, who.now);
    left := product.Now();
    ghost var n := |product.history| - 1;
    assert product.history[n] == left;
    product.weather := [];
    var _ := product.Recover(who);
    assert product.history[n] == left;
  }

  /** Cut before the marker, an erasure that is called again finds its entities gone, and leaves the journal as it was. */
  method CutErasure(product: MemoryProduct, entities: seq<Id>, purge: Purging, who: Caller) returns (o: Outcome<()>)
    requires product.Valid() && Open(product.Now()) && Purges(purge)
    requires var erased := ErasedTo(product.graph, entities, |entities|, purge);
      && PurgedSince(product.graph, erased) != {}
      && ErasedTo(erased, entities, |entities|, purge) == erased
    modifies product
    ensures product.Valid() && product.Continues() && o.Done?
    ensures product.Now() == old(product.Now()).(graph := ErasedTo(old(product.graph), entities, |entities|, purge))
  {
    product.weather := Cut(WritesTo(product.graph, entities, |entities|, purge));
    var _ := product.EraseOpen(entities, purge, who.now);
    product.weather := [];
    o := product.EraseOpen(entities, purge, who.now);
  }

  /** An engine that purges one element at a time, and refuses while something alive refers to it. */
  function PurgeOne(g: Graph, id: Id): Option<Graph> {
    if Live(g, id) && forall x :: x in Referrers(g, id) ==> !Live(g, x) then
      Some(Graph(g.elements[id := g.elements[id].(state := Purged)], g.applied, g.next))
    else None
  }

  lemma PurgeOnePurges(purge: Purging)
    requires purge == PurgeOne
    ensures Purges(purge)
  {
    forall g, id {:trigger purge(g, id)} | Wellformed(g) && purge(g, id).Some?
      ensures ForeignWrite(g, purge(g, id).value) && IsPurged(purge(g, id).value, id)
    {
      assert purge(g, id) == PurgeOne(g, id);
    }
  }

  /** With this memory: the claim is purged, the erasure reported done, and the preview of its deletion still says it. */
  method CutErasureLeavesContent() returns (product: MemoryProduct, change: Change)
    ensures product.Valid() && Open(product.Now()) && IsPurged(product.graph, CLAIM)
    ensures OPERATION in product.changes && product.changes[OPERATION] == change && change.preview.record.content == SHOWN
    ensures !ScrubComplete(product.changes, Scrub({CLAIM}, None))
  {
    product, change := PreparedDeletion();
    SourcesOfPreview(change.preview);
    var purge: Purging := PurgeOne;
    PurgeOnePurges(purge);
    OnceErased(purge);
    var _ := CutErasure(product, [CLAIM], purge, ALICE);
  }

  lemma OnceErased(purge: Purging)
    requires purge == PurgeOne
    ensures var erased := ErasedTo(Memory(), [CLAIM], 1, purge);
      && PurgedSince(Memory(), erased) == {CLAIM} && IsPurged(erased, CLAIM)
      && ErasedTo(erased, [CLAIM], 1, purge) == erased
  {
    var g := Memory();
    assert Referrers(g, CLAIM) == {};
    assert purge(g, CLAIM) == PurgeOne(g, CLAIM);
    assert IsWritten(g, [CLAIM], 0, purge);
    assert ErasedTo(g, [CLAIM], 0, purge) == g;
  }
}
