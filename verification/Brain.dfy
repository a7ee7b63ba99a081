/** The Durable Object's entry points: each recovers first, and each agent write passes the fence. */
module Brain {
  import opened Common
  import opened Nexus
  import opened ChangeState
  import opened Product
  import Runs = ChangeRuns

  /** No change was fenced and nothing was invalidated from event `i` on. */
  ghost predicate Unfenced(events: seq<Event>, i: nat) {
    forall m :: i <= m < |events| ==> !events[m].Fenced? && !events[m].Invalidated?
  }

  /** A write under an epoch is a write of passes no fence came after. */
  lemma WriteIsUnfenced(h: seq<Durable>, es: seq<Event>, d: Durable, admitted: nat)
    requires Runs.Recorded(h, es, d) && es != [] && es[|es| - 1].Written? && es[|es| - 1].epoch == admitted
    ensures forall i :: 0 <= i < |es| && es[i].Opened? && es[i].epoch == admitted ==> Unfenced(es, i)
  {
    Runs.RecordedIsRun(h, es, d);
    forall i, m | 0 <= i <= m < |es| && es[i].Opened? && es[i].epoch == admitted
      ensures !es[m].Fenced? && !es[m].Invalidated?
    {
      Runs.PassIsFenced(h, es, i, |es| - 1, m);
    }
  }

  class AndaBrain {
    const product: MemoryProduct

    constructor (product: MemoryProduct)
      ensures this.product == product
    {
      this.product := product;
    }

    /** The start of one agent pass: it is admitted only while nothing is pending, with sources nothing excluded. */
    method OpenProcessing(sources: set<string>, who: Caller) returns (o: Outcome<nat>)
      requires product.Valid()
      modifies product
      ensures product.Valid() && product.Continues()
      ensures o.Done? ==> Open(product.Now()) && o.value == product.epoch && sources !! product.suppressed
      ensures old(product.weather) == [] && (who.granted || old(product.pending) == None) ==> (o.Done? <==> sources !! old(product.suppressed))
      ensures o.Done? ==> product.events != [] && product.events[|product.events| - 1] == Opened(o.value, sources)
    {
      var _ :- product.Recover(who);
      o := product.Begin(sources);
    }

    /** A formation or maintenance plan of the pass admitted at `admitted`. It writes only if nothing is pending and
        no change was fenced since any pass of that epoch was admitted; otherwise the graph is left to the recovery. */
    method ExecutePlan(admitted: nat, sources: set<string>, write: Graph -> Graph, who: Caller) returns (o: Outcome<()>)
      requires product.Valid()
      requires forall g {:trigger write(g)} :: Wellformed(g) ==> ForeignWrite(g, write(g))
      modifies product
      ensures product.Valid() && product.Continues()
      ensures o.Done? ==> Open(product.Now()) && product.epoch == admitted
      ensures o.Done? ==> forall i :: 0 <= i < |product.events| && product.events[i].Opened? && product.events[i].epoch == admitted
                                      ==> Unfenced(product.events, i)
      ensures Open(old(product.Now())) ==>
        product.Now() == old(product.Now()).(graph := if o.Done? then write(old(product.graph)) else old(product.graph))
      ensures Open(old(product.Now())) && old(product.weather) == [] ==> (o.Done? <==> admitted == old(product.epoch))
    {
      var _ :- product.Recover(who);
      var _ :- product.Check(admitted);
      Runs.RecordedInv(product.history, product.events, product.Now());
      o := product.WriteOpen(Written(admitted, sources), write(product.graph));
      if o.Done? {
        WriteIsUnfenced(product.history, product.events, product.Now(), admitted);
      }
    }

    method ProductPrepare(k: Key, input: Input, who: Caller, draft: Draft) returns (o: Outcome<Change>)
      requires product.Valid()
      modifies product
      ensures product.Valid() && product.Continues()
      ensures o.Done? ==> o.value.input == input
      ensures Open(old(product.Now())) && k !in old(product.changes) ==>
        (o.Done? <==> && product.Preparable(old(product.Now()), input, draft) && old(product.Previewable(input, who))
                      && FateOf(old(product.weather)) == Succeeds)
    {
      var _ :- product.Recover(who);
      o := product.Prepare(k, input, who, draft);
    }

    /** A commit that returns left the change confirmed, with every target verified and the fence open, or still
        fenced; it returned an old answer only for a change confirmed before. */
    method ProductCommit(k: Key, digest: Preview, who: Caller) returns (o: Outcome<Change>)
      requires product.Valid()
      modifies product
      ensures product.Valid() && product.Continues()
      ensures o.Done? ==> k in product.changes && o.value == product.changes[k]
      ensures o.Done? && k in old(product.changes) ==> SameChange(old(product.changes)[k], o.value)
      ensures old(product.Committable(k, digest, who)) && old(product.weather) == [] ==> o.Done? && o.value.state == Confirmed
      ensures o.Done? ==> Settled(product.Now(), k) || (o.value.state == Confirmed && product.pending == None)
    {
      ghost var n := |product.events|;
      assert product.history[n] == product.Now();
      var _ :- product.Recover(who);
      o := product.Commit(k, digest, who);
      if k in product.history[n].changes {
        EntryKept(product.history, product.events, n, product.Now(), k);
      }
    }

    method ProductDiscard(k: Key, who: Caller) returns (o: Outcome<()>)
      requires product.Valid()
      modifies product
      ensures product.Valid() && product.Continues()
      ensures o.Done? ==> k in product.changes && product.changes[k].state == Discarded && product.pending != Some(k)
      ensures Open(old(product.Now())) && old(product.weather) == [] ==>
        (o.Done? <==> k in old(product.changes) && old(product.changes)[k].state in {Prepared, Discarded})
    {
      var _ :- product.Recover(who);
      o := product.Discard(k);
    }

    /** Administrative erasure: in-flight passes are fenced before it, and the journal's copies of everything it purged
        are gone after it. `was` is the state in which the erasure began. An unfinished call did not begin it, or left
        the marker with all it purged for the next recovery, or left the journal as it was. */
    method ForgetMemory(entities: seq<Id>, purge: Purging, who: Caller) returns (o: Outcome<()>, ghost was: Durable)
      requires product.Valid() && Purges(purge)
      modifies product
      ensures product.Valid() && product.Continues()
      ensures o.Done? ==> Open(product.Now()) && was.epoch == old(product.epoch) + 1
                          && ScrubComplete(product.changes, Scrub(PurgedSince(was.graph, product.graph), None))
      ensures !o.Done? ==> Unfinished(was, product.Now())
      ensures old(product.weather) == [] && Open(old(product.Now())) && old(product.epoch) < MAX_SAFE_INTEGER ==>
        o.Done? && product.graph == ErasedTo(old(product.graph), entities, |entities|, purge)
    {
      hide Runs.Recorded;
      o := product.Recover(who);
      was := product.Now();
      if !o.Done? {
        return;
      }
      o := product.Invalidate();
      was := product.Now();
      if !o.Done? {
        return;
      }
      o := product.EraseOpen(entities, purge, who.now);
    }
  }

  /** What an erasure that did not finish leaves of the state it began in. */
  ghost predicate Unfinished(was: Durable, d: Durable) {
    || d == was
    || d.scrub == Some(Scrub(PurgedSince(was.graph, d.graph), None))
    || (d.scrub == None && d.changes == was.changes)
  }
}
