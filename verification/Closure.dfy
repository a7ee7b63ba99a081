/** The deletion closure: what one claim's erasure has to reach in the reference graph. */
module Closure {
  import opened Common
  import opened Nexus

  const MAX_TARGETS := 128

  // ── What the search is about ───────────────────────────────────────────

  /** From a live element the search goes on to whatever refers to it, and from a claim to its tuple and its sources. */
  ghost predicate Leads(g: Graph, x: Id, y: Id) {
    && x in g.elements && g.elements[x].state != Purged
    && (|| (y in g.elements && x in g.elements[y].refs)
        || (g.elements[x].kind == Assertion && (y == g.elements[x].proposition || y in g.elements[x].evidence)))
  }

  lemma LeadsToSuccessors(g: Graph, x: Id, y: Id)
    ensures y in Successors(g, x) <==> Leads(g, x, y)
  {
  }

  ghost predicate IsPath(g: Graph, p: seq<Id>) {
    |p| > 0 && forall i :: 0 <= i < |p| - 1 ==> Leads(g, p[i], p[i + 1])
  }

  ghost predicate Reaches(g: Graph, root: Id, x: Id) {
    exists p :: IsPath(g, p) && p[0] == root && p[|p| - 1] == x
  }

  /** An element a deletion may include: not a shared Concept, not under legal hold, and if it is a source, one
      whose identity is known. */
  predicate Erasable(g: Graph, bound: set<Id>, x: Id) {
    && x in g.elements
    && (Live(g, x) ==>
          var e := g.elements[x];
          e.kind != Concept && !e.hold && (e.kind == Evidence ==> x in bound))
  }

  /** The same, said of an element that is there: purged already, or neither shared nor held nor of unknown identity. */
  ghost predicate MayErase(g: Graph, bound: set<Id>, x: Id) {
    x in g.elements
    && (g.elements[x].state == Purged
        || (g.elements[x].kind != Concept && !g.elements[x].hold && (g.elements[x].kind != Evidence || x in bound)))
  }

  /** The search succeeds: at most 128 ids are reached, and every one is erasable. */
  ghost predicate Deletable(g: Graph, bound: set<Id>, root: Id) {
    exists reached: set<Id> ::
      && (forall x :: x in reached <==> Reaches(g, root, x))
      && |reached| <= MAX_TARGETS
      && forall x :: x in reached ==> MayErase(g, bound, x)
  }

  lemma ReachesRoot(g: Graph, root: Id)
    ensures Reaches(g, root, root)
  {
    assert IsPath(g, [root]);
  }

  lemma ReachesNext(g: Graph, root: Id, x: Id, y: Id)
    requires Reaches(g, root, x) && y in Successors(g, x)
    ensures Reaches(g, root, y)
  {
    var p :| IsPath(g, p) && p[0] == root && p[|p| - 1] == x;
    assert IsPath(g, p + [y]);
  }

  /** A set with the root that is closed under the step holds everything reached. */
  lemma {:induction false} ClosedHoldsPath(g: Graph, seen: set<Id>, p: seq<Id>)
    requires IsPath(g, p) && p[0] in seen
    requires forall x :: x in seen ==> Successors(g, x) <= seen
    ensures p[|p| - 1] in seen
    decreases |p|
  {
    if |p| > 1 {
      var q := p[..|p| - 1];
      assert IsPath(g, q);
      ClosedHoldsPath(g, seen, q);
      assert p[|p| - 1] in Successors(g, q[|q| - 1]);
    }
  }

  lemma SubsetIsNoLarger(a: set<Id>, b: set<Id>)
    requires a <= b
    ensures |a| <= |b|
  {
    assert b == a + (b - a);
  }

  // ── The worklist search ────────────────────────────────────────────────

  /** What the loop knows: everything met is reached, everything kept is live, and whatever one step from `seen`
      reaches was met. */
  ghost predicate Searching(g: Graph, bound: set<Id>, root: Id, pending: seq<Id>, seen: set<Id>, kept: set<Id>) {
    && (forall x :: x in pending ==> Reaches(g, root, x))
    && (forall x :: x in seen ==> Reaches(g, root, x) && Erasable(g, bound, x))
    && (forall x :: x in kept <==> x in seen && Live(g, x))
    && (root in seen || root in pending)
    && (forall x, y :: x in seen && y in Successors(g, x) ==> y in seen || y in pending)
  }

  lemma Expand(g: Graph, bound: set<Id>, root: Id, rest: seq<Id>, id: Id, seen: set<Id>, kept: set<Id>, more: seq<Id>)
    requires Searching(g, bound, root, rest + [id], seen, kept) && Erasable(g, bound, id)
    requires forall y :: y in more <==> y in Successors(g, id)
    ensures Searching(g, bound, root, rest + more, seen + {id}, if Live(g, id) then kept + {id} else kept)
  {
    assert id in rest + [id];
    forall y | y in rest + more
      ensures Reaches(g, root, y)
    {
      if y in more {
        ReachesNext(g, root, id, y);
      } else {
        assert y in rest + [id];
      }
    }
    assert forall y :: y in rest + [id] ==> y == id || y in rest + more;
  }

  lemma Skip(g: Graph, bound: set<Id>, root: Id, rest: seq<Id>, id: Id, seen: set<Id>, kept: set<Id>)
    requires Searching(g, bound, root, rest + [id], seen, kept) && id in seen
    ensures Searching(g, bound, root, rest, seen, kept)
  {
    assert forall y :: y in rest + [id] <==> y == id || y in rest;
  }

  /** The worklist search of `preview`: the live elements reached from `root`, or nothing when one of them may
      not be erased or more than 128 ids are met. */
  method Search(g: Graph, bound: set<Id>, root: Id) returns (found: Option<set<Id>>)
    ensures found.Some? <==> Deletable(g, bound, root)
    ensures found.Some? ==> forall x :: x in found.value <==> Reaches(g, root, x) && Live(g, x)
    ensures found.Some? ==> |found.value| <= MAX_TARGETS && forall x :: x in found.value ==> MayErase(g, bound, x)
  {
    var pending, seen, kept := [root], {}, {};
    ReachesRoot(g, root);
    while pending != []
      invariant Searching(g, bound, root, pending, seen, kept)
      invariant |seen| <= MAX_TARGETS
      decreases MAX_TARGETS - |seen|, |pending|
    {
      var id := pending[|pending| - 1];
      var rest := pending[..|pending| - 1];
      assert pending == rest + [id];
      if id in seen {
        Skip(g, bound, root, rest, id, seen, kept);
        pending := rest;
      } else if |seen| == MAX_TARGETS {
        TooMany(g, bound, root, seen + {id});
        return None;
      } else if !Erasable(g, bound, id) {
        return None;
      } else {
        var more := SortedIds(Successors(g, id));
        Expand(g, bound, root, rest, id, seen, kept, more);
        pending, seen, kept := rest + more, seen + {id}, if Live(g, id) then kept + {id} else kept;
      }
    }
    SearchDone(g, bound, root, seen, kept);
    found := Some(kept);
  }

  lemma SearchDone(g: Graph, bound: set<Id>, root: Id, seen: set<Id>, kept: set<Id>)
    requires Searching(g, bound, root, [], seen, kept) && |seen| <= MAX_TARGETS
    ensures forall x :: x in seen <==> Reaches(g, root, x)
    ensures |kept| <= MAX_TARGETS && Deletable(g, bound, root)
  {
    forall x | Reaches(g, root, x)
      ensures x in seen
    {
      var p :| IsPath(g, p) && p[0] == root && p[|p| - 1] == x;
      ClosedHoldsPath(g, seen, p);
    }
    SubsetIsNoLarger(kept, seen);
  }

  lemma TooMany(g: Graph, bound: set<Id>, root: Id, seen: set<Id>)
    requires |seen| > MAX_TARGETS && forall x :: x in seen ==> Reaches(g, root, x)
    ensures !Deletable(g, bound, root)
  {
    forall reached: set<Id> | forall x :: x in reached <==> Reaches(g, root, x)
      ensures |reached| > MAX_TARGETS
    {
      SubsetIsNoLarger(seen, reached);
    }
  }

  // ── Ordered listings ───────────────────────────────────────────────────

  ghost predicate Increasing(s: seq<nat>) {
    forall i, j :: 0 <= i < j < |s| ==> s[i] < s[j]
  }

  lemma {:induction false} LeastExists(s: set<nat>) returns (least: nat)
    requires s != {}
    ensures least in s && forall x :: x in s ==> least <= x
    decreases s
  {
    var some :| some in s;
    var rest := s - {some};
    assert forall x :: x in s ==> x == some || x in rest;
    if rest == {} {
      least := some;
    } else {
      var other := LeastExists(rest);
      least := if other < some then other else some;
    }
  }

  function Least(s: set<nat>): (least: nat)
    requires s != {}
    ensures least in s && forall x :: x in s ==> least <= x
  {
    assert exists m :: m in s && forall x :: x in s ==> m <= x by { var m := LeastExists(s); }
    var least :| least in s && forall x :: x in s ==> least <= x;
    least
  }

  /** A set in ascending order, as the storage lists its keys. */
  function SortedIds(s: set<nat>): (r: seq<nat>)
    ensures Increasing(r)
    ensures forall x :: x in r <==> x in s
    ensures |r| == |s|
    decreases s
  {
    if s == {} then []
    else
      var rest := SortedIds(s - {Least(s)});
      assert forall i :: 0 <= i < |rest| ==> rest[i] in s - {Least(s)};
      [Least(s)] + rest
  }
}
