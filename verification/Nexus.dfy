/** The native engine as an abstract reference graph: elements with a version and a storage state, and
    mutations that are idempotent under an idempotency key. */
module Nexus {
  import opened Common

  type Id = nat

  datatype Kind = Concept | Proposition | Assertion | Evidence | Activity

  datatype Storage = Active | Archived | Purged

  datatype Status = Current | Superseded

  /** What a reader sees of a claim: its text, its labels and its endpoints. */
  datatype Content = Content(text: string, subjectLabel: string, objectLabel: string,
                             subject: Option<string>, object: Option<string>)

  const NO_CONTENT := Content("", "", "", None, None)

  /** `refs` are the outgoing references a `referrers` read inverts. The members from
      `proposition` on, `refs` aside, matter for Assertions only. */
  datatype Element = Element(kind: Kind, state: Storage, status: Status, version: nat, hold: bool,
                             proposition: Id, evidence: set<Id>, refs: set<Id>,
                             actor: string, supports: bool, content: Content)

  datatype Request =
    | Purge(id: Id, version: nat)
    | Archive(id: Id, version: nat)
    | Supersede(id: Id, version: nat)
    | Extend(id: Id)

  /** The part of an idempotency key after the operation: one revision, or one target. */
  datatype Token = Revision | On(id: Id)

  datatype Handles = Handles(input: Option<Id>, created: Option<Id>)

  /** `applied` is the engine's idempotency table; ids from `next` on were never used. */
  datatype Graph = Graph(elements: map<Id, Element>, applied: map<(nat, Token), Handles>, next: Id)

  predicate Live(g: Graph, id: Id) {
    id in g.elements && g.elements[id].state != Purged
  }

  predicate IsPurged(g: Graph, id: Id) {
    id in g.elements && g.elements[id].state == Purged
  }

  ghost predicate Wellformed(g: Graph) {
    forall id :: id in g.elements ==> id < g.next
  }

  /** The elements one step of a deletion's search adds: whatever refers to `id`, and for a claim its tuple and
      its sources. A purged element adds nothing. */
  function Successors(g: Graph, id: Id): set<Id> {
    if !Live(g, id) then {}
    else
      var e := g.elements[id];
      Referrers(g, id) + if e.kind == Assertion then {e.proposition} + e.evidence else {}
  }

  function Referrers(g: Graph, id: Id): (r: set<Id>)
    ensures forall x :: x in r <==> x in g.elements && id in g.elements[x].refs
  {
    set x | x in g.elements && id in g.elements[x].refs
  }

  /** `EXPECT VERSION`, storage state and legal hold: what the engine checks before it commits. */
  predicate Accepts(g: Graph, request: Request) {
    request.id in g.elements &&
    var e := g.elements[request.id];
    match request
    case Purge(_, version) => e.state != Purged && !e.hold && e.version == version
    case Archive(_, version) => e.state == Active && e.version == version
    case Supersede(_, version) => e.kind == Assertion && e.state == Active && e.status == Current && e.version == version
    case Extend(_) => e.kind == Assertion && e.state == Active
  }

  /** The elements one revision creates: its Evidence, value Concept, Proposition, Assertion and the
      Activity that links them to the old claim. */
  function Created(claim: Id, e: Element, next: Id): (r: map<Id, Element>)
    ensures r.Keys == {next, next + 1, next + 2, next + 3, next + 4}
    ensures forall x :: x in r ==> r[x].refs <= {claim} + r.Keys
    ensures next + 3 in r && r[next + 3].kind == Assertion
  {
    map[
      next := Element(Evidence, Active, Current, 1, false, 0, {}, {}, "", false, NO_CONTENT),
      next + 1 := Element(Concept, Active, Current, 1, false, 0, {}, {}, "", false, NO_CONTENT),
      next + 2 := Element(Proposition, Active, Current, 1, false, 0, {}, {next + 1}, "", false, NO_CONTENT),
      next + 3 := Element(Assertion, Active, Current, 1, false, next + 2, {next}, {next + 2, next}, e.actor, true, NO_CONTENT),
      next + 4 := Element(Activity, Active, Current, 1, false, 0, {}, {claim, next, next + 3}, "", false, NO_CONTENT)
    ]
  }

  /** One committed mutation, recorded under its idempotency key. */
  function Effect(g: Graph, key: nat, token: Token, request: Request): Graph
    requires Accepts(g, request)
  {
    var e := g.elements[request.id];
    match request
    case Purge(id, _) =>
      Graph(g.elements[id := e.(state := Purged, version := e.version + 1)],
            g.applied[(key, token) := Handles(None, None)], g.next)
    case Archive(id, _) =>
      Graph(g.elements[id := e.(state := Archived, version := e.version + 1)],
            g.applied[(key, token) := Handles(None, None)], g.next)
    case Supersede(id, _) =>
      Graph(g.elements[id := e.(status := Superseded, version := e.version + 1)] + Created(id, e, g.next),
            g.applied[(key, token) := Handles(Some(g.next), Some(g.next + 3))], g.next + 5)
    case Extend(id) =>
      Graph(g.elements + Created(id, e, g.next),
            g.applied[(key, token) := Handles(Some(g.next), Some(g.next + 3))], g.next + 5)
  }

  /** What a writer outside the managed changes may do: anything, except undo a purge or point at a
      purged element. Idempotency keys of managed changes are not its own. */
  ghost predicate ForeignWrite(g: Graph, g': Graph) {
    && Wellformed(g')
    && g'.applied == g.applied
    && (forall id :: IsPurged(g, id) ==> IsPurged(g', id))
    && (forall x, id :: Live(g', x) && id in g'.elements[x].refs && IsPurged(g, id) ==>
          Live(g, x) && id in g.elements[x].refs)
  }
}
