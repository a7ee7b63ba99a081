/** Which corrections a maintenance cycle has yet to review: the scan, its durable cursor and the page in hand. */
module CorrectionLedger {
  import opened Common

  const SCAN_LIMIT := 20

  /** A superseded Assertion and the commit that superseded it. Ids are numbers in listing order. */
  datatype Row = Row(seq_: nat, id: nat)

  predicate RowBefore(a: Row, b: Row) {
    a.seq_ < b.seq_ || (a.seq_ == b.seq_ && a.id < b.id)
  }

  /** A position in `(space_seq, id)` order; no id means the whole commit has been read. */
  datatype Position = Position(seq_: nat, afterId: Option<nat>)

  /** Rows the position has passed. `supersededCommand` asks for the others. */
  predicate Passed(r: Row, p: Position) {
    r.seq_ < p.seq_ || (r.seq_ == p.seq_ && (p.afterId.None? || r.id <= p.afterId.value))
  }

  /** What one scan found, and where the next one starts once all of it is reviewed. */
  datatype Page = Page(roots: seq<Row>, next: Position, incomplete: bool, error: bool)

  /** A stored checkpoint: an old one is a bare sequence. */
  datatype Checkpoint = Scalar(seq_: nat) | Pair(position: Position) {
    function At(): Position {
      if Scalar? then Position(seq_, None) else position
    }
  }

  // ── What the engine answers ────────────────────────────────────────────

  /** One answered query: its rows, some of which may not be readable, and whether the engine holds more. */
  datatype Answer = Refused | Answered(rows: seq<Option<Row>>, more: bool)

  predicate Unread(log: set<Row>, after: Position, r: Row) {
    r in log && !Passed(r, after)
  }

  /** The rows are at most 20, none passed before, and a row left out comes after all of them; when they are fewer than
      20 and the engine holds no more, none is left out. */
  ghost predicate Answers(log: set<Row>, after: Position, a: Answer) {
    a.Answered? ==>
      && |a.rows| <= SCAN_LIMIT
      && (forall r :: Some(r) in a.rows ==> Unread(log, after, r))
      && (None !in a.rows ==>
            && (forall r, s :: Unread(log, after, r) && Some(r) !in a.rows && Some(s) in a.rows ==> RowBefore(s, r))
            && (|a.rows| < SCAN_LIMIT && !a.more ==> forall r :: Unread(log, after, r) ==> Some(r) in a.rows))
  }

  // ── The scan ───────────────────────────────────────────────────────────

  predicate Ascending(rows: seq<Row>) {
    |rows| > 1 ==> !RowBefore(rows[1], rows[0]) && Ascending(rows[1..])
  }

  function Insert(x: Row, rows: seq<Row>): (r: seq<Row>)
    ensures forall y :: y in r <==> y == x || y in rows
    ensures Ascending(rows) ==> Ascending(r)
  {
    if rows == [] || !RowBefore(rows[0], x) then [x] + rows
    else [rows[0]] + Insert(x, rows[1..])
  }

  function Sort(rows: seq<Row>): (r: seq<Row>)
    ensures Ascending(r) && forall y :: y in r <==> y in rows
  {
    if rows == [] then [] else Insert(rows[0], Sort(rows[1..]))
  }

  lemma {:induction false} LastIsGreatest(rows: seq<Row>, x: Row)
    requires Ascending(rows) && x in rows
    ensures !RowBefore(rows[|rows| - 1], x)
  {
    if |rows| > 1 {
      LastIsGreatest(rows[1..], if x in rows[1..] then x else rows[1]);
    }
  }

  /** The page accounts for the log: passing it passes only rows passed before or on the page, and when it is complete,
      every row of the log. It never looks past the log, and a row on the page is a step forward. */
  ghost predicate Scanned(log: set<Row>, after: Position, page: Page) {
    && (forall r :: r in log && Passed(r, page.next) ==> Passed(r, after) || r in page.roots)
    && (forall r :: Passed(r, after) ==> Passed(r, page.next))
    && (forall r :: r in page.roots ==> r in log && !Passed(r, after) && Passed(r, page.next))
    && (!page.incomplete ==> forall r :: r in log ==> Passed(r, after) || r in page.roots)
    && (page.next.seq_ == after.seq_ || exists r :: r in page.roots && page.next.seq_ == r.seq_)
  }

  lemma PageIsScanned(log: set<Row>, after: Position, answer: Answer, page: Page)
    requires Answers(log, after, answer) && answer.Answered? && None !in answer.rows
    requires Ascending(page.roots) && forall r :: r in page.roots <==> Some(r) in answer.rows && !Passed(r, after)
    requires page.incomplete <==> |answer.rows| >= SCAN_LIMIT || answer.more
    requires page.roots != [] ==>
      var last := page.roots[|page.roots| - 1]; page.next == Position(last.seq_, if page.incomplete then Some(last.id) else None)
    requires page.roots == [] ==> page.next == if page.incomplete then after else Position(after.seq_, None)
    ensures Scanned(log, after, page)
  {
    forall r | r in page.roots
      ensures Passed(r, page.next)
    {
      LastIsGreatest(page.roots, r);
    }
    if page.roots != [] {
      var last := page.roots[|page.roots| - 1];
      assert last in page.roots && !Passed(last, after);
      forall r | Unread(log, after, r) && Passed(r, page.next)
        ensures r in page.roots
      {
        if Some(r) !in answer.rows {
          assert RowBefore(last, r);
        }
      }
    }
  }

  /** `scanCorrections`: one bounded page after a position. A refused query or an unreadable row keeps the position. */
  method ScanCorrections(answer: Answer, after: Position, ghost log: set<Row>) returns (page: Page)
    requires Answers(log, after, answer)
    ensures Scanned(log, after, page)
    ensures page.error <==> answer.Refused? || None in answer.rows
    ensures page.error ==> page.roots == [] && page.next == after
    ensures !page.error ==> (page.incomplete <==> |answer.rows| >= SCAN_LIMIT || answer.more)
    ensures !page.error ==> Ascending(page.roots) && forall r :: r in page.roots <==> Some(r) in answer.rows
  {
    if answer.Refused? {
      return Page([], after, true, true);
    }
    var roots, readable := [], 0;
    for i := 0 to |answer.rows|
      invariant readable <= i && (readable == i <==> None !in answer.rows[..i])
      invariant forall r :: r in roots <==> Some(r) in answer.rows[..i] && !Passed(r, after)
    {
      var row := answer.rows[i];
      if row.Some? {
        readable := readable + 1;
        if !Passed(row.value, after) {
          roots := roots + [row.value];
        }
      }
    }
    assert answer.rows[..|answer.rows|] == answer.rows;
    if readable != |answer.rows| {
      return Page([], after, true, true);
    }
    var incomplete, selected := |answer.rows| >= SCAN_LIMIT || answer.more, Sort(roots);
    if selected == [] {
      page := Page([], if incomplete then after else Position(after.seq_, None), incomplete, false);
    } else {
      var last := selected[|selected| - 1];
      page := Page(selected, Position(last.seq_, if incomplete then Some(last.id) else None), incomplete, false);
    }
    PageIsScanned(log, after, answer, page);
  }

  // ── The durable state and its writes ───────────────────────────────────

  /** What is stored, and which rows were acknowledged so far. */
  datatype Work = Work(cursor: Checkpoint, pending: Option<Page>, shown: seq<Row>, acked: set<Row>)

  /** The states after none, one, two and more of the writes of `save`. */
  function SaveWrites(w: Work, page: Page): (states: seq<Work>)
    ensures |states| > 0
  {
    if page.error then [w, w.(shown := page.roots)]
    else if page.roots != [] then
      var kept := w.(pending := Some(page));
      [w, kept, kept.(shown := page.roots)]
    else
      var cleared := w.(pending := None);
      var moved := cleared.(cursor := Pair(page.next));
      [w, cleared, moved, moved.(shown := [])]
  }

  function Without(rows: seq<Row>, ids: set<nat>): (r: seq<Row>)
    ensures forall x :: x in r <==> x in rows && x.id !in ids
  {
    if rows == [] then [] else (if rows[0].id in ids then [] else [rows[0]]) + Without(rows[1..], ids)
  }

  /** `validateAcknowledgement`: only ids of the page in hand may be acknowledged. */
  predicate MayAcknowledge(w: Work, ids: set<nat>) {
    forall id :: id in ids ==> w.pending.Some? && exists r :: r in w.pending.value.roots && r.id == id
  }

  function Reviewed(w: Work, ids: set<nat>): Work
    requires w.pending.Some?
  {
    w.(acked := w.acked + set r | r in w.pending.value.roots && r.id in ids)
  }

  function ResetWrites(w: Work): (states: seq<Work>)
    ensures |states| > 0
  {
    [w, w.(pending := None), w.(pending := None, shown := [])]
  }

  /** The states after the review and after each of the writes of `acknowledge`. */
  function AcknowledgeWrites(w: Work, ids: set<nat>): (states: seq<Work>)
    ensures |states| > 0
  {
    if w.pending.None? || !MayAcknowledge(w, ids) then [w]
    else
      var page, reviewed := w.pending.value, Reviewed(w, ids);
      var remaining := Without(page.roots, ids);
      if remaining != [] then
        var kept := reviewed.(pending := Some(page.(roots := remaining)));
        [reviewed, kept, kept.(shown := remaining)]
      else [reviewed] + ResetWrites(reviewed.(cursor := Pair(page.next)))
  }

  // ── Runs ───────────────────────────────────────────────────────────────

  /** The engine's superseded rows, its latest commit, and the durable work. */
  datatype World = World(log: set<Row>, now: nat, work: Work)

  /** Commits only add rows of their own; a row superseded again moves to the later commit, and one may be purged. */
  ghost predicate Grew(a: World, b: World) {
    && a.now <= b.now && b.work == a.work
    && forall r :: r in b.log ==> r.seq_ <= b.now && (r.seq_ <= a.now ==> r in a.log)
  }

  /** One step of any run. Every operation may be cut after any of its durable writes. */
  ghost predicate Step(a: World, b: World) {
    || Grew(a, b)
    || (b.log == a.log && b.now == a.now && WorkStep(a.log, a.work, b.work))
  }

  ghost predicate WorkStep(log: set<Row>, w: Work, w': Work) {
    || (w.pending.None? && exists page :: Scanned(log, w.cursor.At(), page) && w' in SaveWrites(w, page))
    || (w.pending.Some? && w' in SaveWrites(w, w.pending.value))
    || (exists ids :: w' in AcknowledgeWrites(w, ids))
    || w' in ResetWrites(w)
  }

  ghost predicate Covers(log: set<Row>, p: Position, acked: set<Row>, roots: seq<Row>) {
    forall r :: r in log && Passed(r, p) ==> r in acked || r in roots
  }

  /** Every row at or before the cursor was acknowledged; every row up to the end of the page in hand was acknowledged
      or is still on it; and neither looks past the latest commit. */
  ghost predicate Covered(w: World) {
    && (forall r :: r in w.log ==> r.seq_ <= w.now)
    && w.work.cursor.At().seq_ <= w.now && Covers(w.log, w.work.cursor.At(), w.work.acked, [])
    && (w.work.pending.Some? ==>
          var page := w.work.pending.value;
          !page.error && page.next.seq_ <= w.now && Covers(w.log, page.next, w.work.acked, page.roots))
  }

  ghost predicate Initial(w: World) {
    w.work == Work(Scalar(0), None, [], {}) && forall r :: r in w.log ==> 0 < r.seq_ <= w.now
  }

  lemma SaveKeepsCovered(w: World, page: Page, work: Work)
    requires Covered(w) && work in SaveWrites(w.work, page)
    requires (w.work.pending.None? && Scanned(w.log, w.work.cursor.At(), page)) || w.work.pending == Some(page)
    ensures Covered(w.(work := work)) && work.acked == w.work.acked
  {
  }

  lemma AcknowledgeKeepsCovered(w: World, ids: set<nat>, work: Work)
    requires Covered(w) && work in AcknowledgeWrites(w.work, ids)
    ensures Covered(w.(work := work)) && w.work.acked <= work.acked
  {
  }

  lemma WorkKeepsCovered(w: World, work: Work)
    requires Covered(w) && WorkStep(w.log, w.work, work)
    ensures Covered(w.(work := work)) && w.work.acked <= work.acked
  {
    if page :| w.work.pending.None? && Scanned(w.log, w.work.cursor.At(), page) && work in SaveWrites(w.work, page) {
      SaveKeepsCovered(w, page, work);
    } else if w.work.pending.Some? && work in SaveWrites(w.work, w.work.pending.value) {
      SaveKeepsCovered(w, w.work.pending.value, work);
    } else if ids :| work in AcknowledgeWrites(w.work, ids) {
      AcknowledgeKeepsCovered(w, ids, work);
    }
  }

  lemma StepKeepsCovered(a: World, b: World)
    requires Covered(a) && Step(a, b)
    ensures Covered(b) && a.work.acked <= b.work.acked
  {
    if !Grew(a, b) {
      WorkKeepsCovered(a, b.work);
      assert b == a.(work := b.work);
    }
  }

  ghost predicate Run(h: seq<World>) {
    && h != [] && Initial(h[0])
    && forall i :: 0 <= i < |h| - 1 ==> Step(h[i], h[i + 1])
  }

  lemma {:induction false} RunKeepsCovered(h: seq<World>, i: nat)
    requires Run(h) && i < |h|
    ensures Covered(h[i])
  {
    if i > 0 {
      RunKeepsCovered(h, i - 1);
      StepKeepsCovered(h[i - 1], h[i]);
    }
  }

  /** No correction is skipped: in every run, each superseded row at or before the stored cursor was acknowledged, by
      its id and for that very revision, and stays so. */
  lemma NoCorrectionSkipped(h: seq<World>, i: nat, j: nat, r: Row)
    requires Run(h) && i <= j < |h| && r in h[i].log && Passed(r, h[i].work.cursor.At())
    ensures r in h[j].work.acked
    decreases j
  {
    if i == j {
      RunKeepsCovered(h, i);
    } else {
      NoCorrectionSkipped(h, i, j - 1, r);
      RunKeepsCovered(h, j - 1);
      StepKeepsCovered(h[j - 1], h[j]);
    }
  }

  /** A complete page is the end of the backlog: once it is reviewed, every superseded row there is was acknowledged. */
  lemma BacklogExhausted(w: World, page: Page)
    requires Covered(w) && Scanned(w.log, w.work.cursor.At(), page) && !page.incomplete
    requires forall r :: r in page.roots ==> r in w.work.acked
    ensures w.log <= w.work.acked
  {
  }

  /** Reviewing a whole page moves the cursor past it: fewer rows are left, and they come again in no later scan. */
  lemma PageAdvances(log: set<Row>, after: Position, page: Page)
    requires Scanned(log, after, page) && page.roots != []
    ensures (set r | r in log && !Passed(r, page.next)) < (set r | r in log && !Passed(r, after))
  {
    var r, left := page.roots[0], set r | r in log && !Passed(r, page.next);
    assert r in page.roots && r !in left;
    assert left <= set r | r in log && !Passed(r, after);
    assert r in set r | r in log && !Passed(r, after);
  }
}
