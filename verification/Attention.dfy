/** Attention recall: bounded pages over the append-only log of raising Activities. */
module Attention {
  import opened Common
  import opened AttentionStream

  const MAX_PAGE := 50

  datatype Page = Page(items: seq<Item>, cursor: Position, complete: bool)

  // ── Reading one window ─────────────────────────────────────────────────

  /** The first commit a cursor still needs: its own when it stopped inside it, else the next. */
  function FromSeq(after: Position): nat {
    if after.Start? then 0 else if after.ref.None? then after.seq_ + 1 else after.seq_
  }

  function FirstRow(log: seq<Raising>, i: nat, from: nat): (lo: nat)
    requires i <= |log|
    ensures i <= lo <= |log| && (lo < |log| ==> log[lo].seq_ >= from)
    ensures forall k :: i <= k < lo ==> log[k].seq_ < from
    decreases |log| - i
  {
    if i == |log| || log[i].seq_ >= from then i else FirstRow(log, i + 1, from)
  }

  /** The engine's answer to one read: the first 200 rows from a sequence on. */
  function Window(log: seq<Raising>, from: nat): seq<Raising> {
    var lo := FirstRow(log, 0, from);
    log[lo..if lo + WINDOW < |log| then lo + WINDOW else |log|]
  }

  function Without(rows: seq<Raising>, at: nat): seq<Raising> {
    if rows == [] then []
    else Without(rows[..|rows| - 1], at) + if rows[|rows| - 1].seq_ != at then [rows[|rows| - 1]] else []
  }

  /** A full window leaves its last commit to the next page, unless it holds no other. */
  function Kept(window: seq<Raising>): seq<Raising> {
    if |window| >= WINDOW && window[0].seq_ != window[|window| - 1].seq_
    then Without(window, window[|window| - 1].seq_)
    else window
  }

  lemma {:induction false} WithoutLast(rows: seq<Raising>, m: nat, at: nat)
    requires m <= |rows|
    requires forall k :: 0 <= k < m ==> rows[k].seq_ != at
    requires forall k :: m <= k < |rows| ==> rows[k].seq_ == at
    ensures Without(rows, at) == rows[..m]
    decreases |rows|
  {
    if rows != [] {
      var n := |rows| - 1;
      if m == |rows| {
        WithoutLast(rows[..n], n, at);
        assert rows[..n][..n] + [rows[n]] == rows[..m];
      } else {
        WithoutLast(rows[..n], m, at);
        assert rows[..n][..m] == rows[..m];
      }
    }
  }

  /** Where the last commit of some rows starts. */
  lemma LastCommit(rows: seq<Raising>) returns (m: nat)
    requires rows != [] && Ordered(rows)
    ensures m < |rows| && (m > 0 ==> rows[m - 1].seq_ < rows[m].seq_)
    ensures forall k :: m <= k < |rows| ==> rows[k].seq_ == rows[|rows| - 1].seq_
    ensures forall k :: 0 <= k < m ==> rows[k].seq_ < rows[|rows| - 1].seq_
  {
    m := |rows| - 1;
    while m > 0 && rows[m - 1].seq_ == rows[|rows| - 1].seq_
      invariant m < |rows| && forall k :: m <= k < |rows| ==> rows[k].seq_ == rows[|rows| - 1].seq_
    {
      m := m - 1;
    }
    if m > 0 {
      assert forall k :: 0 <= k < m ==> rows[k].seq_ <= rows[m - 1].seq_ < rows[|rows| - 1].seq_;
    }
  }

  /** What the kept rows raise is what the log's rows from `lo` to `hi` raise, one window to a commit; `hi` is past
      `lo` whenever anything is left, and the end of the log unless the window was full. */
  ghost predicate Covers(log: seq<Raising>, kept: seq<Raising>, full: bool, lo: nat, hi: nat) {
    && lo <= hi <= |log| && Between(log, lo) && Between(log, hi) && Ordered(kept)
    && ByCommit(kept, 0, |kept|, Reader(true)) == ByCommit(log, lo, hi, Reader(true))
    && (kept == [] <==> lo == hi) && (lo == hi ==> hi == |log|) && (!full ==> hi == |log|)
    && (kept != [] ==> kept[|kept| - 1].seq_ == log[hi - 1].seq_)
    && |kept| <= WINDOW
  }

  lemma SliceOrdered(log: seq<Raising>, a: nat, b: nat)
    requires Ordered(log) && a <= b <= |log|
    ensures Ordered(log[a..b]) && (a < b ==> log[a..b][b - a - 1] == log[b - 1])
  {
  }

  lemma SliceEnds(log: seq<Raising>, lo: nat, hi: nat, kept: seq<Raising>)
    requires lo <= hi <= |log| && hi - lo <= WINDOW && kept == log[lo..hi]
    ensures (kept == [] <==> lo == hi) && |kept| <= WINDOW && (kept != [] ==> kept[|kept| - 1].seq_ == log[hi - 1].seq_)
  {
  }

  lemma SliceRows(log: seq<Raising>, lo: nat, hi: nat)
    requires Ordered(log) && lo <= hi <= |log| && Between(log, hi)
    ensures ByCommit(log[lo..hi], 0, hi - lo, Reader(true)) == ByCommit(log, lo, hi, Reader(true))
  {
    ByCommitSlice(log, lo, hi, 0, Reader(true));
  }

  lemma SliceCovers(log: seq<Raising>, lo: nat, hi: nat, kept: seq<Raising>, full: bool)
    requires Ordered(log) && lo <= hi <= |log| && Between(log, lo) && Between(log, hi) && hi - lo <= WINDOW
    requires (lo == hi ==> hi == |log|) && (!full ==> hi == |log|) && kept == log[lo..hi]
    ensures Covers(log, kept, full, lo, hi)
  {
    assert |kept| == hi - lo;
    SliceRows(log, lo, hi);
    SliceOrdered(log, lo, hi);
    SliceEnds(log, lo, hi, kept);
  }

  /** A full window of several commits is cut before the last. */
  lemma CutCommit(log: seq<Raising>, lo: nat, window: seq<Raising>) returns (hi: nat)
    requires Ordered(log) && Between(log, lo) && lo + WINDOW <= |log| && window == log[lo..lo + WINDOW]
    requires window[0].seq_ != window[WINDOW - 1].seq_
    ensures Covers(log, Without(window, window[WINDOW - 1].seq_), true, lo, hi)
  {
    SliceOrdered(log, lo, lo + WINDOW);
    var m := LastCommit(window);
    hi := lo + m;
    WithoutLast(window, m, window[WINDOW - 1].seq_);
    assert log[hi - 1] == window[m - 1] && log[hi] == window[m];
    assert window[..m] == log[lo..hi];
    SliceCovers(log, lo, hi, window[..m], true);
  }

  lemma WindowCovers(log: seq<Raising>, from: nat) returns (lo: nat, hi: nat)
    requires Ordered(log)
    ensures lo == FirstRow(log, 0, from)
    ensures Covers(log, Kept(Window(log, from)), |Window(log, from)| >= WINDOW, lo, hi)
  {
    lo := FirstRow(log, 0, from);
    FirstIsBetween(log, from);
    var window := Window(log, from);
    if lo + WINDOW >= |log| + 1 {
      hi := |log|;
      SliceCovers(log, lo, hi, window, false);
    } else if window[0].seq_ != window[WINDOW - 1].seq_ {
      hi := CutCommit(log, lo, window);
    } else {
      hi := SingleCommit(log, lo, window);
    }
  }

  /** A full window of one commit is all a page reads of it. */
  lemma SingleCommit(log: seq<Raising>, lo: nat, window: seq<Raising>) returns (hi: nat)
    requires Ordered(log) && Between(log, lo) && lo + WINDOW <= |log| && window == log[lo..lo + WINDOW]
    requires window[0].seq_ == window[WINDOW - 1].seq_
    ensures Covers(log, window, true, lo, hi) && hi > lo
  {
    hi := End(log, lo);
    forall k | lo <= k < lo + WINDOW
      ensures log[k].seq_ == log[lo].seq_
    {
      assert log[lo].seq_ <= log[k].seq_ <= log[lo + WINDOW - 1].seq_;
    }
    assert hi < lo + WINDOW ==> log[hi].seq_ == log[lo].seq_;
    EndWithin(log, lo, |log|);
    SliceOrdered(log, lo, lo + WINDOW);
    assert forall k :: 0 <= k < WINDOW ==> window[k] == log[lo + k];
    EndIs(window, 0, WINDOW);
    assert window[0..WINDOW] == window;
    assert Read(log[lo..hi], true) == window by {
      if hi > lo + WINDOW {
        assert log[lo..hi][..WINDOW] == window;
      }
    }
  }

  // ── What a page is ─────────────────────────────────────────────────────

  /** A page read after `after`: it delivers the next items of the stream, at most `limit`, and its cursor leaves
      exactly the rest. A complete page leaves nothing; an incomplete one moves its cursor forward. */
  ghost predicate Leaves(log: seq<Raising>, after: Position, limit: nat, p: Page, left: seq<Item>) {
    && After(Stream(log, true), after) == p.items + left && After(Stream(log, true), p.cursor) == left
    && |p.items| <= limit && (p.complete ==> left == []) && (!p.complete ==> Before(after, p.cursor))
    && (!p.complete && p.items == [] ==> FirstRow(log, 0, FromSeq(after)) < FirstRow(log, 0, FromSeq(p.cursor)))
    && (Within(log, after) ==> Within(log, p.cursor))
  }

  ghost predicate IsPage(log: seq<Raising>, after: Position, limit: nat, p: Page) {
    exists left :: Leaves(log, after, limit, p, left)
  }

  /** A position a page of this log can hand out. */
  predicate Within(log: seq<Raising>, p: Position) {
    p.At? ==> log != [] && p.seq_ <= log[|log| - 1].seq_
  }

  lemma NothingBefore(log: seq<Raising>, after: Position, lo: nat)
    requires Ordered(log) && lo == FirstRow(log, 0, FromSeq(after)) && Between(log, lo)
    ensures After(ByCommit(log, 0, lo, Reader(true)), after) == []
  {
    ByCommitInOrder(log, 0, lo, true);
    AfterNone(ByCommit(log, 0, lo, Reader(true)), after);
  }

  lemma EverythingFrom(log: seq<Raising>, after: Position, lo: nat, hi: nat)
    requires Ordered(log) && lo == FirstRow(log, 0, FromSeq(after)) && lo <= hi <= |log| && Between(log, hi)
    requires lo == hi ==> hi == |log|
    ensures After(ByCommit(log, hi, |log|, Reader(true)), after) == ByCommit(log, hi, |log|, Reader(true))
  {
    hide ByCommit, After;
    ByCommitInOrder(log, hi, |log|, true);
    if lo < hi < |log| {
      assert log[lo].seq_ <= log[hi - 1].seq_ < log[hi].seq_;
    }
    AfterAll(ByCommit(log, hi, |log|, Reader(true)), after);
  }

  lemma StreamInThree(log: seq<Raising>, lo: nat, hi: nat)
    requires Ordered(log) && lo <= hi <= |log| && Between(log, lo) && Between(log, hi)
    ensures Stream(log, true) == ByCommit(log, 0, lo, Reader(true))
      + (ByCommit(log, lo, hi, Reader(true)) + ByCommit(log, hi, |log|, Reader(true)))
  {
    ByCommitSplit(log, 0, lo, |log|, Reader(true));
    ByCommitSplit(log, lo, hi, |log|, Reader(true));
  }

  lemma AfterThree(a: seq<Item>, b: seq<Item>, c: seq<Item>, p: Position)
    requires After(a, p) == [] && After(c, p) == c
    ensures After(a + (b + c), p) == After(b, p) + c
  {
    AfterAppend(a, b + c, p);
    AfterAppend(b, c, p);
  }

  lemma FirstIsBetween(log: seq<Raising>, from: nat)
    requires Ordered(log)
    ensures Between(log, FirstRow(log, 0, from))
  {
    var lo := FirstRow(log, 0, from);
    assert 0 < lo < |log| ==> log[lo - 1].seq_ < from <= log[lo].seq_;
  }

  /** What the stream has left after a position, told by the rows from `lo`. */
  lemma RestFromRow(log: seq<Raising>, after: Position, lo: nat, hi: nat)
    requires Ordered(log) && lo == FirstRow(log, 0, FromSeq(after)) && lo <= hi <= |log| && Between(log, hi)
    requires lo == hi ==> hi == |log|
    ensures After(Stream(log, true), after)
         == After(ByCommit(log, lo, hi, Reader(true)), after) + ByCommit(log, hi, |log|, Reader(true))
  {
    FirstIsBetween(log, FromSeq(after));
    NothingBefore(log, after, lo);
    EverythingFrom(log, after, lo, hi);
    StreamInThree(log, lo, hi);
    AfterThree(ByCommit(log, 0, lo, Reader(true)), ByCommit(log, lo, hi, Reader(true)), ByCommit(log, hi, |log|, Reader(true)), after);
  }

  /** After everything raised at the last row before `hi`, the rows from `hi` are left. */
  lemma RestFromCommit(log: seq<Raising>, hi: nat)
    requires Ordered(log) && 0 < hi <= |log| && Between(log, hi)
    ensures After(Stream(log, true), At(log[hi - 1].seq_, None)) == ByCommit(log, hi, |log|, Reader(true))
  {
    var f, cursor := Reader(true), At(log[hi - 1].seq_, None);
    var low, high := ByCommit(log, 0, hi, f), ByCommit(log, hi, |log|, f);
    ByCommitSplit(log, 0, hi, |log|, f);
    ByCommitInOrder(log, 0, hi, true);
    ByCommitInOrder(log, hi, |log|, true);
    AfterNone(low, cursor);
    AfterAll(high, cursor);
    AfterAppend(low, high, cursor);
  }

  lemma RowAdvances(log: seq<Raising>, lo: nat, from: nat)
    requires Ordered(log) && lo < |log| && log[lo].seq_ < from
    ensures lo < FirstRow(log, 0, from)
  {
    var next := FirstRow(log, 0, from);
    assert next <= lo ==> log[next].seq_ <= log[lo].seq_;
  }

  /** Passing the commits up to row `hi` moves the cursor forward. */
  lemma CommitAdvances(log: seq<Raising>, after: Position, lo: nat, hi: nat)
    requires Ordered(log) && lo == FirstRow(log, 0, FromSeq(after)) && lo < hi <= |log|
    ensures var cursor := At(log[hi - 1].seq_, None);
      Before(after, cursor) && lo < FirstRow(log, 0, FromSeq(cursor)) && Within(log, cursor)
  {
    assert FromSeq(after) <= log[lo].seq_ <= log[hi - 1].seq_ <= log[|log| - 1].seq_;
    RowAdvances(log, lo, log[hi - 1].seq_ + 1);
  }

  /** The page of a read whose rows are used up. */
  lemma WholePage(log: seq<Raising>, after: Position, limit: nat, lo: nat, hi: nat, items: seq<Item>, full: bool)
    requires Ordered(log) && lo == FirstRow(log, 0, FromSeq(after)) && lo <= hi <= |log| && Between(log, hi)
    requires (lo == hi ==> hi == |log| && !full) && (!full ==> hi == |log|)
    requires items == After(ByCommit(log, lo, hi, Reader(true)), after) && |items| <= limit
    ensures IsPage(log, after, limit, Page(items, if lo == hi then after else At(log[hi - 1].seq_, None), !full))
  {
    var left := ByCommit(log, hi, |log|, Reader(true));
    RestFromRow(log, after, lo, hi);
    if lo < hi {
      RestFromCommit(log, hi);
      CommitAdvances(log, after, lo, hi);
      assert Leaves(log, after, limit, Page(items, At(log[hi - 1].seq_, None), !full), left);
    } else {
      assert ByCommit(log, lo, hi, Reader(true)) == [] && After([], after) == [] && left == [];
      assert Leaves(log, after, limit, Page(items, after, !full), left);
    }
  }

  /** In an ordered stream, what an item's own position leaves of what came after an earlier position. */
  lemma RestFromItem(s: seq<Item>, after: Position, i: nat, rest: seq<Item>)
    requires InOrder(s) && rest == After(s, after) && i < |rest|
    ensures After(s, At(rest[i].raisedSeq, Some(rest[i].ref))) == rest[i + 1..]
    ensures rest[i] in s && Before(after, At(rest[i].raisedSeq, Some(rest[i].ref)))
  {
    AfterInOrder(s, after);
    assert rest[i] in rest;
    AfterItem(rest, i);
    AfterAgain(s, after, At(rest[i].raisedSeq, Some(rest[i].ref)));
  }

  /** The page of a read that met its limit inside the rows. */
  lemma CutPage(log: seq<Raising>, after: Position, limit: nat, lo: nat, hi: nat, items: seq<Item>)
    requires Ordered(log) && lo == FirstRow(log, 0, FromSeq(after)) && lo < hi <= |log| && Between(log, hi)
    requires 0 < limit == |items| && items <= After(ByCommit(log, lo, hi, Reader(true)), after)
    ensures IsPage(log, after, limit, Page(items, At(items[limit - 1].raisedSeq, Some(items[limit - 1].ref)), false))
  {
    var rest := After(Stream(log, true), after);
    RestFromRow(log, after, lo, hi);
    assert items <= rest;
    CutRest(log, after, limit, items, rest);
  }

  lemma StreamInOrder(log: seq<Raising>)
    requires Ordered(log)
    ensures InOrder(Stream(log, true))
    ensures forall x :: x in Stream(log, true) ==> log != [] && x.raisedSeq <= log[|log| - 1].seq_
  {
    ByCommitInOrder(log, 0, |log|, true);
  }

  lemma CutRest(log: seq<Raising>, after: Position, limit: nat, items: seq<Item>, rest: seq<Item>)
    requires Ordered(log) && rest == After(Stream(log, true), after)
    requires 0 < limit == |items| && items <= rest
    ensures IsPage(log, after, limit, Page(items, At(items[limit - 1].raisedSeq, Some(items[limit - 1].ref)), false))
  {
    var p := Page(items, At(items[limit - 1].raisedSeq, Some(items[limit - 1].ref)), false);
    var last := items[limit - 1];
    assert rest[limit - 1] == last;
    StreamInOrder(log);
    RestFromItem(Stream(log, true), after, limit - 1, rest);
    assert rest == items + rest[limit..] && Within(log, p.cursor);
    assert Leaves(log, after, limit, p, rest[limit..]);
  }

  // ── The read itself ────────────────────────────────────────────────────

  /** Items of one sorted commit: skips a ref that repeats the one before it and what was delivered, and stops at the
      page limit. */
  method TakeCommit(commit: seq<Item>, after: Position, items: seq<Item>, limit: nat) returns (taken: seq<Item>, more: bool)
    requires |items| <= limit
    ensures |taken| <= limit && taken <= items + After(Dedup(commit), after)
    ensures if more then |taken| == limit < |items + After(Dedup(commit), after)| else taken == items + After(Dedup(commit), after)
  {
    taken, more := items, false;
    var position := 0;
    while position < |commit|
      invariant 0 <= position <= |commit| && |taken| <= limit
      invariant taken == items + TakenTo(commit, position, after)
    {
      var item := commit[position];
      if !(position > 0 && commit[position - 1].ref == item.ref) && Later(after, item) {
        if |taken| == limit {
          more := true;
          TakenGrows(commit, position + 1, after);
          TakenWhole(commit, after);
          return;
        }
        taken := taken + [item];
      }
      position := position + 1;
    }
    TakenWhole(commit, after);
  }

  lemma TakenWhole(commit: seq<Item>, after: Position)
    ensures TakenTo(commit, |commit|, after) == After(Dedup(commit), after)
  {
    TakenIs(commit, |commit|, after);
    assert commit[..|commit|] == commit;
  }

  /** Whether the item at `i` is a new one for a page read after a position. */
  predicate IsTaken(commit: seq<Item>, i: nat, after: Position)
    requires i < |commit|
  {
    (i > 0 ==> commit[i - 1].ref != commit[i].ref) && Later(after, commit[i])
  }

  function TakenTo(commit: seq<Item>, n: nat, after: Position): seq<Item>
    requires n <= |commit|
  {
    if n == 0 then [] else TakenTo(commit, n - 1, after) + if IsTaken(commit, n - 1, after) then [commit[n - 1]] else []
  }

  lemma {:induction false} TakenIs(commit: seq<Item>, n: nat, after: Position)
    requires n <= |commit|
    ensures TakenTo(commit, n, after) == After(Dedup(commit[..n]), after)
    decreases n
  {
    if n > 0 {
      TakenIs(commit, n - 1, after);
      TakeStep(commit, n - 1, after);
    }
  }

  lemma {:induction false} TakenGrows(commit: seq<Item>, n: nat, after: Position)
    requires n <= |commit|
    ensures TakenTo(commit, n, after) <= TakenTo(commit, |commit|, after)
    decreases |commit| - n
  {
    if n < |commit| {
      TakenGrows(commit, n + 1, after);
    }
  }

  lemma TakeStep(commit: seq<Item>, i: nat, after: Position)
    requires i < |commit|
    ensures After(Dedup(commit[..i + 1]), after)
         == After(Dedup(commit[..i]), after) + if IsTaken(commit, i, after) then [commit[i]] else []
  {
    if i == 0 || commit[i - 1].ref != commit[i].ref {
      DedupNext(commit, i, after);
    } else {
      assert commit[..i + 1][..i] == commit[..i];
    }
  }

  lemma DedupNext(s: seq<Item>, i: nat, after: Position)
    requires i < |s| && (i > 0 ==> s[i - 1].ref != s[i].ref)
    ensures Dedup(s[..i + 1]) == Dedup(s[..i]) + [s[i]]
    ensures After(Dedup(s[..i + 1]), after) == After(Dedup(s[..i]), after) + if Later(after, s[i]) then [s[i]] else []
  {
    assert s[..i + 1][..i] == s[..i];
    var d := Dedup(s[..i]) + [s[i]];
    assert d[..|d| - 1] == Dedup(s[..i]);
  }

  /** One more commit of the kept rows. */
  lemma NextCommit(rows: seq<Raising>, i: nat, n: nat, after: Position)
    requires Ordered(rows) && i < n <= |rows| && n == End(rows, i) && Between(rows, i) && n - i <= WINDOW
    ensures Between(rows, n)
    ensures After(ByCommit(rows, 0, n, Reader(true)), after)
         == After(ByCommit(rows, 0, i, Reader(true)), after) + After(CommitItems(rows[i..n]), after)
  {
    hide After;
    var f := Reader(true);
    EndWithin(rows, i, |rows|);
    ByCommitSplit(rows, 0, i, n, f);
    assert ByCommit(rows, i, n, f) == CommitItems(rows[i..n]) + [] == CommitItems(rows[i..n]);
    AfterAppend(ByCommit(rows, 0, i, f), ByCommit(rows, i, n, f), after);
  }

  lemma TakenOfRows(rows: seq<Raising>, n: nat, after: Position)
    requires Ordered(rows) && n <= |rows| && Between(rows, n)
    ensures After(ByCommit(rows, 0, n, Reader(true)), after) <= After(ByCommit(rows, 0, |rows|, Reader(true)), after)
  {
    ByCommitSplit(rows, 0, n, |rows|, Reader(true));
    AfterAppend(ByCommit(rows, 0, n, Reader(true)), ByCommit(rows, n, |rows|, Reader(true)), after);
  }

  /** `raisedItems` of every Activity of one commit. */
  method ReadCommit(rows: seq<Raising>, i: nat) returns (commit: seq<Item>, n: nat)
    requires i < |rows|
    ensures n == End(rows, i) && i < n <= |rows| && commit == AllRaised(rows[i..n])
  {
    commit, n := [], i;
    while n < |rows| && rows[n].seq_ == rows[i].seq_
      invariant i <= n <= |rows| && commit == AllRaised(rows[i..n])
      invariant forall k :: i <= k < n ==> rows[k].seq_ == rows[i].seq_
    {
      assert rows[i..n + 1][..n - i] == rows[i..n];
      commit, n := commit + Raised(rows[n]), n + 1;
    }
    EndIs(rows, i, n);
  }

  lemma NothingRead(rows: seq<Raising>, after: Position)
    ensures After(ByCommit(rows, 0, 0, Reader(true)), after) == []
  {
  }

  /** The commit loop: whole commits in order, until the rows or the page limit are used up. */
  method ReadRows(raised: seq<Raising>, after: Position, limit: nat) returns (items: seq<Item>, more: bool, scannedThrough: Option<nat>)
    requires Ordered(raised) && |raised| <= WINDOW
    ensures |items| <= limit && items <= After(ByCommit(raised, 0, |raised|, Reader(true)), after)
    ensures more ==> raised != [] && |items| == limit
    ensures !more ==> items == After(ByCommit(raised, 0, |raised|, Reader(true)), after)
    ensures !more ==> scannedThrough == if raised == [] then None else Some(raised[|raised| - 1].seq_)
  {
    hide After, ByCommit;
    NothingRead(raised, after);
    items, more, scannedThrough := [], false, None;
    var index := 0;
    while index < |raised|
      invariant 0 <= index <= |raised| && Between(raised, index) && |items| <= limit && !more
      invariant items == After(ByCommit(raised, 0, index, Reader(true)), after)
      invariant scannedThrough == if index == 0 then None else Some(raised[index - 1].seq_)
    {
      var seq_ := raised[index].seq_;
      var commit, next := ReadCommit(raised, index);
      NextCommit(raised, index, next, after);
      items, more := TakeCommit(SortByRef(commit), after, items, limit);
      if more {
        TakenOfRows(raised, next, after);
        return;
      }
      scannedThrough, index := Some(seq_), next;
    }
  }

  lemma CutWindow(log: seq<Raising>, after: Position, limit: nat, kept: seq<Raising>, items: seq<Item>, page: Page)
    requires Ordered(log) && kept == Kept(Window(log, FromSeq(after))) && kept != []
    requires 0 < limit == |items| && items <= After(ByCommit(kept, 0, |kept|, Reader(true)), after)
    requires page == Page(items, At(items[limit - 1].raisedSeq, Some(items[limit - 1].ref)), false)
    ensures IsPage(log, after, limit, page)
  {
    var lo, hi := WindowCovers(log, FromSeq(after));
    CutPage(log, after, limit, lo, hi, items);
  }

  /** What covered rows give a page, told by the log. */
  lemma CoveredRows(log: seq<Raising>, kept: seq<Raising>, full: bool, lo: nat, hi: nat, after: Position)
    requires Covers(log, kept, full, lo, hi)
    ensures After(ByCommit(kept, 0, |kept|, Reader(true)), after) == After(ByCommit(log, lo, hi, Reader(true)), after)
    ensures PastRows(kept, after) == if lo == hi then after else At(log[hi - 1].seq_, None)
  {
  }

  lemma WholeWindow(log: seq<Raising>, after: Position, limit: nat, window: seq<Raising>, kept: seq<Raising>, items: seq<Item>,
                    page: Page)
    requires Ordered(log) && window == Window(log, FromSeq(after)) && kept == Kept(window) && |items| <= limit
    requires items == After(ByCommit(kept, 0, |kept|, Reader(true)), after)
    requires page == Page(items, PastRows(kept, after), |window| < WINDOW)
    ensures IsPage(log, after, limit, page)
  {
    var full := |window| >= WINDOW;
    var lo, hi := WindowCovers(log, FromSeq(after));
    CoveredRows(log, kept, full, lo, hi, after);
    WholePage(log, after, limit, lo, hi, items, full);
  }

  /** The position after all of some rows. */
  function PastRows(rows: seq<Raising>, after: Position): Position {
    if rows == [] then after else At(rows[|rows| - 1].seq_, None)
  }

  /** The page of what was read: one cut short goes on after its last item, any other past its rows. */
  function PageOf(window: seq<Raising>, kept: seq<Raising>, items: seq<Item>, more: bool, after: Position): Page
    requires more ==> items != []
  {
    if more then
      var last := items[|items| - 1];
      Page(items, At(last.raisedSeq, Some(last.ref)), false)
    else Page(items, PastRows(kept, after), |window| < WINDOW)
  }

  lemma PageIs(log: seq<Raising>, after: Position, limit: nat, window: seq<Raising>, kept: seq<Raising>, items: seq<Item>, more: bool)
    requires Ordered(log) && window == Window(log, FromSeq(after)) && kept == Kept(window) && 0 < limit && |items| <= limit
    requires items <= After(ByCommit(kept, 0, |kept|, Reader(true)), after)
    requires more ==> kept != [] && |items| == limit
    requires !more ==> items == After(ByCommit(kept, 0, |kept|, Reader(true)), after)
    ensures IsPage(log, after, limit, PageOf(window, kept, items, more, after))
  {
    var page := PageOf(window, kept, items, more, after);
    if more {
      CutWindow(log, after, limit, kept, items, page);
    } else {
      WholeWindow(log, after, limit, window, kept, items, page);
    }
  }

  /** One page of attention. A limit outside 1 to 50 is refused; any other read is a page in the sense of `IsPage`. */
  method RecallAttention(log: seq<Raising>, after: Position, limit: int) returns (r: Option<Page>)
    requires Ordered(log)
    ensures r.Some? <==> 1 <= limit <= MAX_PAGE
    ensures r.Some? ==> IsPage(log, after, limit, r.value)
  {
    if limit < 1 || limit > MAX_PAGE {
      return None;
    }
    var window := Window(log, FromSeq(after));
    var kept := Kept(window);
    KeptOrdered(log, FromSeq(after));
    var items, more, scannedThrough := ReadRows(kept, after, limit);
    PageIs(log, after, limit, window, kept, items, more);
    if more {
      var last := items[|items| - 1];
      r := Some(Page(items, At(last.raisedSeq, Some(last.ref)), false));
    } else {
      r := Some(Page(items, if scannedThrough.Some? then At(scannedThrough.value, None) else after, |window| < WINDOW));
    }
    assert r == Some(PageOf(window, kept, items, more, after));
  }

  lemma KeptOrdered(log: seq<Raising>, from: nat)
    requires Ordered(log)
    ensures Ordered(Kept(Window(log, from))) && |Kept(Window(log, from))| <= WINDOW
  {
    var lo, hi := WindowCovers(log, from);
  }

  // ── Following the cursors ──────────────────────────────────────────────

  /** The log grows by whole commits. */
  ghost predicate Grows(log: seq<Raising>, log': seq<Raising>) {
    log <= log' && Ordered(log') && Between(log', |log|)
  }

  /** A host that follows the cursors: each page is read from the log as it was then, with any limit, after the page
      before it. */
  datatype Session = Opened | Read_(before: Session, log: seq<Raising>, limit: nat, page: Page)

  function Cursor(s: Session): Position {
    if s.Opened? then Start else s.page.cursor
  }

  function Delivered(s: Session): seq<Item> {
    if s.Opened? then [] else Delivered(s.before) + s.page.items
  }

  ghost predicate Followed(s: Session) {
    s.Read_? ==>
      && Followed(s.before) && Ordered(s.log) && IsPage(s.log, Cursor(s.before), s.limit, s.page)
      && (s.before.Read_? ==> Grows(s.before.log, s.log))
  }

  lemma StreamGrows(log: seq<Raising>, log': seq<Raising>)
    requires Ordered(log) && Grows(log, log')
    ensures Stream(log', true) == Stream(log, true) + ByCommit(log', |log|, |log'|, Reader(true))
  {
    var f, n := Reader(true), |log|;
    ByCommitSplit(log', 0, n, |log'|, f);
    ByCommitSlice(log', 0, n, 0, f);
    assert log'[0..n] == log;
  }

  /** New commits come after every position of the old log. */
  lemma AddedIsLater(log: seq<Raising>, log': seq<Raising>, p: Position)
    requires Ordered(log) && Grows(log, log') && Within(log, p)
    ensures var added := ByCommit(log', |log|, |log'|, Reader(true)); After(added, p) == added
  {
    var n := |log|;
    var added := ByCommit(log', n, |log'|, Reader(true));
    ByCommitInOrder(log', n, |log'|, true);
    assert p.At? && n < |log'| ==> log'[n - 1] == log[n - 1] && log'[n - 1].seq_ < log'[n].seq_;
    AfterAll(added, p);
  }

  lemma GrowthComesAfter(log: seq<Raising>, log': seq<Raising>, p: Position) returns (added: seq<Item>)
    requires Ordered(log) && Grows(log, log') && Within(log, p)
    ensures Stream(log', true) == Stream(log, true) + added
    ensures After(Stream(log', true), p) == After(Stream(log, true), p) + added
  {
    added := ByCommit(log', |log|, |log'|, Reader(true));
    StreamGrows(log, log');
    AddedIsLater(log, log', p);
    AfterAppend(Stream(log, true), added, p);
  }

  /** `earlier` was delivered before the position, and the stream has nothing else. */
  ghost predicate Accounted(log: seq<Raising>, earlier: seq<Item>, p: Position) {
    Stream(log, true) == earlier + After(Stream(log, true), p)
  }

  lemma PageDelivers(log: seq<Raising>, before: Position, limit: nat, p: Page, earlier: seq<Item>)
    requires Accounted(log, earlier, before) && IsPage(log, before, limit, p)
    ensures Accounted(log, earlier + p.items, p.cursor)
  {
    var left :| Leaves(log, before, limit, p, left);
    assert earlier + (p.items + left) == (earlier + p.items) + left;
  }

  lemma GrowthAccounted(log: seq<Raising>, log': seq<Raising>, p: Position, earlier: seq<Item>)
    requires Ordered(log) && Grows(log, log') && Within(log, p) && Accounted(log, earlier, p)
    ensures Accounted(log', earlier, p) && Within(log', p)
  {
    hide After, Stream;
    var added := GrowthComesAfter(log, log', p);
    AppendTwice(earlier, After(Stream(log, true), p), added);
    if p.At? {
      assert log[|log| - 1] == log'[|log| - 1] && log'[|log| - 1].seq_ <= log'[|log'| - 1].seq_;
    }
  }

  /** What was delivered and what is left make the whole stream, after every page of any session. */
  lemma {:induction false} SessionDelivers(s: Session)
    requires Followed(s) && s.Read_?
    ensures Accounted(s.log, Delivered(s), s.page.cursor) && Within(s.log, s.page.cursor)
  {
    if s.before.Opened? {
      AfterAll(Stream(s.log, true), Start);
    } else {
      SessionDelivers(s.before);
      GrowthAccounted(s.before.log, s.log, Cursor(s.before), Delivered(s.before));
    }
    PageDelivers(s.log, Cursor(s.before), s.limit, s.page, Delivered(s.before));
    var left :| Leaves(s.log, Cursor(s.before), s.limit, s.page, left);
  }

  /** Attention is delivered exactly once, in order: for any limits, and with commits appended between pages, what the
      pages delivered is a prefix of the stream, and after a complete page it is the stream of the log as that page
      saw it. */
  lemma DeliveredExactlyOnce(s: Session)
    requires Followed(s) && s.Read_?
    ensures Delivered(s) <= Stream(s.log, true) && InOrder(Delivered(s))
    ensures s.page.complete ==> Delivered(s) == Stream(s.log, true)
  {
    SessionDelivers(s);
    StreamInOrder(s.log);
    PrefixInOrder(Stream(s.log, true), Delivered(s));
    var left :| Leaves(s.log, Cursor(s.before), s.limit, s.page, left);
  }

  lemma PrefixInOrder(s: seq<Item>, t: seq<Item>)
    requires InOrder(s) && t <= s
    ensures InOrder(t)
  {
    assert forall i :: 0 <= i < |t| ==> t[i] == s[i];
  }

  /** An incomplete page makes progress: it leaves fewer items, or as many and fewer rows. So pages of an unchanged log
      come to a complete one. */
  lemma IncompletePageProgresses(log: seq<Raising>, after: Position, limit: nat, p: Page)
    requires IsPage(log, after, limit, p) && !p.complete
    ensures Before(after, p.cursor)
    ensures var (left, leaves) := (|After(Stream(log, true), after)|, |After(Stream(log, true), p.cursor)|);
      leaves < left || (leaves == left && FirstRow(log, 0, FromSeq(after)) < FirstRow(log, 0, FromSeq(p.cursor)) <= |log|)
  {
    var left :| Leaves(log, after, limit, p, left);
    assert |p.items + left| == |p.items| + |left|;
  }

  lemma FirstRowGrows(log: seq<Raising>, a: nat, b: nat)
    requires a <= b
    ensures FirstRow(log, 0, a) <= FirstRow(log, 0, b)
  {
    var lo, hi := FirstRow(log, 0, a), FirstRow(log, 0, b);
    assert forall k :: 0 <= k < lo ==> log[k].seq_ < b;
  }

  function Pages(s: Session): nat {
    if s.Opened? then 0 else Pages(s.before) + 1
  }

  /** A session over a log that does not change, none of whose pages was complete. */
  ghost predicate Unfinished(s: Session, log: seq<Raising>) {
    s.Read_? ==> s.log == log && !s.page.complete && Unfinished(s.before, log)
  }

  /** What a cursor still has before it: items, and rows that may raise nothing new. */
  function Remaining(log: seq<Raising>, p: Position): nat {
    |After(Stream(log, true), p)| + |log| - FirstRow(log, 0, FromSeq(p))
  }

  lemma RemainingShrinks(log: seq<Raising>, after: Position, limit: nat, p: Page)
    requires IsPage(log, after, limit, p) && !p.complete
    ensures Remaining(log, p.cursor) < Remaining(log, after)
  {
    IncompletePageProgresses(log, after, limit, p);
    FirstRowGrows(log, FromSeq(after), FromSeq(p.cursor));
  }

  /** A host that keeps following the cursor comes to a complete page: over an unchanged log there are at most as many
      incomplete pages as there are items and rows. */
  lemma {:induction false} FollowingEnds(s: Session, log: seq<Raising>)
    requires Followed(s) && Unfinished(s, log)
    ensures Pages(s) + Remaining(log, Cursor(s)) <= Remaining(log, Start)
  {
    if s.Read_? {
      FollowingEnds(s.before, log);
      RemainingShrinks(log, Cursor(s.before), s.limit, s.page);
    }
  }

  // ── Commits larger than the window ─────────────────────────────────────

  /** What the Activities of a commit past the first 200 raise repeats what the first 200 raise. */
  ghost predicate ExcessRepeats(commit: seq<Raising>) {
    |commit| > WINDOW ==>
      forall x :: x in AllRaised(commit[WINDOW..]) ==> Lookup(AllRaised(commit[..WINDOW]), x.ref).Some?
  }

  lemma AllRaisedNext(s: seq<Raising>, x: Raising, t: seq<Raising>)
    requires t == s + [x]
    ensures AllRaised(t) == AllRaised(s) + Raised(x)
  {
    assert t[..|s|] == s;
  }

  lemma NoneRaised()
    ensures AllRaised([]) == []
  {
  }

  lemma {:induction false} AllRaisedAppend(a: seq<Raising>, b: seq<Raising>)
    ensures AllRaised(a + b) == AllRaised(a) + AllRaised(b)
    decreases |b|
  {
    hide AllRaised, Raised;
    if b == [] {
      NoneRaised();
      assert a + b == a;
    } else {
      var s, x := b[..|b| - 1], b[|b| - 1];
      AllRaisedAppend(a, s);
      AllRaisedNext(a + s, x, a + b);
      AllRaisedNext(s, x, b);
      AppendTwice(AllRaised(a), AllRaised(s), Raised(x));
    }
  }

  lemma AppendTwice(a: seq<Item>, b: seq<Item>, c: seq<Item>)
    ensures (a + b) + c == a + (b + c)
  {
  }

  /** A commit is read whole exactly when its excess only repeats. */
  lemma CommitReadWhole(commit: seq<Raising>)
    ensures CommitItems(Read(commit, true)) == CommitItems(commit) <==> ExcessRepeats(commit)
  {
    if |commit| > WINDOW {
      var head, rest := commit[..WINDOW], commit[WINDOW..];
      var a, b := AllRaised(head), AllRaised(rest);
      assert commit == head + rest;
      AllRaisedAppend(head, rest);
      CommitItemsAre(head);
      CommitItemsAre(commit);
      if ExcessRepeats(commit) {
        forall y: Item
          ensures y in CommitItems(head) <==> y in CommitItems(commit)
        {
          LookupAppend(a, b, y.ref);
          LookupIsMember(b, y.ref);
        }
        StrictlySortedIsUnique(CommitItems(head), CommitItems(commit));
      } else {
        var x :| x in b && Lookup(a, x.ref).None?;
        LookupAppend(a, b, x.ref);
        LookupIsMember(b, x.ref);
        var first := Lookup(b, x.ref).value;
        assert first in CommitItems(commit) && first !in CommitItems(head);
      }
    }
  }

  /** Two streams that start with one commit each agree exactly when both parts do. */
  lemma PartsAgree(a: seq<Item>, b: seq<Item>, c: seq<Item>, d: seq<Item>, at: nat)
    requires forall x :: x in a || x in c ==> x.raisedSeq == at
    requires forall x :: x in b || x in d ==> x.raisedSeq > at
    ensures a + b == c + d <==> a == c && b == d
  {
    if a + b == c + d {
      NotLonger(a, b, c, d, at);
      NotLonger(c, d, a, b, at);
      assert a == (a + b)[..|a|] && b == (a + b)[|a|..] && c == (c + d)[..|c|] && d == (c + d)[|c|..];
    }
  }

  lemma NotLonger(a: seq<Item>, b: seq<Item>, c: seq<Item>, d: seq<Item>, at: nat)
    requires a + b == c + d
    requires forall x :: x in c ==> x.raisedSeq == at
    requires forall x :: x in b ==> x.raisedSeq > at
    ensures |c| <= |a|
  {
    var s := a + b;
    if |a| < |c| {
      assert s[|a|] == b[0] && s[|a|] == (c + d)[|a|] == c[|a|];
    }
  }

  /** The commit that row `k` starts, if it starts one, only repeats past its first 200 Activities. */
  ghost predicate RowRepeats(log: seq<Raising>, k: nat)
    requires k < |log|
  {
    Between(log, k) ==> ExcessRepeats(log[k..End(log, k)])
  }

  lemma RowsSplit(log: seq<Raising>, i: nat, n: nat)
    requires Ordered(log) && i < |log| && Between(log, i) && n == End(log, i)
    ensures (forall k :: i <= k < |log| ==> RowRepeats(log, k))
      <==> ExcessRepeats(log[i..n]) && forall k :: n <= k < |log| ==> RowRepeats(log, k)
  {
    assert RowRepeats(log, i) <==> ExcessRepeats(log[i..n]);
    forall k | i < k < n
      ensures RowRepeats(log, k)
    {
      assert log[k - 1].seq_ == log[k].seq_;
    }
  }

  /** The items of the commit at row `i` and of those after it, apart. */
  lemma CommitApart(log: seq<Raising>, i: nat, n: nat, capped: bool) returns (head: seq<Item>, rest: seq<Item>)
    requires Ordered(log) && i < |log| && Between(log, i) && n == End(log, i)
    ensures head == CommitItems(Read(log[i..n], capped)) && rest == ByCommit(log, n, |log|, Reader(capped))
    ensures ByCommit(log, i, |log|, Reader(capped)) == head + rest
    ensures forall x :: x in head ==> x.raisedSeq == log[i].seq_
    ensures forall x :: x in rest ==> x.raisedSeq > log[i].seq_
  {
    head, rest := Reader(capped)(log[i..n]), ByCommit(log, n, |log|, Reader(capped));
    EndWithin(log, i, |log|);
    ReaderIs(log[i..n], capped, log[i].seq_);
    ByCommitInOrder(log, n, |log|, capped);
  }

  lemma CommitAgrees(log: seq<Raising>, i: nat, n: nat)
    requires Ordered(log) && i < |log| && Between(log, i) && n == End(log, i)
    ensures ByCommit(log, i, |log|, Reader(true)) == ByCommit(log, i, |log|, Reader(false))
      <==> ExcessRepeats(log[i..n]) && ByCommit(log, n, |log|, Reader(true)) == ByCommit(log, n, |log|, Reader(false))
  {
    var a, b := CommitApart(log, i, n, true);
    var c, d := CommitApart(log, i, n, false);
    PartsAgree(a, b, c, d, log[i].seq_);
    CommitReadWhole(log[i..n]);
  }

  lemma {:induction false} RowsReadWhole(log: seq<Raising>, i: nat)
    requires Ordered(log) && i <= |log| && Between(log, i)
    ensures ByCommit(log, i, |log|, Reader(true)) == ByCommit(log, i, |log|, Reader(false))
      <==> forall k :: i <= k < |log| ==> RowRepeats(log, k)
    decreases |log| - i
  {
    if i < |log| {
      var n := End(log, i);
      EndWithin(log, i, |log|);
      RowsReadWhole(log, n);
      RowsSplit(log, i, n);
      CommitAgrees(log, i, n);
    }
  }

  /** The pages deliver every item that was raised exactly when no commit's excess over 200 Activities raises a ref of
      its own. */
  lemma EverythingDelivered(log: seq<Raising>)
    requires Ordered(log)
    ensures Stream(log, true) == Stream(log, false)
      <==> forall k :: 0 <= k < |log| ==> RowRepeats(log, k)
  {
    RowsReadWhole(log, 0);
  }

  /** One commit of `n` Activities, each raising an item of its own. */
  function Burst(n: nat): seq<Raising> {
    seq(n, i requires 0 <= i => Raising(1, [Item(seq(i, _ => 'x'), WatchFired, "", [], 1)]))
  }

  lemma {:induction false} BurstRaised(n: nat)
    ensures |AllRaised(Burst(n))| == n
    ensures forall i :: 0 <= i < n ==> |AllRaised(Burst(n))[i].ref| == i
  {
    if n > 0 {
      assert Burst(n)[..n - 1] == Burst(n - 1);
      BurstRaised(n - 1);
    }
  }

  lemma BurstExcess()
    ensures !ExcessRepeats(Burst(WINDOW + 1))
  {
    var commit := Burst(WINDOW + 1);
    var last := commit[WINDOW];
    var x := last.inputs[0];
    assert commit[WINDOW..] == [last] && commit[..WINDOW] == Burst(WINDOW);
    assert AllRaised([last]) == AllRaised([]) + Raised(last) by {
      assert [last][..0] == [];
    }
    assert Raised(last)[0] == x.(raisedSeq := 1);
    assert x in AllRaised(commit[WINDOW..]);
    BurstRaised(WINDOW);
    LookupIsMember(AllRaised(commit[..WINDOW]), x.ref);
  }

  /** The 201st item of one commit is never delivered. */
  lemma BurstLosesAnItem()
    ensures Ordered(Burst(WINDOW + 1)) && Stream(Burst(WINDOW + 1), true) != Stream(Burst(WINDOW + 1), false)
  {
    var log := Burst(WINDOW + 1);
    BurstExcess();
    EndIs(log, 0, |log|);
    assert log[0..|log|] == log && !RowRepeats(log, 0);
    EverythingDelivered(log);
  }
}
