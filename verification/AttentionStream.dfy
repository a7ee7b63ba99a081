/** The attention order: every item a commit raises, once per commit, by `(raised_seq, ref)`. */
module AttentionStream {
  import opened Common
  import opened Text

  const WINDOW := 200

  datatype Kind = WatchFired | CommitmentDue

  datatype Item = Item(ref: string, kind: Kind, summary: string, targets: seq<string>, raisedSeq: nat)

  /** One raising Activity and the inputs it carries, in the order they are read. */
  datatype Raising = Raising(seq_: nat, inputs: seq<Item>)

  /** The log of raising Activities, in the order the engine returns them. */
  ghost predicate Ordered(log: seq<Raising>) {
    forall i, j :: 0 <= i < j < |log| ==> log[i].seq_ <= log[j].seq_
  }

  /** A position in the attention order: the start, after one item, or after everything raised at `seq_`. */
  datatype Position = Start | At(seq_: nat, ref: Option<string>)

  /** `later`: whether an item comes after a position. */
  predicate Later(after: Position, x: Item) {
    after.Start? || x.raisedSeq > after.seq_
    || (x.raisedSeq == after.seq_ && after.ref.Some? && Less(after.ref.value, x.ref))
  }

  // ── One commit ─────────────────────────────────────────────────────────

  function Raised(a: Raising): (r: seq<Item>)
    ensures forall x :: x in r ==> x.raisedSeq == a.seq_
  {
    seq(|a.inputs|, i requires 0 <= i < |a.inputs| => a.inputs[i].(raisedSeq := a.seq_))
  }

  function AllRaised(commit: seq<Raising>): seq<Item> {
    if commit == [] then [] else AllRaised(commit[..|commit| - 1]) + Raised(commit[|commit| - 1])
  }

  /** A commit raises exactly the inputs of its Activities, each at the commit's sequence, in the order they are read. */
  lemma {:induction false} AllRaisedAre(commit: seq<Raising>, x: Item)
    ensures x in AllRaised(commit) <==>
      exists a, i :: a in commit && 0 <= i < |a.inputs| && x == a.inputs[i].(raisedSeq := a.seq_)
    decreases |commit|
  {
    if commit != [] {
      var rest, last := commit[..|commit| - 1], commit[|commit| - 1];
      AllRaisedAre(rest, x);
      assert commit == rest + [last];
      assert forall a :: a in commit <==> a in rest || a == last;
      assert x in Raised(last) <==> exists i :: 0 <= i < |last.inputs| && x == Raised(last)[i];
      assert forall i :: 0 <= i < |last.inputs| ==> Raised(last)[i] == last.inputs[i].(raisedSeq := last.seq_);
    }
  }

  function Insert(x: Item, s: seq<Item>): seq<Item> {
    if s == [] || !Less(s[0].ref, x.ref) then [x] + s else [s[0]] + Insert(x, s[1..])
  }

  /** The stable sort by ref. */
  function SortByRef(s: seq<Item>): seq<Item> {
    if s == [] then [] else Insert(s[0], SortByRef(s[1..]))
  }

  /** Drops an item that repeats the ref before it. */
  function Dedup(s: seq<Item>): seq<Item> {
    if |s| <= 1 then s
    else
      var d := Dedup(s[..|s| - 1]);
      if s[|s| - 2].ref == s[|s| - 1].ref then d else d + [s[|s| - 1]]
  }

  /** What a commit raises: each ref once, in order of ref. */
  function CommitItems(commit: seq<Raising>): seq<Item> {
    Dedup(SortByRef(AllRaised(commit)))
  }

  ghost predicate Sorted(s: seq<Item>) {
    forall i, j :: 0 <= i < j < |s| ==> !Less(s[j].ref, s[i].ref)
  }

  ghost predicate StrictlySorted(s: seq<Item>) {
    forall i, j :: 0 <= i < j < |s| ==> Less(s[i].ref, s[j].ref)
  }

  /** The first item with a ref. */
  function Lookup(s: seq<Item>, ref: string): Option<Item> {
    if s == [] then None else if s[0].ref == ref then Some(s[0]) else Lookup(s[1..], ref)
  }

  lemma {:induction false} LookupAppend(a: seq<Item>, b: seq<Item>, ref: string)
    ensures Lookup(a + b, ref) == if Lookup(a, ref).Some? then Lookup(a, ref) else Lookup(b, ref)
  {
    if a == [] {
      assert a + b == b;
    } else {
      assert (a + b)[1..] == a[1..] + b;
      LookupAppend(a[1..], b, ref);
    }
  }

  lemma {:induction false} LookupIsMember(s: seq<Item>, ref: string)
    ensures Lookup(s, ref).Some? <==> exists i :: 0 <= i < |s| && s[i].ref == ref
    ensures Lookup(s, ref).Some? ==> Lookup(s, ref).value in s && Lookup(s, ref).value.ref == ref
  {
    if s != [] && s[0].ref != ref {
      LookupIsMember(s[1..], ref);
      if i :| 0 <= i < |s| && s[i].ref == ref {
        assert s[1..][i - 1].ref == ref;
      }
    }
  }

  lemma {:induction false} InsertSorts(x: Item, s: seq<Item>)
    requires Sorted(s)
    ensures Sorted(Insert(x, s)) && forall y :: y in Insert(x, s) <==> y == x || y in s
  {
    if s != [] && Less(s[0].ref, x.ref) {
      InsertSorts(x, s[1..]);
      var rest := Insert(x, s[1..]);
      LessIsTotal(s[0].ref, x.ref);
      assert forall i :: 0 <= i < |rest| ==> rest[i] in rest && (rest[i] == x || rest[i] in s[1..]);
    } else {
      forall i | 0 < i < |s|
        ensures !Less(s[i].ref, x.ref)
      {
        LessIsTotal(s[0].ref, x.ref);
        if Less(s[i].ref, x.ref) && s[0].ref != x.ref {
          LessIsTransitive(s[i].ref, x.ref, s[0].ref);
        }
      }
    }
  }

  lemma {:induction false} SortSorts(s: seq<Item>)
    ensures Sorted(SortByRef(s))
  {
    if s != [] {
      SortSorts(s[1..]);
      InsertSorts(s[0], SortByRef(s[1..]));
    }
  }

  lemma {:induction false} InsertLookup(x: Item, s: seq<Item>, ref: string)
    ensures Lookup(Insert(x, s), ref) == Lookup([x] + s, ref)
  {
    if s != [] && Less(s[0].ref, x.ref) {
      InsertLookup(x, s[1..], ref);
      LessIsTotal(s[0].ref, x.ref);
    }
  }

  /** The sort is stable: the first item of each ref stays the first. */
  lemma {:induction false} SortLookup(s: seq<Item>, ref: string)
    ensures Lookup(SortByRef(s), ref) == Lookup(s, ref)
  {
    if s != [] {
      SortLookup(s[1..], ref);
      InsertLookup(s[0], SortByRef(s[1..]), ref);
    }
  }

  /** In a sorted list an item repeats an earlier ref only if it repeats the one before it. */
  lemma RepeatIsAdjacent(s: seq<Item>, ref: string)
    requires Sorted(s) && s != [] && !Less(ref, s[|s| - 1].ref)
    ensures Lookup(s, ref).Some? <==> s[|s| - 1].ref == ref
    ensures s[|s| - 1].ref != ref ==> Less(s[|s| - 1].ref, ref)
  {
    var n := |s| - 1;
    LookupIsMember(s, ref);
    LessIsTotal(s[n].ref, ref);
    if Lookup(s, ref).Some? {
      var j :| 0 <= j < |s| && s[j].ref == ref;
      assert j == n || !Less(s[n].ref, s[j].ref);
    }
  }

  lemma DedupAppend(init: seq<Item>, last: Item)
    requires init != []
    ensures Dedup(init + [last]) == if init[|init| - 1].ref == last.ref then Dedup(init) else Dedup(init) + [last]
  {
    assert (init + [last])[..|init|] == init;
  }

  lemma LookupOne(x: Item, ref: string)
    ensures Lookup([x], ref) == if x.ref == ref then Some(x) else None
  {
  }

  lemma DedupMembers(init: seq<Item>, last: Item, y: Item)
    requires y in Dedup(init) <==> Lookup(init, y.ref) == Some(y)
    requires init != [] && (Lookup(init, last.ref).Some? <==> init[|init| - 1].ref == last.ref)
    ensures y in Dedup(init + [last]) <==> Lookup(init + [last], y.ref) == Some(y)
  {
    DedupAppend(init, last);
    LookupAppend(init, [last], y.ref);
    LookupOne(last, y.ref);
  }

  lemma DedupStrict(d: seq<Item>, last: Item)
    requires StrictlySorted(d) && d != []
    ensures Less(d[|d| - 1].ref, last.ref) ==> StrictlySorted(d + [last])
  {
    if Less(d[|d| - 1].ref, last.ref) {
      forall i | 0 <= i < |d| - 1
        ensures Less(d[i].ref, last.ref)
      {
        LessIsTransitive(d[i].ref, d[|d| - 1].ref, last.ref);
      }
    }
  }

  lemma SortedInit(s: seq<Item>, n: nat)
    requires Sorted(s) && n == |s| - 1
    ensures Sorted(s[..n]) && (n > 0 ==> !Less(s[n].ref, s[n - 1].ref))
  {
  }

  lemma {:induction false} DedupLast(s: seq<Item>)
    requires s != []
    ensures Dedup(s) != [] && Dedup(s)[|Dedup(s)| - 1].ref == s[|s| - 1].ref
  {
    if |s| > 1 {
      DedupLast(s[..|s| - 1]);
    }
  }

  lemma {:induction false} DedupSorts(s: seq<Item>)
    requires Sorted(s)
    ensures StrictlySorted(Dedup(s))
  {
    if |s| > 1 {
      var n := |s| - 1;
      SortedInit(s, n);
      DedupSorts(s[..n]);
      DedupLast(s[..n]);
      RepeatIsAdjacent(s[..n], s[n].ref);
      DedupStrict(Dedup(s[..n]), s[n]);
    }
  }

  lemma {:induction false} DedupFirst(s: seq<Item>, y: Item)
    requires Sorted(s)
    ensures y in Dedup(s) <==> Lookup(s, y.ref) == Some(y)
  {
    if |s| == 1 {
      assert s == [s[0]];
    } else if |s| > 1 {
      var n := |s| - 1;
      SortedInit(s, n);
      DedupFirst(s[..n], y);
      RepeatIsAdjacent(s[..n], s[n].ref);
      DedupMembers(s[..n], s[n], y);
      assert s == s[..n] + [s[n]];
    }
  }

  /** What a commit raises, without its order of computation: the first item of each ref, in order of ref. */
  lemma CommitItemsAre(commit: seq<Raising>)
    ensures StrictlySorted(CommitItems(commit))
    ensures forall y :: y in CommitItems(commit) <==> Lookup(AllRaised(commit), y.ref) == Some(y)
  {
    var s := AllRaised(commit);
    SortSorts(s);
    DedupSorts(SortByRef(s));
    forall y: Item
      ensures y in CommitItems(commit) <==> Lookup(s, y.ref) == Some(y)
    {
      DedupFirst(SortByRef(s), y);
      SortLookup(s, y.ref);
    }
  }

  lemma {:induction false} StrictlySortedIsUnique(a: seq<Item>, b: seq<Item>)
    requires StrictlySorted(a) && StrictlySorted(b) && forall y :: y in a <==> y in b
    ensures a == b
    decreases |a|
  {
    assert b != [] ==> b[0] in a;
    if a != [] {
      assert a[0] in b && b[0] in a;
      LessIsTotal(a[0].ref, b[0].ref);
      TailMembers(a);
      TailMembers(b);
      StrictlySortedIsUnique(a[1..], b[1..]);
    }
  }

  lemma TailMembers(s: seq<Item>)
    requires s != [] && StrictlySorted(s)
    ensures StrictlySorted(s[1..]) && forall y :: y in s[1..] <==> y in s && y != s[0]
    ensures forall y :: y in s ==> y == s[0] || Less(s[0].ref, y.ref)
  {
    assert s == [s[0]] + s[1..];
    LessIsTotal(s[0].ref, s[0].ref);
  }

  // ── The whole log ──────────────────────────────────────────────────────

  /** Where the commit of row `i` ends. */
  function End(log: seq<Raising>, i: nat): (n: nat)
    requires i < |log|
    ensures i < n <= |log| && forall k :: i <= k < n ==> log[k].seq_ == log[i].seq_
    ensures n < |log| ==> log[n].seq_ != log[i].seq_
    decreases |log| - i
  {
    if i + 1 == |log| || log[i + 1].seq_ != log[i].seq_ then i + 1 else End(log, i + 1)
  }

  /** The part of a commit one page reads: with `capped`, at most one window of Activities. */
  function Read(commit: seq<Raising>, capped: bool): seq<Raising> {
    if capped && |commit| > WINDOW then commit[..WINDOW] else commit
  }

  /** What one page makes of a commit. */
  function Reader(capped: bool): seq<Raising> -> seq<Item> {
    (commit: seq<Raising>) => CommitItems(Read(commit, capped))
  }

  /** The commits of the rows from `i` to `hi`, one after the other. */
  function ByCommit(log: seq<Raising>, i: nat, hi: nat, f: seq<Raising> -> seq<Item>): seq<Item>
    requires hi <= |log|
    decreases |log| - i
  {
    if i >= hi then [] else f(log[i..End(log, i)]) + ByCommit(log, End(log, i), hi, f)
  }

  /** Every item of the log in the attention order. `Stream(log, true)` reads at most 200 Activities of a commit. */
  function Stream(log: seq<Raising>, capped: bool): seq<Item> {
    ByCommit(log, 0, |log|, Reader(capped))
  }

  /** Row `m` of the log starts a commit, or is past its end. */
  predicate Between(log: seq<Raising>, m: nat) {
    m == 0 || m >= |log| || log[m - 1].seq_ < log[m].seq_
  }

  ghost predicate InOrder(s: seq<Item>) {
    forall i, j :: 0 <= i < j < |s| ==>
      s[i].raisedSeq < s[j].raisedSeq || (s[i].raisedSeq == s[j].raisedSeq && Less(s[i].ref, s[j].ref))
  }

  lemma {:induction false} EndIs(log: seq<Raising>, i: nat, n: nat)
    requires i < n <= |log| && forall k :: i <= k < n ==> log[k].seq_ == log[i].seq_
    requires n < |log| ==> log[n].seq_ != log[i].seq_
    ensures End(log, i) == n
  {
    var end := End(log, i);
    assert end < n ==> log[end].seq_ == log[i].seq_;
  }

  lemma EndWithin(log: seq<Raising>, i: nat, m: nat)
    requires i < m <= |log| && Between(log, m) && Ordered(log)
    ensures End(log, i) <= m && Between(log, End(log, i))
  {
    var n := End(log, i);
    assert m < n ==> log[m - 1].seq_ == log[m].seq_;
    if n < |log| {
      assert log[n - 1].seq_ <= log[n].seq_;
    }
  }

  /** Rows cut between two commits give their items in two parts. */
  lemma {:induction false} ByCommitSplit(log: seq<Raising>, i: nat, m: nat, hi: nat, f: seq<Raising> -> seq<Item>)
    requires Ordered(log) && i <= m <= hi <= |log| && Between(log, m)
    ensures ByCommit(log, i, hi, f) == ByCommit(log, i, m, f) + ByCommit(log, m, hi, f)
    decreases m - i
  {
    if i < m {
      EndWithin(log, i, m);
      ByCommitSplit(log, End(log, i), m, hi, f);
    }
  }

  lemma SliceOfSlice(log: seq<Raising>, a: nat, b: nat, i: nat, j: nat)
    requires a <= b <= |log| && i <= j <= b - a
    ensures log[a..b][i..j] == log[a + i..a + j]
  {
    assert forall k :: 0 <= k < j - i ==> log[a..b][i..j][k] == log[a + i..a + j][k];
  }

  lemma EndOfSlice(log: seq<Raising>, a: nat, b: nat, i: nat)
    requires Ordered(log) && a <= b <= |log| && Between(log, b) && i < b - a
    ensures i < End(log, a + i) - a <= b - a && End(log[a..b], i) == End(log, a + i) - a
  {
    var n := End(log, a + i);
    EndWithin(log, a + i, b);
    assert forall k :: 0 <= k < b - a ==> log[a..b][k] == log[a + k];
    EndIs(log[a..b], i, n - a);
  }

  /** The rows of a slice between two commits raise what they raise in the log. */
  lemma ByCommitSlice(log: seq<Raising>, a: nat, b: nat, i: nat, f: seq<Raising> -> seq<Item>)
    requires Ordered(log) && a <= b <= |log| && Between(log, b) && i <= b - a
    ensures ByCommit(log[a..b], i, b - a, f) == ByCommit(log, a + i, b, f)
  {
    forall k | i <= k < b - a
      ensures SameCommit(log, a, log[a..b], k)
    {
      EndOfSlice(log, a, b, k);
      SliceOfSlice(log, a, b, k, End(log[a..b], k));
    }
    ByCommitSame(log, a, log[a..b], i, f);
  }

  /** Row `k` of some rows starts what the row `a` rows further starts in the log. */
  ghost predicate SameCommit(log: seq<Raising>, a: nat, rows: seq<Raising>, k: nat) {
    && k < |rows| && a + k < |log| && End(log, a + k) == a + End(rows, k)
    && log[a + k..End(log, a + k)] == rows[k..End(rows, k)]
  }

  lemma {:induction false} ByCommitSame(log: seq<Raising>, a: nat, rows: seq<Raising>, i: nat, f: seq<Raising> -> seq<Item>)
    requires i <= |rows| && a + |rows| <= |log| && forall k :: i <= k < |rows| ==> SameCommit(log, a, rows, k)
    ensures ByCommit(rows, i, |rows|, f) == ByCommit(log, a + i, a + |rows|, f)
    decreases |rows| - i
  {
    if i < |rows| {
      assert SameCommit(log, a, rows, i);
      ByCommitSame(log, a, rows, End(rows, i), f);
    }
  }

  lemma {:induction false} AllRaisedSeq(commit: seq<Raising>, at: nat)
    requires forall i :: 0 <= i < |commit| ==> commit[i].seq_ == at
    ensures forall x :: x in AllRaised(commit) ==> x.raisedSeq == at
  {
    if commit != [] {
      AllRaisedSeq(commit[..|commit| - 1], at);
    }
  }

  lemma CommitItemsSeq(commit: seq<Raising>, at: nat)
    requires forall i :: 0 <= i < |commit| ==> commit[i].seq_ == at
    ensures forall x :: x in CommitItems(commit) ==> x.raisedSeq == at
  {
    AllRaisedSeq(commit, at);
    CommitItemsAre(commit);
    forall x | x in CommitItems(commit)
      ensures x.raisedSeq == at
    {
      LookupIsMember(AllRaised(commit), x.ref);
    }
  }

  lemma ReaderIs(commit: seq<Raising>, capped: bool, at: nat)
    requires forall i :: 0 <= i < |commit| ==> commit[i].seq_ == at
    ensures StrictlySorted(Reader(capped)(commit)) && forall x :: x in Reader(capped)(commit) ==> x.raisedSeq == at
  {
    CommitItemsAre(Read(commit, capped));
    CommitItemsSeq(Read(commit, capped), at);
  }

  /** The items of any rows are in order, without repeats, within the commits of those rows. */
  lemma {:induction false} ByCommitInOrder(log: seq<Raising>, i: nat, hi: nat, capped: bool)
    requires Ordered(log) && hi <= |log| && Between(log, hi)
    ensures var s := ByCommit(log, i, hi, Reader(capped));
      InOrder(s) && forall x :: x in s ==> i < hi && log[i].seq_ <= x.raisedSeq <= log[hi - 1].seq_
    decreases |log| - i
  {
    if i < hi {
      var n := End(log, i);
      EndWithin(log, i, hi);
      ReaderIs(log[i..n], capped, log[i].seq_);
      ByCommitInOrder(log, n, hi, capped);
      OrderAppend(Reader(capped)(log[i..n]), ByCommit(log, n, hi, Reader(capped)), log[i].seq_);
    }
  }

  lemma OrderAppend(head: seq<Item>, rest: seq<Item>, at: nat)
    requires StrictlySorted(head) && InOrder(rest)
    requires forall x :: x in head ==> x.raisedSeq == at
    requires forall x :: x in rest ==> at < x.raisedSeq
    ensures InOrder(head + rest)
  {
    var s := head + rest;
    forall i, j | 0 <= i < j < |s|
      ensures s[i].raisedSeq < s[j].raisedSeq || (s[i].raisedSeq == s[j].raisedSeq && Less(s[i].ref, s[j].ref))
    {
      if i < |head| {
        assert s[i] in head;
        if j >= |head| {
          assert s[j] in rest;
        } else {
          assert s[j] in head;
        }
      }
    }
  }

  // ── What comes after a position ────────────────────────────────────────

  function After(s: seq<Item>, p: Position): seq<Item> {
    if s == [] then []
    else After(s[..|s| - 1], p) + if Later(p, s[|s| - 1]) then [s[|s| - 1]] else []
  }

  lemma {:induction false} AfterAppend(a: seq<Item>, b: seq<Item>, p: Position)
    ensures After(a + b, p) == After(a, p) + After(b, p)
    decreases |b|
  {
    if b == [] {
      assert a + b == a;
    } else {
      var n := |b| - 1;
      assert (a + b)[..|a + b| - 1] == a + b[..n];
      AfterAppend(a, b[..n], p);
    }
  }

  lemma {:induction false} AfterAll(s: seq<Item>, p: Position)
    requires forall x :: x in s ==> Later(p, x)
    ensures After(s, p) == s
  {
    if s != [] {
      AfterAll(s[..|s| - 1], p);
      assert s == s[..|s| - 1] + [s[|s| - 1]];
    }
  }

  lemma {:induction false} AfterNone(s: seq<Item>, p: Position)
    requires forall x :: x in s ==> !Later(p, x)
    ensures After(s, p) == []
  {
    if s != [] {
      AfterNone(s[..|s| - 1], p);
    }
  }

  ghost predicate Before(p: Position, q: Position) {
    q.At? && (p.Start? || p.seq_ < q.seq_
              || (p.seq_ == q.seq_ && p.ref.Some? && (q.ref.None? || Less(p.ref.value, q.ref.value))))
  }

  lemma LaterOfBefore(p: Position, q: Position, x: Item)
    requires p == q || Before(p, q)
    requires Later(q, x)
    ensures Later(p, x)
  {
    if p != q && p.At? && p.seq_ == q.seq_ && x.raisedSeq == p.seq_ {
      LessIsTransitive(p.ref.value, q.ref.value, x.ref);
    }
  }

  /** Going on from a later position is going on within what was left. */
  lemma {:induction false} AfterAgain(s: seq<Item>, p: Position, q: Position)
    requires p == q || Before(p, q)
    ensures After(After(s, p), q) == After(s, q)
  {
    if s != [] {
      var n := |s| - 1;
      AfterAgain(s[..n], p, q);
      var last := if Later(p, s[n]) then [s[n]] else [];
      AfterAppend(After(s[..n], p), last, q);
      if Later(q, s[n]) {
        LaterOfBefore(p, q, s[n]);
        assert last[..0] == [];
      }
    }
  }

  lemma {:induction false} AfterInOrder(s: seq<Item>, p: Position)
    requires InOrder(s)
    ensures InOrder(After(s, p)) && forall x :: x in After(s, p) ==> x in s && Later(p, x)
  {
    if s != [] {
      var init := s[..|s| - 1];
      AfterInOrder(init, p);
      assert forall x :: x in init ==> x in s;
      var kept := After(init, p);
      forall i | 0 <= i < |kept|
        ensures kept[i].raisedSeq < s[|s| - 1].raisedSeq
          || (kept[i].raisedSeq == s[|s| - 1].raisedSeq && Less(kept[i].ref, s[|s| - 1].ref))
      {
        assert kept[i] in init;
      }
    }
  }

  lemma OrderedAround(s: seq<Item>, i: nat, j: nat)
    requires InOrder(s) && i < |s| && j < |s|
    ensures Later(At(s[i].raisedSeq, Some(s[i].ref)), s[j]) <==> j > i
  {
    LessIsTotal(s[j].ref, s[i].ref);
  }

  lemma {:induction false} AfterFrom(s: seq<Item>, p: Position, i: nat)
    requires i <= |s| && forall j :: 0 <= j < |s| ==> (Later(p, s[j]) <==> j >= i)
    ensures After(s, p) == s[i..]
    decreases |s|
  {
    if s != [] {
      var n := |s| - 1;
      if i <= n {
        AfterFrom(s[..n], p, i);
        assert s[i..] == s[..n][i..] + [s[n]];
      } else {
        AfterFrom(s[..n], p, n);
      }
    }
  }

  /** In an ordered stream, what comes after an item is what follows it. */
  lemma AfterItem(s: seq<Item>, i: nat)
    requires InOrder(s) && i < |s|
    ensures After(s, At(s[i].raisedSeq, Some(s[i].ref))) == s[i + 1..]
  {
    var p := At(s[i].raisedSeq, Some(s[i].ref));
    forall j | 0 <= j < |s|
      ensures Later(p, s[j]) <==> j >= i + 1
    {
      OrderedAround(s, i, j);
    }
    AfterFrom(s, p, i + 1);
  }
}
