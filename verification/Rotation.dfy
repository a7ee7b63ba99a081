/** The rotating snapshot: each maintenance cycle is offered the next 20 candidates of a group. */
module Rotation {

  const OFFER := 20

  /** Candidate ids in SQL order. Row ids start at 1. */
  ghost predicate Candidates(c: seq<nat>) {
    (forall i :: 0 <= i < |c| ==> c[i] > 0) && forall i, j :: 0 <= i < j < |c| ==> c[i] < c[j]
  }

  /** How many candidates are at or before an id. */
  function CountTo(c: seq<nat>, after: nat): (n: nat)
    requires Candidates(c)
    ensures n <= |c| && (forall i :: 0 <= i < n ==> c[i] <= after) && (forall i :: n <= i < |c| ==> c[i] > after)
  {
    if c == [] || c[0] > after then 0 else 1 + CountTo(c[1..], after)
  }

  /** The first 20 candidates after an id. */
  function Select(c: seq<nat>, after: nat): (ids: seq<nat>)
    requires Candidates(c)
    ensures |ids| <= OFFER && forall x :: x in ids ==> x in c && x > after
  {
    var from := CountTo(c, after);
    c[from..if from + OFFER < |c| then from + OFFER else |c|]
  }

  /** What a snapshot offers, starting again once the cursor has passed every candidate. */
  function Offered(c: seq<nat>, after: nat): seq<nat>
    requires Candidates(c)
  {
    var ids := Select(c, after);
    if ids == [] then Select(c, 0) else ids
  }

  /** The cursor after a snapshot: the last id offered, if any was. */
  function Advanced(c: seq<nat>, after: nat): nat
    requires Candidates(c)
  {
    var ids := Offered(c, after);
    if ids == [] then after else ids[|ids| - 1]
  }

  /** The cursor after `k` snapshots of unchanged candidates. */
  function CursorAfter(c: seq<nat>, after: nat, k: nat): nat
    requires Candidates(c)
    decreases k
  {
    if k == 0 then after else CursorAfter(c, Advanced(c, after), k - 1)
  }

  function Ceiling(n: nat): nat {
    (n + OFFER - 1) / OFFER
  }

  /** Positions of the rotation over `n` candidates: where a snapshot starts and stops, when `at` were passed. */
  function From(n: nat, at: nat): nat {
    if at == n then 0 else at
  }

  function To(n: nat, at: nat): nat {
    if From(n, at) + OFFER < n then From(n, at) + OFFER else n
  }

  /** How many snapshots come before the one that offers candidate `i`. */
  function Wait(n: nat, at: nat, i: nat): nat
    requires i < n && at <= n
  {
    if at <= i then (i - at) / OFFER else Ceiling(n - at) + i / OFFER
  }

  lemma WaitShrinks(n: nat, at: nat, i: nat)
    requires i < n && at <= n
    ensures Wait(n, at, i) == if From(n, at) <= i < To(n, at) then 0 else Wait(n, To(n, at), i) + 1
  {
  }

  lemma {:induction false} CountIs(c: seq<nat>, after: nat, n: nat)
    requires Candidates(c) && n <= |c| && (n > 0 ==> c[n - 1] <= after) && (n < |c| ==> c[n] > after)
    ensures CountTo(c, after) == n
  {
    if n > 0 {
      assert c[0] <= c[n - 1];
      CountIs(c[1..], after, n - 1);
    }
  }

  /** One snapshot offers the candidates at its positions and leaves its cursor at the last of them. */
  lemma SnapshotMoves(c: seq<nat>, after: nat)
    requires Candidates(c) && c != []
    ensures var at := CountTo(c, after);
      Offered(c, after) == c[From(|c|, at)..To(|c|, at)] && CountTo(c, Advanced(c, after)) == To(|c|, at)
  {
    var at := CountTo(c, after);
    var from, to := From(|c|, at), To(|c|, at);
    CountIs(c, 0, 0);
    assert Offered(c, after) == c[from..to];
    CountIs(c, c[to - 1], to);
  }

  lemma InOffer(c: seq<nat>, after: nat, i: nat)
    requires Candidates(c) && i < |c| && From(|c|, CountTo(c, after)) <= i < To(|c|, CountTo(c, after))
    ensures c[i] in Offered(c, after)
  {
    hide CountTo, Offered, Advanced;
    var from, to := From(|c|, CountTo(c, after)), To(|c|, CountTo(c, after));
    SnapshotMoves(c, after);
    assert c[from..to][i - from] == c[i];
  }

  /** The position after `k` snapshots. */
  function PositionAfter(n: nat, at: nat, k: nat): (r: nat)
    requires at <= n
    ensures r <= n
    decreases k
  {
    if k == 0 then at else PositionAfter(n, To(n, at), k - 1)
  }

  lemma {:induction false} ReachedAfterWait(n: nat, at: nat, i: nat, k: nat)
    requires i < n && at <= n && k == Wait(n, at, i)
    ensures From(n, PositionAfter(n, at, k)) <= i < To(n, PositionAfter(n, at, k))
    decreases k
  {
    WaitShrinks(n, at, i);
    if k > 0 {
      ReachedAfterWait(n, To(n, at), i, k - 1);
    }
  }

  lemma {:induction false} CursorCounts(c: seq<nat>, after: nat, k: nat)
    requires Candidates(c) && c != []
    ensures CountTo(c, CursorAfter(c, after, k)) == PositionAfter(|c|, CountTo(c, after), k)
    decreases k
  {
    hide CountTo, Advanced;
    if k > 0 {
      var next := Advanced(c, after);
      assert CountTo(c, next) == To(|c|, CountTo(c, after)) by {
        SnapshotMoves(c, after);
      }
      CursorCounts(c, next, k - 1);
    }
  }

  /** Each candidate is offered after exactly its wait. */
  lemma OfferedAfterWait(c: seq<nat>, after: nat, i: nat, k: nat)
    requires Candidates(c) && i < |c| && k == Wait(|c|, CountTo(c, after), i)
    ensures c[i] in Offered(c, CursorAfter(c, after, k))
  {
    ReachedAfterWait(|c|, CountTo(c, after), i, k);
    CursorCounts(c, after, k);
    InOffer(c, CursorAfter(c, after, k), i);
  }

  lemma CeilingOfParts(a: nat, b: nat)
    ensures Ceiling(a) + Ceiling(b) <= Ceiling(a + b) + 1
  {
  }

  /** Rotation is fair: from any cursor, each of `n` unchanged candidates is offered within the next n/20, rounded up,
      plus one snapshots; and each snapshot offers candidates only, at most 20. */
  lemma RotationIsFair(c: seq<nat>, after: nat, x: nat)
    requires Candidates(c) && x in c
    ensures exists k :: 0 <= k < Ceiling(|c|) + 1 && x in Offered(c, CursorAfter(c, after, k))
    ensures |Offered(c, after)| <= OFFER && forall y :: y in Offered(c, after) ==> y in c
  {
    var i :| 0 <= i < |c| && c[i] == x;
    var from := CountTo(c, after);
    var k := Wait(|c|, from, i);
    OfferedAfterWait(c, after, i, k);
    CeilingOfParts(|c| - from, from);
    assert from > i ==> i / OFFER < Ceiling(from);
    assert k < Ceiling(|c|) + 1;
  }
}
