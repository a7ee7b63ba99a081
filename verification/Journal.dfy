/** Paging through the change journal, 50 keys at a time in key order. */
module Journal {
  import opened Common
  import opened Closure

  const PAGE := 50

  predicate After(cursor: Option<nat>, k: nat) {
    cursor == None || k > cursor.value
  }

  /** `kv.list` with a prefix, `limit: 50` and `startAfter`. */
  function ListPage(keys: set<nat>, cursor: Option<nat>): seq<nat> {
    var rest := SortedIds(set k | k in keys && After(cursor, k));
    if |rest| <= PAGE then rest else rest[..PAGE]
  }

  /** A page ascends past its cursor and leaves no gap; a page with fewer than 50 keys is the last. */
  lemma PageLeavesNoGap(keys: set<nat>, cursor: Option<nat>, page: seq<nat>)
    requires page == ListPage(keys, cursor)
    ensures Increasing(page)
    ensures forall k :: k in page ==> k in keys && After(cursor, k)
    ensures |page| < PAGE ==> forall k :: k in keys && After(cursor, k) ==> k in page
    ensures |page| >= PAGE ==> forall k :: k in keys && After(cursor, k) && k <= page[|page| - 1] ==> k in page
  {
    var left := set k | k in keys && After(cursor, k);
    TakeLeavesNoGap(SortedIds(left), page);
  }

  lemma TakeLeavesNoGap(all: seq<nat>, page: seq<nat>)
    requires Increasing(all) && page == if |all| <= PAGE then all else all[..PAGE]
    ensures forall k :: k in page ==> k in all
    ensures |page| < PAGE ==> page == all
    ensures |page| >= PAGE ==> forall k :: k in all && k <= page[|page| - 1] ==> k in page
  {
    if |all| > PAGE {
      forall k | k in all && k <= page[PAGE - 1]
        ensures k in page
      {
        var i :| 0 <= i < |all| && all[i] == k;
        assert page[i] == k;
      }
    }
  }

  /** Ascending listings of the same keys are the same listing. */
  lemma {:induction false} ListingIsUnique(a: seq<nat>, b: seq<nat>)
    requires Increasing(a) && Increasing(b) && forall k :: k in a <==> k in b
    ensures a == b
    decreases |a|
  {
    assert b != [] ==> b[0] in a;
    if a != [] {
      assert a[0] in b && b[0] in a;
      TailElements(a);
      TailElements(b);
      ListingIsUnique(a[1..], b[1..]);
    }
  }

  lemma TailElements(s: seq<nat>)
    requires s != [] && Increasing(s)
    ensures Increasing(s[1..]) && forall k :: k in s[1..] <==> k in s && k != s[0]
  {
    assert s == [s[0]] + s[1..];
    assert forall i :: 0 <= i < |s[1..]| ==> s[1..][i] == s[i + 1] && s[1..][i] > s[0];
  }

  /** What the pages before `cursor` have visited. */
  ghost predicate Visited(keys: set<nat>, cursor: Option<nat>, more: bool, done: set<nat>, visited: seq<nat>) {
    && Increasing(visited) && (forall k :: k in visited <==> k in done)
    && done <= keys && forall k :: k in keys ==> (k in done <==> !more || !After(cursor, k))
  }

  lemma PageIsNew(keys: set<nat>, cursor: Option<nat>, page: seq<nat>, done: set<nat>, visited: seq<nat>)
    requires Visited(keys, cursor, true, done, visited) && forall k :: k in page ==> k in keys && After(cursor, k)
    ensures forall k :: k in page ==> k !in done
    ensures forall x, y :: x in visited && y in page ==> x < y
  {
    forall x, y | x in visited && y in page
      ensures x < y
    {
      assert x in done && x in keys;
    }
  }

  /** A short page ends the listing. */
  lemma ShortPageVisited(keys: set<nat>, cursor: Option<nat>, page: seq<nat>, done: set<nat>, visited: seq<nat>)
    requires Visited(keys, cursor, true, done, visited) && page == ListPage(keys, cursor) && |page| < PAGE
    ensures Visited(keys, cursor, false, done + (set k | k in page), visited + page)
  {
    PageLeavesNoGap(keys, cursor, page);
    PageIsNew(keys, cursor, page, done, visited);
    IncreasingAppend(visited, page);
  }

  /** A full page moves the cursor to its last key. */
  lemma FullPageVisited(keys: set<nat>, cursor: Option<nat>, page: seq<nat>, done: set<nat>, visited: seq<nat>)
    requires Visited(keys, cursor, true, done, visited) && page == ListPage(keys, cursor) && |page| >= PAGE
    ensures Visited(keys, Some(page[|page| - 1]), true, done + (set k | k in page), visited + page)
  {
    PageLeavesNoGap(keys, cursor, page);
    PageIsNew(keys, cursor, page, done, visited);
    IncreasingAppend(visited, page);
    PageCovers(keys, cursor, page, done);
  }

  lemma PageVisited(keys: set<nat>, cursor: Option<nat>, page: seq<nat>, done: set<nat>, visited: seq<nat>)
    requires Visited(keys, cursor, true, done, visited) && page == ListPage(keys, cursor)
    ensures var cursor' := if |page| < PAGE then cursor else Some(page[|page| - 1]);
      Visited(keys, cursor', |page| >= PAGE, done + (set k | k in page), visited + page)
    ensures Increasing(page) && forall k :: k in page ==> k in keys && k !in done
  {
    PageLeavesNoGap(keys, cursor, page);
    PageIsNew(keys, cursor, page, done, visited);
    if |page| < PAGE {
      ShortPageVisited(keys, cursor, page, done, visited);
    } else {
      FullPageVisited(keys, cursor, page, done, visited);
    }
  }

  lemma IncreasingAppend(a: seq<nat>, b: seq<nat>)
    requires Increasing(a) && Increasing(b) && forall x, y :: x in a && y in b ==> x < y
    ensures Increasing(a + b) && forall k :: k in a + b <==> k in a || k in b
  {
    forall i, j | 0 <= i < j < |a + b|
      ensures (a + b)[i] < (a + b)[j]
    {
      if i < |a| <= j {
        assert a[i] in a && b[j - |a|] in b;
      }
    }
  }

  lemma PageCovers(keys: set<nat>, cursor: Option<nat>, page: seq<nat>, done: set<nat>)
    requires |page| >= PAGE && Increasing(page) && forall k :: k in page ==> k in keys && After(cursor, k)
    requires forall k :: k in keys && After(cursor, k) && k <= page[|page| - 1] ==> k in page
    requires forall k :: k in keys ==> (k in done <==> !After(cursor, k))
    ensures forall k :: k in keys ==> (k in done || k in page <==> k <= page[|page| - 1])
  {
    var last := page[|page| - 1];
    assert last in page;
    forall k | k in page
      ensures k <= last
    {
      var i :| 0 <= i < |page| && page[i] == k;
    }
  }

  /** Once no page is left, every key was visited, in order. */
  lemma AllVisited(keys: set<nat>, cursor: Option<nat>, done: set<nat>, visited: seq<nat>)
    requires Visited(keys, cursor, false, done, visited)
    ensures done == keys && visited == SortedIds(keys)
  {
    ListingIsUnique(visited, SortedIds(keys));
  }

  lemma PageShrinks(keys: set<nat>, done: set<nat>, page: seq<nat>)
    requires page != [] && forall k :: k in page ==> k in keys && k !in done
    ensures keys - (done + set k | k in page) < keys - done
  {
    assert page[0] in page && page[0] in keys - done;
  }

  /** The first `i` keys of a page. */
  ghost function KeysTo(page: seq<nat>, i: nat): set<nat>
    requires i <= |page|
  {
    set j | 0 <= j < i :: page[j]
  }

  lemma KeysNext(page: seq<nat>, i: nat)
    requires Increasing(page) && i < |page|
    ensures KeysTo(page, i + 1) == KeysTo(page, i) + {page[i]} && page[i] !in KeysTo(page, i)
  {
  }

  lemma KeysAll(page: seq<nat>)
    ensures KeysTo(page, |page|) == set k | k in page
  {
    forall k | k in page
      ensures k in KeysTo(page, |page|)
    {
      var j :| 0 <= j < |page| && page[j] == k;
    }
  }
}
