/** Keeping one more optional item never makes a briefing smaller. */
module BriefingSize {
  import opened Json
  import opened Briefing

  const ITEM_FLOOR := 154

  // ── What the budget leaves out ─────────────────────────────────────────

  function Omitted(left: seq<Candidate>): set<Channel> {
    set i | 0 <= i < |left| :: ChannelOf(left[i])
  }

  /** The plans once some candidates are left out: their channels are incomplete. */
  function Trim(plans: map<Channel, bool>, left: seq<Candidate>): map<Channel, bool> {
    var out := Omitted(left);
    map ch | ch in plans.Keys + out :: ch !in out && plans[ch]
  }

  /** The briefing that keeps the first `n` candidates. */
  function Keeping(b: Basis, c: seq<Candidate>, n: nat): Briefing
    requires n <= |c|
  {
    Assemble(b, c[..n], Trim(b.plans, c[n..]))
  }

  function SizeKeeping(b: Basis, c: seq<Candidate>, n: nat): nat
    requires n <= |c|
  {
    SizeOf(b, Keeping(b, c, n))
  }

  // ── One item ───────────────────────────────────────────────────────────

  predicate Lowercase(s: string) {
    forall i :: 0 <= i < |s| ==> 'a' <= s[i] <= 'z'
  }

  lemma {:induction false} LowercaseSize(s: string)
    requires Lowercase(s)
    ensures CharsSize(s) == |s|
  {
    if s != [] {
      LowercaseSize(s[1..]);
    }
  }

  lemma ItemNames()
    ensures |ITEM_NAMES[0]| + |ITEM_NAMES[1]| + |ITEM_NAMES[2]| == 11
    ensures |ITEM_NAMES[3]| + |ITEM_NAMES[4]| + |ITEM_NAMES[5]| == 44
  {
  }

  lemma SixFloors(names: seq<string>, v: seq<Json>)
    requires |names| == |v| == 6
    ensures Floor(names, v, 6) == |names[0]| + |names[1]| + |names[2]| + |names[3]| + |names[4]| + |names[5]| + 23
      + Size(v[0]) + Size(v[1]) + Size(v[2]) + Size(v[3]) + Size(v[4]) + Size(v[5])
  {
    assert Floor(names, v, 1) == |names[0]| + 3 + Size(v[0]);
    assert Floor(names, v, 3) == Floor(names, v, 1) + |names[1]| + |names[2]| + 8 + Size(v[1]) + Size(v[2]);
    assert Floor(names, v, 5) == Floor(names, v, 3) + |names[3]| + |names[4]| + 8 + Size(v[3]) + Size(v[4]);
  }

  lemma RecordFloor(names: seq<string>, v: seq<Json>, rest: seq<Field>)
    requires |names| == |v| == 6
    ensures Size(Obj(Named(names, v) + rest))
         >= |names[0]| + |names[1]| + |names[2]| + |names[3]| + |names[4]| + |names[5]| + 25
            + Size(v[0]) + Size(v[1]) + Size(v[2]) + Size(v[3]) + Size(v[4]) + Size(v[5])
  {
    RecordTakes(names, v, rest, 6);
    FieldsTake(Named(names, v) + rest, 6);
    SixFloors(names, v);
  }

  lemma ValueFloors(m: MemoryItem)
    requires |m.ref| >= 48
    ensures var v := ItemValues(m);
      Size(v[0]) >= 50 && Size(v[1]) >= 2 && Size(v[2]) >= 6 && Size(v[3]) >= 10 && Size(v[4]) >= 2
      && Size(v[5]) == if m.actionEligible then 4 else 5
  {
  }

  lemma ItemFloor(m: MemoryItem)
    requires |m.ref| >= 48
    ensures Size(ItemText(m)) >= ITEM_FLOOR + if m.actionEligible then 0 else 1
  {
    RecordFloor(ITEM_NAMES, ItemValues(m), Standing(m.item));
    ItemNames();
    ValueFloors(m);
  }

  /** Whether an item may be acted on changes its size by one byte at most. */
  lemma ItemFlips(m: MemoryItem, t: MemoryItem)
    requires m.ref == t.ref && m.item == t.item
    ensures Size(ItemText(m)) - 1 <= Size(ItemText(t)) <= Size(ItemText(m)) + 1
  {
    ValueChanged(ITEM_NAMES, ItemValues(m), 5, Bool(t.actionEligible), Standing(m.item));
    assert ItemValues(t) == ItemValues(m)[5 := Bool(t.actionEligible)];
  }

  // ── The list of items ──────────────────────────────────────────────────

  function Texts(b: Basis, c: seq<Candidate>, n: nat, eligible: bool): seq<Json>
    requires n <= |c|
  {
    ItemTexts(ItemsOf(b, c[..n], eligible))
  }

  function TextAt(b: Basis, c: seq<Candidate>, i: nat, eligible: bool): Json
    requires i < |c|
  {
    ItemText(MemoryItem(RefAt(b, i), c[i].item, eligible && IsActionable(c[i].item)))
  }

  lemma TextsNext(b: Basis, c: seq<Candidate>, n: nat, eligible: bool)
    requires n < |c|
    ensures Texts(b, c, n + 1, eligible) == Texts(b, c, n, eligible) + [TextAt(b, c, n, eligible)]
  {
  }

  lemma {:induction false} TextsFlip(b: Basis, c: seq<Candidate>, n: nat, e: bool, f: bool)
    requires n <= |c|
    ensures ListSize(Texts(b, c, n, f)) + n >= ListSize(Texts(b, c, n, e))
  {
    if n > 0 {
      TextsFlip(b, c, n - 1, e, f);
      TextsNext(b, c, n - 1, e);
      TextsNext(b, c, n - 1, f);
      ListAdded(Texts(b, c, n - 1, e), TextAt(b, c, n - 1, e));
      ListAdded(Texts(b, c, n - 1, f), TextAt(b, c, n - 1, f));
      var item, ref := c[n - 1].item, RefAt(b, n - 1);
      ItemFlips(MemoryItem(ref, item, e && IsActionable(item)), MemoryItem(ref, item, f && IsActionable(item)));
    }
  }

  lemma TextsGrow(b: Basis, c: seq<Candidate>, n: nat, e: bool, f: bool)
    requires n < |c| && |b.basisRef| == 46
    ensures ListSize(Texts(b, c, n + 1, f)) >= ListSize(Texts(b, c, n, e)) - n + ITEM_FLOOR
  {
    TextsFlip(b, c, n, e, f);
    TextsNext(b, c, n, f);
    ListAdded(Texts(b, c, n, f), TextAt(b, c, n, f));
    ItemFloor(MemoryItem(RefAt(b, n), c[n].item, f && IsActionable(c[n].item)));
  }

  // ── The coverage ───────────────────────────────────────────────────────

  lemma IncompleteSize()
    ensures StringSize("incomplete") == 12
  {
    var s := "incomplete";
    LowercaseSize(s);
  }

  lemma CompleteSize()
    ensures StringSize("complete") == 10
  {
    var s := "complete";
    LowercaseSize(s);
  }

  lemma ChannelsShrinkByTwo(s: seq<string>, t: seq<string>, i: nat)
    requires |s| == |t| == |CHANNELS| && i < |s| && t == s[i := t[i]]
    requires t[i] == s[i] || (s[i] == "incomplete" && t[i] == "complete")
    ensures Size(ChannelsText(t)) >= Size(ChannelsText(s)) - 2
  {
    var values := seq(|s|, k requires 0 <= k < |s| => Str(s[k]));
    ValueChanged(CHANNEL_NAMES, values, i, Str(t[i]), []);
    assert seq(|t|, k requires 0 <= k < |t| => Str(t[k])) == values[i := Str(t[i])];
    IncompleteSize();
    CompleteSize();
  }

  /** One candidate more: its channel may become complete, and no other changes. */
  lemma PlansNext(b: Basis, c: seq<Candidate>, n: nat)
    requires n < |c|
    ensures forall ch :: ch != ChannelOf(c[n]) ==> (IncompleteIn(Trim(b.plans, c[n..]), ch) <==> IncompleteIn(Trim(b.plans, c[n + 1..]), ch))
    ensures IncompleteIn(Trim(b.plans, c[n..]), ChannelOf(c[n]))
  {
    var ch := ChannelOf(c[n]);
    assert c[n..] == [c[n]] + c[n + 1..];
    assert Omitted(c[n..]) == Omitted(c[n + 1..]) + {ch} by {
      assert c[n..][0] == c[n];
      forall x | x in Omitted(c[n + 1..])
        ensures x in Omitted(c[n..])
      {
        var i :| 0 <= i < |c[n + 1..]| && ChannelOf(c[n + 1..][i]) == x;
        assert c[n..][i + 1] == c[n + 1..][i];
      }
    }
  }

  function IndexOf(ch: Channel): (i: nat)
    ensures i < |CHANNELS| && CHANNELS[i] == ch
  {
    match ch
    case Constraints => 0
    case Commitments => 1
    case Dependencies => 2
    case Failures => 3
    case Experiences => 4
    case Skills => 5
    case Evidence => 6
  }

  lemma StatesNext(b: Basis, c: seq<Candidate>, n: nat)
    requires n < |c|
    ensures var (s, t, i) := (States(b, Trim(b.plans, c[n..])), States(b, Trim(b.plans, c[n + 1..])), IndexOf(ChannelOf(c[n])));
      t == s[i := t[i]] && (t[i] == s[i] || (s[i] == "incomplete" && t[i] == "complete"))
  {
    PlansNext(b, c, n);
    forall k | 0 <= k < |CHANNELS| && k != IndexOf(ChannelOf(c[n]))
      ensures CHANNELS[k] != ChannelOf(c[n])
    {
      assert IndexOf(CHANNELS[k]) == k;
    }
  }

  lemma CoverageShrinksByFour(b: Basis, x: Coverage, y: Coverage, i: nat)
    requires |x.states| == |y.states| == |CHANNELS| && i < |x.states| && y.states == x.states[i := y.states[i]]
    requires y.states[i] == x.states[i] || (x.states[i] == "incomplete" && y.states[i] == "complete")
    requires x.pending == y.pending && x.unverified == y.unverified
    ensures Size(CoverageText(b, y)) >= Size(CoverageText(b, x)) - 4
  {
    ThreeChanged(COVERAGE_NAMES, CoverageValues(b, x), CoverageValues(b, y), 0, 2, 5);
    ChannelsShrinkByTwo(x.states, y.states, i);
  }

  // ── The briefing ───────────────────────────────────────────────────────

  lemma ValuesReplaced(b: Basis, x: Briefing, y: Briefing)
    requires |x.coverage.states| == |y.coverage.states| == |CHANNELS|
    ensures var (u, w) := (Values(b, x), Values(b, y)); w == u[1 := w[1]][4 := w[4]]
  {
  }

  lemma PartSizes(b: Basis, x: Briefing)
    requires |x.coverage.states| == |CHANNELS|
    ensures Size(Values(b, x)[1]) == 2 + ListSize(ItemTexts(x.items)) && Size(Values(b, x)[4]) == Size(CoverageText(b, x.coverage))
  {
  }

  lemma PartsReplaced(b: Basis, x: Briefing, y: Briefing)
    requires |x.coverage.states| == |y.coverage.states| == |CHANNELS|
    ensures SizeOf(b, y) - SizeOf(b, x)
         == ListSize(ItemTexts(y.items)) - ListSize(ItemTexts(x.items))
            + Size(CoverageText(b, y.coverage)) - Size(CoverageText(b, x.coverage))
  {
    ValuesReplaced(b, x, y);
    PartSizes(b, x);
    PartSizes(b, y);
    TwoChanged(BRIEFING_NAMES, Values(b, x), Values(b, y), 1, 4, b.attention);
  }

  /** With at most 128 candidates, keeping one more makes the briefing larger: the item takes at least 154 bytes, and
      what its keeping turns true gives back at most 131. */
  lemma SizeGrows(b: Basis, c: seq<Candidate>, n: nat)
    requires n < |c| <= MAX_ITEMS && |b.basisRef| == 46
    ensures SizeKeeping(b, c, n) < SizeKeeping(b, c, n + 1)
  {
    var x, y := Keeping(b, c, n), Keeping(b, c, n + 1);
    PartsReplaced(b, x, y);
    TextsGrow(b, c, n, x.coverage.actionEligible, y.coverage.actionEligible);
    StatesNext(b, c, n);
    CoverageShrinksByFour(b, x.coverage, y.coverage, IndexOf(ChannelOf(c[n])));
  }

  lemma {:induction false} GrowingIsMonotone(sizes: seq<nat>, m: nat, n: nat)
    requires m <= n < |sizes| && forall k :: 0 <= k < |sizes| - 1 ==> sizes[k] < sizes[k + 1]
    ensures sizes[m] <= sizes[n]
    decreases n
  {
    if m < n {
      GrowingIsMonotone(sizes, m, n - 1);
    }
  }

  lemma SizeIsMonotone(b: Basis, c: seq<Candidate>, m: nat, n: nat)
    requires m <= n <= |c| <= MAX_ITEMS && |b.basisRef| == 46
    ensures SizeKeeping(b, c, m) <= SizeKeeping(b, c, n)
  {
    var sizes := seq(|c| + 1, k requires 0 <= k <= |c| => SizeKeeping(b, c, k));
    forall k | 0 <= k < |c|
      ensures sizes[k] < sizes[k + 1]
    {
      SizeGrows(b, c, k);
    }
    GrowingIsMonotone(sizes, m, n);
  }
}
