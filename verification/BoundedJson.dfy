/** `boundedJson`: a payload that does not fit keeps its head and its tail. */
module BoundedJson {
  import opened Text

  const BARE := "{\"truncated\":true}"

  /** The shortened payload. `quoted` is how the host writes a string, with whatever escapes it needs. */
  function Payload(serialized: string, head: string, tail: string, quoted: string -> string): string {
    "{\"truncated\":true,\"original_chars\":" + Decimal(|serialized|) + ",\"head\":" + quoted(head) + ",\"tail\":" + quoted(tail) + "}"
  }

  function Writing(serialized: string, quoted: string -> string): (string, string) -> string {
    (head, tail) => Payload(serialized, head, tail, quoted)
  }

  function Head(s: string, n: nat): string {
    if n < |s| then s[..n] else s
  }

  /** `slice(-n)`, which an `n` of zero would make the whole string. */
  function TailOf(s: string, n: nat): string {
    if n == 0 then "" else if n < |s| then s[|s| - n..] else s
  }

  /** Two fifths, rounded down and up. */
  function FloorShare(n: int): int {
    n * 2 / 5
  }

  function CeilShare(n: int): int {
    (n * 2 + 4) / 5
  }

  function Max(a: int, b: int): int {
    if a < b then b else a
  }

  function Min(a: int, b: int): int {
    if a < b then a else b
  }

  /** A prefix and a suffix of the serialized value that do not overlap. */
  ghost predicate CutAt(r: string, serialized: string, quoted: string -> string, h: nat, t: nat) {
    && h + t <= |serialized|
    && r == "{\"truncated\":true,\"original_chars\":" + Decimal(|serialized|)
            + ",\"head\":" + quoted(serialized[..h]) + ",\"tail\":" + quoted(serialized[|serialized| - t..]) + "}"
  }

  ghost predicate IsCut(r: string, serialized: string, quoted: string -> string) {
    exists h: nat, t: nat :: CutAt(r, serialized, quoted, h, t)
  }

  /** The first cut tried: what 160 characters less than the limit hold, two fifths of it at the head. */
  function HeadRoom(maxChars: nat): nat {
    Max(0, FloorShare(maxChars - 160))
  }

  function TailRoom(maxChars: nat): nat {
    Max(0, maxChars - 160 - HeadRoom(maxChars))
  }

  /** The same shares as real numbers. */
  lemma RoomsExactly(maxChars: nat)
    ensures HeadRoom(maxChars) == if maxChars < 160 then 0 else ((maxChars - 160) as real * 0.4).Floor
    ensures TailRoom(maxChars) == if maxChars < 160 then 0 else maxChars - 160 - ((maxChars - 160) as real * 0.4).Floor
  {
    if maxChars >= 160 {
      TwoFifths(maxChars - 160);
    }
  }

  lemma TwoFifths(n: int)
    ensures FloorShare(n) == (n as real * 0.4).Floor && CeilShare(n) == RoundedUp(n as real * 0.4)
  {
    var q, r := n * 2 / 5, n * 2 % 5;
    assert n as real * 0.4 == q as real + r as real / 5.0;
  }

  /** The least integer that is not smaller. */
  function RoundedUp(x: real): int {
    -(-x).Floor
  }

  /** The cut tried after one that is `excess` characters too long: the head gives back two fifths, rounded up, as far as
      there are any, and the tail the rest, one at least. */
  ghost predicate Follows(h: int, t: int, excess: int, h': int, t': int) {
    && h' == (if h < RoundedUp(excess as real * 0.4) then 0 else h - RoundedUp(excess as real * 0.4))
    && var rest := if excess - (h - h') < 1 then 1 else excess - (h - h');
       t' == if t < rest then 0 else t - rest
  }

  /** The cuts tried, one after the other: each but the last is too long. */
  ghost predicate Tried(s: string, maxChars: nat, write: (string, string) -> string, cuts: seq<(nat, nat)>) {
    && cuts != [] && cuts[0] == (HeadRoom(maxChars), TailRoom(maxChars))
    && (forall i :: 0 <= i < |cuts| ==> cuts[i].0 + cuts[i].1 <= |s|)
    && forall i :: 0 <= i < |cuts| - 1 ==> TooLong(s, maxChars, write, cuts[i], cuts[i + 1])
  }

  /** A cut was too long, and another one was tried after it. */
  ghost predicate TooLong(s: string, maxChars: nat, write: (string, string) -> string, cut: (nat, nat), next: (nat, nat)) {
    && cut.0 + cut.1 <= |s|
    && var size := |write(s[..cut.0], s[|s| - cut.1..])|;
       size > maxChars && Follows(cut.0, cut.1, size - maxChars, next.0, next.1)
  }

  lemma NextFollows(h: nat, t: nat, excess: nat, h': nat, t': nat)
    requires h' == h - Min(h, CeilShare(excess)) && t' == t - Min(t, Max(1, excess - Min(h, CeilShare(excess))))
    ensures Follows(h, t, excess, h', t')
  {
    TwoFifths(excess);
  }

  lemma NextTried(s: string, maxChars: nat, write: (string, string) -> string, cuts: seq<(nat, nat)>, next: (nat, nat))
    requires Tried(s, maxChars, write, cuts) && next.0 + next.1 <= |s| && TooLong(s, maxChars, write, cuts[|cuts| - 1], next)
    ensures Tried(s, maxChars, write, cuts + [next])
  {
    hide TooLong;
    var all := cuts + [next];
    forall i | 0 <= i < |all| - 1
      ensures TooLong(s, maxChars, write, all[i], all[i + 1])
    {
      if i == |cuts| - 1 {
        assert all[i] == cuts[i] && all[i + 1] == next;
      }
    }
  }

  lemma FirstTried(s: string, maxChars: nat, write: (string, string) -> string, cuts: seq<(nat, nat)>)
    requires |s| > maxChars && cuts == [(HeadRoom(maxChars), TailRoom(maxChars))]
    ensures Tried(s, maxChars, write, cuts)
  {
    assert cuts[0] == (HeadRoom(maxChars), TailRoom(maxChars)) && |cuts| == 1;
  }

  /** The loop: for any way to write a payload it ends, with the first of its cuts that fits, and with none only when not
      even an empty head and tail fit. */
  method Shrink(s: string, maxChars: nat, write: (string, string) -> string) returns (fits: bool, h: nat, t: nat, ghost cuts: seq<(nat, nat)>)
    requires |s| > maxChars
    ensures h + t <= |s|
    ensures cuts != [] && Tried(s, maxChars, write, cuts) && cuts[|cuts| - 1] == (h, t)
    ensures fits ==> |write(s[..h], s[|s| - t..])| <= maxChars
    ensures !fits ==> h == t == 0 && |write("", "")| > maxChars
  {
    hide Tried, Follows;
    h, t := HeadRoom(maxChars), TailRoom(maxChars);
    cuts := [(h, t)];
    FirstTried(s, maxChars, write, cuts);
    while true
      invariant h + t < |s| && cuts != [] && Tried(s, maxChars, write, cuts) && cuts[|cuts| - 1] == (h, t)
      decreases h + t
    {
      var head, tail := Head(s, h), TailOf(s, t);
      assert head == s[..h] && tail == s[|s| - t..];
      var bounded := write(head, tail);
      if |bounded| <= maxChars {
        return true, h, t, cuts;
      }
      var excess := |bounded| - maxChars;
      if h == 0 && t == 0 {
        return false, 0, 0, cuts;
      }
      ghost var (head', tail') := (h, t);
      var headReduction := Min(h, CeilShare(excess));
      var tailReduction := Min(t, Max(1, excess - headReduction));
      h, t := h - headReduction, t - tailReduction;
      NextFollows(head', tail', excess, h, t);
      NextTried(s, maxChars, write, cuts, (h, t));
      cuts := cuts + [(h, t)];
    }
  }

  /** The result is the value itself, a cut of it, or the bare mark, which stands only when not even an empty head and
      tail fit; and it has at most `maxChars` characters unless that is fewer than the bare mark's own 18. */
  method Bound(serialized: string, maxChars: nat, quoted: string -> string) returns (r: string)
    ensures |serialized| <= maxChars ==> r == serialized
    ensures |serialized| > maxChars ==> r == BARE || IsCut(r, serialized, quoted)
    ensures |serialized| > maxChars && |Payload(serialized, "", "", quoted)| <= maxChars ==> IsCut(r, serialized, quoted)
    ensures |serialized| > maxChars && r != BARE ==>
      exists cuts: seq<(nat, nat)> :: Tried(serialized, maxChars, Writing(serialized, quoted), cuts)
                     && CutAt(r, serialized, quoted, cuts[|cuts| - 1].0, cuts[|cuts| - 1].1)
    ensures |r| <= maxChars <==> |serialized| <= maxChars || maxChars >= 18
  {
    if |serialized| <= maxChars {
      return serialized;
    }
    var fits, h, t, cuts := Shrink(serialized, maxChars, Writing(serialized, quoted));
    if !fits {
      return BARE;
    }
    r := Payload(serialized, Head(serialized, h), TailOf(serialized, t), quoted);
    assert Head(serialized, h) == serialized[..h] && TailOf(serialized, t) == serialized[|serialized| - t..];
    assert CutAt(r, serialized, quoted, h, t);
  }
}
