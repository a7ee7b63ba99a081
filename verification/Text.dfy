/** Characters as the host's runtime treats them. */
module Text {

  /** What `trim` strips. */
  predicate IsSpace(c: char) {
    c in {'\t', '\n', '\U{B}', '\U{C}', '\r', ' ', '\U{A0}', '\U{FEFF}', '\U{1680}', '\U{2028}', '\U{2029}',
          '\U{202F}', '\U{205F}', '\U{3000}'} || '\U{2000}' <= c <= '\U{200A}'
  }

  /** What ends a line for a regular expression. */
  predicate IsLineBreak(c: char) {
    c in {'\n', '\r', '\U{2028}', '\U{2029}'}
  }

  function TrimStart(s: string): (r: string)
    ensures |r| <= |s| && r == s[|s| - |r|..]
    ensures r == [] || !IsSpace(r[0])
  {
    if s != [] && IsSpace(s[0]) then TrimStart(s[1..]) else s
  }

  function TrimEnd(s: string): (r: string)
    ensures r <= s
    ensures r == [] || !IsSpace(r[|r| - 1])
  {
    if s != [] && IsSpace(s[|s| - 1]) then TrimEnd(s[..|s| - 1]) else s
  }

  function Trim(s: string): string {
    TrimEnd(TrimStart(s))
  }

  /** Trimming takes away blanks only, and as many as there are at either end. */
  lemma TrimExactly(s: string, r: string)
    ensures r == Trim(s) <==> exists i, j :: 0 <= i <= j <= |s| && IsTrimmedTo(s, i, j) && r == s[i..j]
  {
    var i, j := TrimIsTrimmed(s);
    if a, b :| 0 <= a <= b <= |s| && IsTrimmedTo(s, a, b) && r == s[a..b] {
      TrimmedIsUnique(s, a, b, i, j);
    }
  }

  lemma TrimIsTrimmed(s: string) returns (i: nat, j: nat)
    ensures i <= j <= |s| && IsTrimmedTo(s, i, j) && Trim(s) == s[i..j]
  {
    hide TrimStart, TrimEnd;
    var start := TrimStart(s);
    var kept := TrimEnd(start);
    i := |s| - |start|;
    j := i + |kept|;
    TrimStartBlank(s);
    TrimEndBlank(start);
    assert forall k :: 0 <= k < |start| ==> start[k] == s[i + k];
    forall k | j <= k < |s|
      ensures IsSpace(s[k])
    {
      assert start[k - i] == s[k];
    }
  }

  ghost predicate IsTrimmedTo(s: string, i: int, j: int)
    requires 0 <= i <= j <= |s|
  {
    && (forall k :: 0 <= k < i || j <= k < |s| ==> IsSpace(s[k]))
    && (i < j ==> !IsSpace(s[i]) && !IsSpace(s[j - 1]))
  }

  lemma TrimmedIsUnique(s: string, a: int, b: int, i: int, j: int)
    requires 0 <= a <= b <= |s| && 0 <= i <= j <= |s| && IsTrimmedTo(s, a, b) && IsTrimmedTo(s, i, j)
    ensures s[a..b] == s[i..j]
  {
    if a < b {
      KeptIsWithin(s, a, b, i, j);
    }
    if i < j {
      KeptIsWithin(s, i, j, a, b);
    }
  }

  lemma KeptIsWithin(s: string, a: int, b: int, i: int, j: int)
    requires 0 <= a < b <= |s| && 0 <= i <= j <= |s| && IsTrimmedTo(s, a, b) && IsTrimmedTo(s, i, j)
    ensures i <= a && b <= j
  {
  }

  lemma {:induction false} TrimStartBlank(s: string)
    ensures forall k :: 0 <= k < |s| - |TrimStart(s)| ==> IsSpace(s[k])
  {
    if s != [] && IsSpace(s[0]) {
      TrimStartBlank(s[1..]);
      assert forall k :: 0 < k < |s| ==> s[k] == s[1..][k - 1];
    }
  }

  lemma {:induction false} TrimEndBlank(s: string)
    ensures forall k :: |TrimEnd(s)| <= k < |s| ==> IsSpace(s[k])
  {
    if s != [] && IsSpace(s[|s| - 1]) {
      TrimEndBlank(s[..|s| - 1]);
    }
  }

  lemma BlankExactly(s: string)
    ensures Trim(s) == "" <==> forall i :: 0 <= i < |s| ==> IsSpace(s[i])
  {
    var i, j := TrimIsTrimmed(s);
  }

  /** How many bytes one character takes in UTF-8 (section 3 of RFC 3629). */
  function Utf8Length(c: char): (n: nat)
    ensures 1 <= n <= 4
  {
    if c as int < 0x80 then 1 else if c as int < 0x800 then 2 else if c as int < 0x1_0000 then 3 else 4
  }

  function Utf8Size(s: string): nat {
    if s == [] then 0 else Utf8Length(s[0]) + Utf8Size(s[1..])
  }

  // ── The order of strings ───────────────────────────────────────────────

  /** `a < b` on strings: the first difference decides, and a proper prefix comes first. */
  predicate Less(a: string, b: string) {
    if b == [] then false
    else if a == [] then true
    else a[0] < b[0] || (a[0] == b[0] && Less(a[1..], b[1..]))
  }

  lemma {:induction false} LessIsTotal(a: string, b: string)
    ensures Less(a, b) || Less(b, a) || a == b
    ensures !(Less(a, b) && Less(b, a)) && !Less(a, a)
    decreases |a| + |b|
  {
    if a != [] && b != [] {
      assert a == [a[0]] + a[1..] && b == [b[0]] + b[1..];
      LessIsTotal(a[1..], b[1..]);
    }
    if a != [] {
      LessIsIrreflexive(a);
    }
  }

  lemma {:induction false} LessIsIrreflexive(a: string)
    ensures !Less(a, a)
  {
    if a != [] {
      LessIsIrreflexive(a[1..]);
    }
  }

  lemma {:induction false} LessIsTransitive(a: string, b: string, c: string)
    requires Less(a, b) && Less(b, c)
    ensures Less(a, c)
  {
    if a != [] && a[0] == b[0] == c[0] {
      LessIsTransitive(a[1..], b[1..], c[1..]);
    }
  }

  // ── Decimal numbers ────────────────────────────────────────────────────

  predicate IsDigit(c: char) {
    '0' <= c <= '9'
  }

  predicate AllDigits(s: string) {
    forall i :: 0 <= i < |s| ==> IsDigit(s[i])
  }

  /** How many digits a string starts with. */
  function DigitRun(s: string): (k: nat)
    ensures k <= |s| && AllDigits(s[..k]) && (k < |s| ==> !IsDigit(s[k]))
  {
    if s == [] || !IsDigit(s[0]) then 0
    else
      var k := DigitRun(s[1..]);
      assert s[..k + 1] == [s[0]] + s[1..][..k];
      k + 1
  }

  lemma DigitRunIs(s: string, k: nat)
    requires k <= |s| && AllDigits(s[..k]) && (k < |s| ==> !IsDigit(s[k]))
    ensures DigitRun(s) == k
  {
    var run := DigitRun(s);
    assert forall i :: 0 <= i < k ==> s[..k][i] == s[i];
    assert forall i :: 0 <= i < run ==> s[..run][i] == s[i];
  }

  function Digit(n: nat): (c: char)
    requires n < 10
    ensures IsDigit(c)
  {
    (n + 48) as char
  }

  /** The decimal numeral of a number, without leading zeros. */
  function Decimal(n: nat): (s: string)
    ensures |s| > 0 && AllDigits(s)
  {
    if n < 10 then [Digit(n)] else Decimal(n / 10) + [Digit(n % 10)]
  }

  /** What `Number` reads from digits. */
  function NumberOf(s: string): nat
    requires AllDigits(s)
  {
    if s == [] then 0 else 10 * NumberOf(s[..|s| - 1]) + (s[|s| - 1] as int - 48)
  }

  lemma {:induction false} NumberOfDecimal(n: nat)
    ensures NumberOf(Decimal(n)) == n
  {
    if n >= 10 {
      NumberOfDecimal(n / 10);
      assert Decimal(n)[..|Decimal(n)| - 1] == Decimal(n / 10);
    }
  }

  function Power10(n: nat): nat {
    if n == 0 then 1 else 10 * Power10(n - 1)
  }

  /** A number has at most k digits exactly when it is below 10 to the k. */
  lemma {:induction false} DecimalLength(n: nat, k: nat)
    requires k > 0
    ensures |Decimal(n)| <= k <==> n < Power10(k)
  {
    if k == 1 {
      assert Power10(1) == 10 * Power10(0);
    } else if n >= 10 {
      DecimalLength(n / 10, k - 1);
    } else {
      PowerGrows(k);
    }
  }

  lemma {:induction false} PowerGrows(k: nat)
    requires k > 0
    ensures Power10(k) >= 10
  {
    if k > 1 {
      PowerGrows(k - 1);
    }
  }
}
