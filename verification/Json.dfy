/** JSON values and the size of their compact text in UTF-8 bytes. */
module Json {
  import opened Text

  datatype Json = Str(text: string) | Num(value: nat) | Bool(flag: bool) | Arr(items: seq<Json>) | Obj(fields: seq<Field>)

  datatype Field = Field(name: string, value: Json)

  /** How many bytes one character takes inside a string, escapes included. */
  function CharSize(c: char): (n: nat)
    ensures n >= 1
  {
    if c in {'"', '\\', '\t', '\n', '\r', '\U{8}', '\U{C}'} then 2 else if c < ' ' then 6 else Utf8Length(c)
  }

  function CharsSize(s: string): (n: nat)
    ensures n >= |s|
  {
    if s == [] then 0 else CharSize(s[0]) + CharsSize(s[1..])
  }

  function StringSize(s: string): (n: nat)
    ensures n >= |s| + 2
  {
    2 + CharsSize(s)
  }

  function Size(j: Json): nat {
    match j
    case Str(s) => StringSize(s)
    case Num(n) => |Decimal(n)|
    case Bool(b) => if b then 4 else 5
    case Arr(xs) => 2 + ListSize(xs)
    case Obj(fs) => 2 + FieldsSize(fs)
  }

  function Comma(n: nat): nat {
    if n > 1 then 1 else 0
  }

  function ListSize(xs: seq<Json>): nat {
    if xs == [] then 0 else ListSize(xs[..|xs| - 1]) + Size(xs[|xs| - 1]) + Comma(|xs|)
  }

  /** A field is its name, a colon and its value. */
  function FieldsSize(fs: seq<Field>): nat {
    if fs == [] then 0
    else FieldsSize(fs[..|fs| - 1]) + StringSize(fs[|fs| - 1].name) + 1 + Size(fs[|fs| - 1].value) + Comma(|fs|)
  }

  /** The fields of a record, name by name. */
  function Named(names: seq<string>, values: seq<Json>): (fs: seq<Field>)
    requires |names| == |values|
    ensures |fs| == |names|
  {
    seq(|names|, i requires 0 <= i < |names| => Field(names[i], values[i]))
  }

  /** Changing one value changes the size by what the values differ. */
  lemma {:induction false} FieldChanged(fs: seq<Field>, gs: seq<Field>, i: nat)
    requires i < |fs| == |gs| && gs[i].name == fs[i].name && forall k :: 0 <= k < |fs| && k != i ==> gs[k] == fs[k]
    ensures FieldsSize(gs) == FieldsSize(fs) - Size(fs[i].value) + Size(gs[i].value)
    decreases |fs|
  {
    var n := |fs| - 1;
    if i < n {
      FieldChanged(fs[..n], gs[..n], i);
    } else {
      assert gs[..n] == fs[..n];
    }
  }

  lemma ValueChanged(names: seq<string>, values: seq<Json>, i: nat, v: Json, rest: seq<Field>)
    requires i < |names| == |values|
    ensures Size(Obj(Named(names, values[i := v]) + rest)) == Size(Obj(Named(names, values) + rest)) - Size(values[i]) + Size(v)
  {
    FieldChanged(Named(names, values) + rest, Named(names, values[i := v]) + rest, i);
  }

  lemma FieldTakes(fs: seq<Field>, k: nat)
    requires k < |fs|
    ensures FieldsSize(fs[..k + 1]) >= FieldsSize(fs[..k]) + |fs[k].name| + 3 + Size(fs[k].value) + Comma(k + 1)
  {
    assert fs[..k + 1][..k] == fs[..k];
  }

  lemma {:induction false} FieldsTake(fs: seq<Field>, k: nat)
    requires k <= |fs|
    ensures FieldsSize(fs) >= FieldsSize(fs[..k])
    decreases |fs|
  {
    if k < |fs| {
      FieldsTake(fs[..|fs| - 1], k);
      assert fs[..|fs| - 1][..k] == fs[..k];
    } else {
      assert fs[..k] == fs;
    }
  }

  lemma ThreeChanged(names: seq<string>, u: seq<Json>, w: seq<Json>, i: nat, j: nat, k: nat)
    requires i < j < k < |names| == |u| == |w| && w == u[i := w[i]][j := w[j]][k := w[k]]
    ensures Size(Obj(Named(names, w) + [])) - Size(Obj(Named(names, u) + []))
         == Size(w[i]) - Size(u[i]) + Size(w[j]) - Size(u[j]) + Size(w[k]) - Size(u[k])
  {
    ValueChanged(names, u, i, w[i], []);
    ValueChanged(names, u[i := w[i]], j, w[j], []);
    ValueChanged(names, u[i := w[i]][j := w[j]], k, w[k], []);
  }

  lemma TwoChanged(names: seq<string>, u: seq<Json>, w: seq<Json>, i: nat, j: nat, rest: seq<Field>)
    requires i < j < |names| == |u| == |w| && w == u[i := w[i]][j := w[j]]
    ensures Size(Obj(Named(names, w) + rest)) - Size(Obj(Named(names, u) + rest))
         == Size(w[i]) - Size(u[i]) + Size(w[j]) - Size(u[j])
  {
    ValueChanged(names, u, i, w[i], rest);
    ValueChanged(names, u[i := w[i]], j, w[j], rest);
  }

  /** What the first `k` fields of a record take at least. */
  function Floor(names: seq<string>, values: seq<Json>, k: nat): nat
    requires k <= |names| == |values|
  {
    if k == 0 then 0 else Floor(names, values, k - 1) + |names[k - 1]| + 3 + Size(values[k - 1]) + Comma(k)
  }

  lemma {:induction false} RecordTakes(names: seq<string>, values: seq<Json>, rest: seq<Field>, k: nat)
    requires k <= |names| == |values|
    ensures FieldsSize((Named(names, values) + rest)[..k]) >= Floor(names, values, k)
    decreases k
  {
    if k > 0 {
      RecordTakes(names, values, rest, k - 1);
      FieldTakes(Named(names, values) + rest, k - 1);
    }
  }

  lemma ListAdded(xs: seq<Json>, x: Json)
    ensures ListSize(xs + [x]) == ListSize(xs) + Size(x) + Comma(|xs| + 1)
  {
    assert (xs + [x])[..|xs|] == xs;
  }

  // ── The text itself ────────────────────────────────────────────────────

  function HexDigit(n: nat): (c: char)
    requires n < 16
    ensures c == "0123456789abcdef"[n]
  {
    if n < 10 then (n + 48) as char else (n + 87) as char
  }

  /** One character inside a string, as the host's `JSON.stringify` writes it. */
  function Escaped(c: char): string {
    match c
    case '"' => "\\\""
    case '\\' => "\\\\"
    case '\t' => "\\t"
    case '\n' => "\\n"
    case '\r' => "\\r"
    case '\U{8}' => "\\b"
    case '\U{C}' => "\\f"
    case _ => if c < ' ' then "\\u00" + [HexDigit(c as nat / 16), HexDigit(c as nat % 16)] else [c]
  }

  function EscapedAll(s: string): string {
    if s == [] then "" else Escaped(s[0]) + EscapedAll(s[1..])
  }

  function Quoted(s: string): string {
    ['"'] + (EscapedAll(s) + ['"'])
  }

  /** What separates the last of `n` members from the one before it. */
  function Mark(n: nat): string {
    if n > 1 then "," else ""
  }

  /** The compact text of a value. */
  function Render(j: Json): string {
    match j
    case Str(s) => Quoted(s)
    case Num(n) => Decimal(n)
    case Bool(b) => if b then "true" else "false"
    case Arr(xs) => ['['] + (RenderList(xs) + [']'])
    case Obj(fs) => ['{'] + (RenderFields(fs) + ['}'])
  }

  function RenderList(xs: seq<Json>): string {
    if xs == [] then ""
    else RenderList(xs[..|xs| - 1]) + (Mark(|xs|) + Render(xs[|xs| - 1]))
  }

  function RenderFields(fs: seq<Field>): string {
    if fs == [] then ""
    else
      var f := fs[|fs| - 1];
      RenderFields(fs[..|fs| - 1]) + (Mark(|fs|) + (Quoted(f.name) + ([':'] + Render(f.value))))
  }

  lemma {:induction false} AppendedSize(a: string, b: string)
    ensures Utf8Size(a + b) == Utf8Size(a) + Utf8Size(b)
  {
    if a == [] {
      assert a + b == b;
    } else {
      assert (a + b)[1..] == a[1..] + b;
      AppendedSize(a[1..], b);
    }
  }

  lemma {:induction false} AsciiSize(s: string)
    requires forall i :: 0 <= i < |s| ==> s[i] as int < 0x80
    ensures Utf8Size(s) == |s|
  {
    if s != [] {
      AsciiSize(s[1..]);
    }
  }

  lemma EscapedSize(c: char)
    ensures Utf8Size(Escaped(c)) == CharSize(c)
  {
    if |Escaped(c)| > 1 {
      AsciiSize(Escaped(c));
    } else {
      assert Escaped(c) == [c] && Escaped(c)[1..] == [];
    }
  }

  lemma {:induction false} EscapedAllSize(s: string)
    ensures Utf8Size(EscapedAll(s)) == CharsSize(s)
  {
    if s != [] {
      EscapedSize(s[0]);
      EscapedAllSize(s[1..]);
      AppendedSize(Escaped(s[0]), EscapedAll(s[1..]));
    }
  }

  lemma WrappedSize(a: char, s: string, b: char)
    requires a as int < 0x80 && b as int < 0x80
    ensures Utf8Size([a] + (s + [b])) == Utf8Size(s) + 2
  {
    AppendedSize([a], s + [b]);
    AppendedSize(s, [b]);
    AsciiSize([a]);
    AsciiSize([b]);
  }

  lemma QuotedSize(s: string)
    ensures Utf8Size(Quoted(s)) == StringSize(s)
  {
    EscapedAllSize(s);
    WrappedSize('"', EscapedAll(s), '"');
  }

  lemma LastSize(rest: string, n: nat, last: string)
    ensures Utf8Size(rest + (Mark(n) + last)) == Utf8Size(rest) + Utf8Size(last) + Comma(n)
  {
    MarkSize(n);
    hide Utf8Size, Mark;
    AppendedSize(rest, Mark(n) + last);
    AppendedSize(Mark(n), last);
  }

  lemma MarkSize(n: nat)
    ensures Utf8Size(Mark(n)) == Comma(n)
  {
    AsciiSize(Mark(n));
  }

  /** The size of a value is the number of bytes of its text in UTF-8. */
  lemma {:induction false} SizeIsBytes(j: Json)
    ensures Size(j) == Utf8Size(Render(j))
  {
    match j
    case Str(s) => QuotedSize(s);
    case Num(n) => AsciiSize(Decimal(n));
    case Bool(b) => AsciiSize(Render(j));
    case Arr(xs) =>
      ListSizeIsBytes(xs);
      WrappedSize('[', RenderList(xs), ']');
    case Obj(fs) =>
      FieldsSizeIsBytes(fs);
      WrappedSize('{', RenderFields(fs), '}');
  }

  lemma {:induction false} ListSizeIsBytes(xs: seq<Json>)
    ensures ListSize(xs) == Utf8Size(RenderList(xs))
  {
    if xs != [] {
      var n := |xs| - 1;
      ListSizeIsBytes(xs[..n]);
      SizeIsBytes(xs[n]);
      LastSize(RenderList(xs[..n]), |xs|, Render(xs[n]));
    }
  }

  lemma {:induction false} FieldsSizeIsBytes(fs: seq<Field>)
    ensures FieldsSize(fs) == Utf8Size(RenderFields(fs))
  {
    if fs != [] {
      var n := |fs| - 1;
      var f := fs[n];
      FieldsSizeIsBytes(fs[..n]);
      SizeIsBytes(f.value);
      QuotedSize(f.name);
      AppendedSize([':'], Render(f.value));
      AsciiSize([':']);
      AppendedSize(Quoted(f.name), [':'] + Render(f.value));
      LastSize(RenderFields(fs[..n]), |fs|, Quoted(f.name) + ([':'] + Render(f.value)));
    }
  }
}
