/** Pages of an embedded document by byte offset. */
module Paging {
  import opened Common
  import opened Utf8

  const PAGE_BYTES := 8192

  datatype Page = Page(content: string, next: Option<nat>, total: nat)

  /** The page of characters `i` to `j`: at most 8192 bytes, ended at the last boundary in reach, with the offset to go
      on from unless the text is used up. */
  ghost predicate Covers(text: string, p: Page, i: nat, j: nat) {
    && i <= j <= |text| && p.content == text[i..j] && p.total == |Encode(text)|
    && |Encode(p.content)| <= PAGE_BYTES
    && (j < |text| ==> i < j && BoundaryAt(text, j + 1) > BoundaryAt(text, i) + PAGE_BYTES)
    && p.next == if j < |text| then Some(BoundaryAt(text, j)) else None
  }

  lemma LastBoundary(text: string, i: nat, from: nat, end: nat, j: nat)
    requires i <= |text| && j <= |text| && from == BoundaryAt(text, i) <= end == BoundaryAt(text, j) <= |Encode(text)|
    requires end - from <= PAGE_BYTES
    requires forall k :: end < k <= from + PAGE_BYTES && k < |Encode(text)| ==> IsContinuation(Encode(text)[k])
    requires from + PAGE_BYTES < |Encode(text)| || end == |Encode(text)|
    ensures i <= j && (j < |text| ==> i < j && BoundaryAt(text, j + 1) > from + PAGE_BYTES)
    ensures end < |Encode(text)| <==> j < |text|
  {
    assert text[..|text|] == text;
    if j < i {
      BoundariesGrow(text, j, i);
    }
    if j < |text| {
      BoundariesGrow(text, j, |text|);
      BoundaryNext(text, j);
      var k := BoundaryAt(text, j + 1);
      BoundaryExactly(text, k);
      assert IsBoundary(text, k);
      if i == j {
        assert k <= from + 4;
      }
    }
  }

  /** `page`: refused exactly when the offset is not a boundary of the text. Its decoder never fails. */
  method ReadPage(text: string, offset: int) returns (r: Option<Page>)
    ensures r.Some? <==> IsBoundary(text, offset)
    ensures r.Some? ==> exists i, j :: 0 <= i <= |text| && BoundaryAt(text, i) == offset && Covers(text, r.value, i, j)
  {
    var bytes := Encode(text);
    ghost var n := |text|;
    assert text[..n] == text;
    if offset < 0 || offset > |bytes| || (offset < |bytes| && IsContinuation(bytes[offset])) {
      NotBoundary(text, offset);
      return None;
    }
    BoundaryExactly(text, offset);
    ghost var i: nat :| i <= n && BoundaryAt(text, i) == offset;
    var end := if |bytes| < offset + PAGE_BYTES then |bytes| else offset + PAGE_BYTES;
    while end < |bytes| && IsContinuation(bytes[end])
      invariant offset <= end <= |bytes| && end - offset <= PAGE_BYTES
      invariant forall k :: end < k <= offset + PAGE_BYTES && k < |bytes| ==> IsContinuation(bytes[k])
      invariant offset + PAGE_BYTES < |bytes| || end == |bytes|
      decreases end
    {
      end := end - 1;
    }
    BoundaryExactly(text, end);
    ghost var j: nat :| j <= n && BoundaryAt(text, j) == end;
    LastBoundary(text, i, offset, end, j);
    EncodeSlice(text, i, j);
    DecodeEncode(text[i..j]);
    var content := Decode(bytes[offset..end]);
    r := Some(Page(content.value, if end < |bytes| then Some(end) else None, |bytes|));
    assert Covers(text, r.value, i, j);
  }

  lemma NotBoundary(text: string, offset: int)
    requires offset < 0 || offset > |Encode(text)| || (offset < |Encode(text)| && IsContinuation(Encode(text)[offset]))
    ensures !IsBoundary(text, offset)
  {
    if 0 <= offset <= |Encode(text)| {
      BoundaryExactly(text, offset);
    } else if i :| 0 <= i <= |text| && BoundaryAt(text, i) == offset {
      EncodeSlice(text, i, |text|);
    }
  }

  lemma BoundaryIsUnique(text: string, i: nat, j: nat)
    requires i <= |text| && j <= |text| && BoundaryAt(text, i) == BoundaryAt(text, j)
    ensures i == j
  {
    if i < j {
      BoundariesGrow(text, i, j);
    } else if j < i {
      BoundariesGrow(text, j, i);
    }
  }

  /** Following `next_offset` from 0 ends, and the pages join to exactly the text. */
  method ReadWhole(text: string) returns (joined: string, pages: nat)
    ensures joined == text && pages <= |text| + 1
  {
    var offset: Option<nat> := Some(0);
    ghost var done := 0;
    joined, pages := "", 0;
    assert text[..0] == [];
    while offset.Some?
      invariant done <= |text| && joined == text[..done]
      invariant offset == (if done < |text| || pages == 0 then Some(BoundaryAt(text, done)) else None)
      invariant pages <= done + 1 && (done < |text| ==> pages <= done)
      decreases |text| - done, offset.Some?
    {
      assert IsBoundary(text, offset.value);
      var p := ReadPage(text, offset.value);
      ghost var i: nat, j: nat :| i <= |text| && BoundaryAt(text, i) == offset.value && Covers(text, p.value, i, j);
      BoundaryIsUnique(text, i, done);
      joined, offset, pages := joined + p.value.content, p.value.next, pages + 1;
      done := j;
    }
    assert text[..|text|] == text;
  }
}
