/**
  src/workspace_edits.rs, first half: raw LSP text edits become byte-addressed edits of one
  file, are sorted, refused when they overlap, and spliced into the text.
 */
module WorkspaceEdits {
  import opened Wrappers
  import opened Utf8
  import opened Lines
  import opened Positions
  import Bags

  datatype RawTextEdit = RawTextEdit(range: Range, newText: Text, annotationId: Option<Text>)

  /** `start` and `end` are byte offsets into the text that the edit was normalized against. */
  datatype RenameEdit = RenameEdit(range: Range, oldText: Text, newText: Text, start: nat, end: nat)

  datatype EditError =
    | AnnotatedEdit
    | InvalidPosition(error: PositionError)
    | LineOutsideDocument(line: U32)
    | NotUtf8Boundary(position: Position)
    | ExceedsLine(position: Position)
    | Overlap

  // ----- from a UTF-8 position to a byte offset -----

  /** The byte offset of a UTF-8 position. */
  function OffsetOf(text: Text, position: Position): (r: Result<nat, EditError>)
    ensures r.Ok? ==> IsCharBoundary(Encode(text), r.value)
  {
    var bytes := Encode(text);
    if position.line >= LineCount(bytes) then
      Err(LineOutsideDocument(position.line))
    else
      var span := Spans(bytes)[position.line];
      var offset := span.start + position.character;
      if offset > |bytes| || !IsCharBoundary(bytes, offset) then Err(NotUtf8Boundary(position))
      else if offset > span.end then Err(ExceedsLine(position))
      else Ok(offset)
  }

  /** `position_offset` */
  method PositionOffset(text: Text, position: Position) returns (r: Result<nat, EditError>)
    ensures r == OffsetOf(text, position)
  {
    hide Encode, SpansFrom;
    var bytes := Encode(text);
    var line, lineStart, cursor := 0, 0, 0;
    while cursor < |bytes| && line < position.line
      invariant Scanned(bytes, cursor, line, lineStart)
      invariant line <= position.line
      invariant line == position.line ==> cursor == lineStart
      decreases |bytes| - cursor
    {
      if bytes[cursor] == CR && cursor + 1 < |bytes| && bytes[cursor + 1] == LF {
        ScanPassesBreak(bytes, cursor, line, lineStart);
        cursor := cursor + 2;
        line := line + 1;
        lineStart := cursor;
      } else if bytes[cursor] == CR || bytes[cursor] == LF {
        ScanPassesBreak(bytes, cursor, line, lineStart);
        cursor := cursor + 1;
        line := line + 1;
        lineStart := cursor;
      } else {
        ScanPassesPlain(bytes, cursor, line, lineStart);
        cursor := cursor + 1;
      }
    }
    if line != position.line {
      ScanEnds(bytes, line, lineStart);
      return Err(LineOutsideDocument(position.line));
    }
    var lineEnd := FindLineEnd(bytes, line, lineStart);
    var offset := lineStart + position.character;
    if offset > |bytes| || !IsCharBoundary(bytes, offset) {
      return Err(NotUtf8Boundary(position));
    }
    if offset > lineEnd {
      return Err(ExceedsLine(position));
    }
    r := Ok(offset);
  }

  /** `text[line_start..].find(['\r', '\n'])` */
  method FindLineEnd(bytes: Bytes, ghost line: nat, lineStart: nat) returns (lineEnd: nat)
    requires Scanned(bytes, lineStart, line, lineStart)
    ensures Spans(bytes)[line] == Span(lineStart, lineEnd)
  {
    hide SpansFrom;
    lineEnd := lineStart;
    while lineEnd < |bytes| && !IsBreak(bytes[lineEnd])
      invariant Scanned(bytes, lineEnd, line, lineStart)
      decreases |bytes| - lineEnd
    {
      ScanPassesPlain(bytes, lineEnd, line, lineStart);
      lineEnd := lineEnd + 1;
    }
    if lineEnd < |bytes| {
      ScanPassesBreak(bytes, lineEnd, line, lineStart);
    } else {
      ScanEnds(bytes, line, lineStart);
    }
  }

  lemma {:induction false} Utf8UnitsAreBytes(t: Text)
    ensures CodeUnits(t, Utf8Units) == |Encode(t)|
  {
    if t != [] {
      Utf8UnitsAreBytes(t[1..]);
    }
  }

  /** The byte offset finds a UTF-8 position exactly where LSP puts it. */
  lemma {:induction false} OffsetFindsValidPosition(text: Text, p: Position)
    requires LspIndex(text, p, Utf8Units).Some?
    ensures LspIndex(text, p, Utf8Units).value <= |text|
    ensures OffsetOf(text, p) == Ok(Offset(text, LspIndex(text, p, Utf8Units).value))
  {
    hide Encode, SpansFrom, CodeUnits, Locate;
    var line, start := Line(text, p.line), Spans(text)[p.line].start;
    var i := Locate(line, p.character, Utf8Units).index;
    LocateMeaning(line, p.character, Utf8Units);
    Utf8UnitsAreBytes(line[..i]);
    BytesAndScalarsAgree(text);
    LineOffset(text, p.line, i);
    ScalarIndexOfOffset(text, start + i);
    OffsetMonotone(text, start + i, Spans(text)[p.line].end);
  }

  lemma {:induction false} LineOffset(text: Text, k: nat, i: nat)
    requires k < LineCount(text) && i <= |Line(text, k)|
    ensures Offset(text, Spans(text)[k].start + i) == Offset(text, Spans(text)[k].start) + Offset(Line(text, k), i)
  {
    hide Encode, SpansFrom;
    var start := Spans(text)[k].start;
    assert text[..start + i] == text[..start] + Line(text, k)[..i];
    EncodeConcat(text[..start], Line(text, k)[..i]);
  }

  /** A byte offset is found for no other position, and the line is what is missing exactly when it does not exist. */
  lemma {:induction false} OffsetOnlyOfValid(text: Text, p: Position)
    ensures OffsetOf(text, p).Ok? <==> LspIndex(text, p, Utf8Units).Some?
    ensures OffsetOf(text, p) == Err(LineOutsideDocument(p.line)) <==> p.line >= LineCount(text)
  {
    hide Encode, SpansFrom, CodeUnits, Locate, ScalarIndex;
    BytesAndScalarsAgree(text);
    if LspIndex(text, p, Utf8Units).Some? {
      OffsetFindsValidPosition(text, p);
    }
    if OffsetOf(text, p).Ok? {
      var offset, span, line := OffsetOf(text, p).value, Spans(text)[p.line], Line(text, p.line);
      var x := ScalarIndex(text, offset);
      IndexBetween(text, span.start, x, span.end);
      LineOffset(text, p.line, x - span.start);
      Utf8UnitsAreBytes(line[..x - span.start]);
      LocateFinds(line, x - span.start, Utf8Units);
    }
  }

  lemma {:induction false} IndexBetween(text: Text, from: nat, x: nat, to: nat)
    requires from <= |text| && x <= |text| && to <= |text| && Offset(text, from) <= Offset(text, x) <= Offset(text, to)
    ensures from <= x <= to
  {
    hide Offset;
    if x < from {
      OffsetMonotone(text, x, from);
    }
    if to < x {
      OffsetMonotone(text, to, x);
    }
  }

  /** `position_offset` undoes `end_position`: the full-document range covers precisely the text. */
  lemma {:induction false} EndOffsetIsLength(text: Text)
    requires EndPosition(text, Utf8Units).Ok?
    ensures OffsetOf(text, EndPosition(text, Utf8Units).value) == Ok(|Encode(text)|)
  {
    hide Encode, SpansFrom, CodeUnits, Locate, EndPosition, OffsetOf;
    EndPositionMeaning(text, Utf8Units);
    OffsetFindsValidPosition(text, EndPosition(text, Utf8Units).value);
    assert text[..|text|] == text;
  }

  // ----- one edit -----

  /** What a converted range yields: both ends are boundaries, in order, at the places LSP names. */
  lemma {:induction false} ConvertedRangeIsSlice(text: Text, range: Range, encoding: PositionEncoding)
    requires ConvertRange(text, range, encoding, Utf8Units).Ok?
    ensures LspIndex(text, range.start, encoding).Some? && LspIndex(text, range.end, encoding).Some?
    ensures var r := ConvertRange(text, range, encoding, Utf8Units).value;
            var i, j := LspIndex(text, range.start, encoding).value, LspIndex(text, range.end, encoding).value;
            && i <= j <= |text|
            && OffsetOf(text, r.start) == Ok(Offset(text, i))
            && OffsetOf(text, r.end) == Ok(Offset(text, j))
            && Offset(text, i) <= Offset(text, j)
  {
    hide Encode, SpansFrom, ConvertPosition, LspIndex, OffsetOf;
    var r := ConvertRange(text, range, encoding, Utf8Units).value;
    ConvertKeepsIndex(text, range.start, encoding, Utf8Units);
    ConvertKeepsIndex(text, range.end, encoding, Utf8Units);
    OrderIsIndexOrder(text, range.start, range.end, encoding);
    OrderIsIndexOrder(text, range.end, range.start, encoding);
    OffsetFindsValidPosition(text, r.start);
    OffsetFindsValidPosition(text, r.end);
    OffsetMonotone(text, LspIndex(text, range.start, encoding).value, LspIndex(text, range.end, encoding).value);
  }

  /** `normalize_text_edit` */
  function NormalizeTextEdit(edit: RawTextEdit, text: Text, encoding: PositionEncoding): Result<RenameEdit, EditError> {
    if edit.annotationId.Some? then
      Err(AnnotatedEdit)
    else
      match ConvertRange(text, edit.range, encoding, Utf8Units)
      case Err(error) => Err(InvalidPosition(error))
      case Ok(range) =>
        ConvertedRangeIsSlice(text, edit.range, encoding);
        var start :- OffsetOf(text, range.start);
        var end :- OffsetOf(text, range.end);
        Ok(RenameEdit(range, Slice(text, start, end), edit.newText, start, end))
  }

  /** An edit in scalar coordinates: replace the scalars from `from` up to `to`. */
  datatype Splice = Splice(from: nat, to: nat, newText: Text)

  predicate Addressable(raw: RawTextEdit, text: Text, encoding: PositionEncoding) {
    LspIndex(text, raw.range.start, encoding).Some? && LspIndex(text, raw.range.end, encoding).Some?
  }

  /** What a raw edit asks for, by the LSP reading of its range. */
  function RawSplice(raw: RawTextEdit, text: Text, encoding: PositionEncoding): Splice
    requires Addressable(raw, text, encoding)
  {
    Splice(LspIndex(text, raw.range.start, encoding).value, LspIndex(text, raw.range.end, encoding).value, raw.newText)
  }

  /** The edit addresses `text`: both of its offsets can be sliced at. */
  predicate Addresses(text: Text, edit: RenameEdit) {
    edit.start <= edit.end && IsCharBoundary(Encode(text), edit.start) && IsCharBoundary(Encode(text), edit.end)
  }

  function SpliceOf(text: Text, edit: RenameEdit): (s: Splice)
    requires Addresses(text, edit)
    ensures s.from <= s.to <= |text|
    ensures Offset(text, s.from) == edit.start && Offset(text, s.to) == edit.end
  {
    var from, to := ScalarIndex(text, edit.start), ScalarIndex(text, edit.end);
    assert from <= to by {
      if to < from {
        OffsetMonotone(text, to, from);
      }
    }
    Splice(from, to, edit.newText)
  }

  /**
    A raw edit is accepted exactly when it carries no annotation and its range converts;
    the normalized edit then replaces precisely the characters that LSP names, and its old
    text is those characters.
   */
  lemma {:induction false} NormalizedEditMeaning(raw: RawTextEdit, text: Text, encoding: PositionEncoding)
    ensures var r := NormalizeTextEdit(raw, text, encoding);
            && (r.Ok? <==> raw.annotationId.None? && ConvertRange(text, raw.range, encoding, Utf8Units).Ok?)
            && (r.Err? ==>
                  r.error == if raw.annotationId.Some? then AnnotatedEdit
                             else InvalidPosition(ConvertRange(text, raw.range, encoding, Utf8Units).error))
            && (r.Ok? ==>
                  && Addressable(raw, text, encoding)
                  && Addresses(text, r.value)
                  && SpliceOf(text, r.value) == RawSplice(raw, text, encoding)
                  && r.value.oldText == text[SpliceOf(text, r.value).from..SpliceOf(text, r.value).to]
                  && ConvertRange(text, r.value.range, Utf8Units, encoding) == Ok(raw.range))
  {
    hide Encode, SpansFrom, ConvertPosition, LspIndex, OffsetOf;
    if raw.annotationId.None? && ConvertRange(text, raw.range, encoding, Utf8Units).Ok? {
      ConvertedRangeIsSlice(text, raw.range, encoding);
      RangeRoundTrip(text, raw.range, encoding, Utf8Units);
      ScalarIndexOfOffset(text, LspIndex(text, raw.range.start, encoding).value);
      ScalarIndexOfOffset(text, LspIndex(text, raw.range.end, encoding).value);
    }
  }

  // ----- sorting and overlap -----

  /** The key `(start, end)` of `sort_by_key`. */
  predicate KeyBefore(a: RenameEdit, b: RenameEdit) {
    a.start < b.start || (a.start == b.start && a.end < b.end)
  }

  predicate Sorted(edits: seq<RenameEdit>) {
    forall i, j :: 0 <= i < j < |edits| ==> !KeyBefore(edits[j], edits[i])
  }

  /** Places `edit` behind every edit whose key is not larger, so that sorting is stable. */
  function Insert(edits: seq<RenameEdit>, edit: RenameEdit): seq<RenameEdit> {
    var n := |edits|;
    if n == 0 then [edit]
    else if KeyBefore(edit, edits[n - 1]) then Insert(edits[..n - 1], edit) + [edits[n - 1]]
    else edits + [edit]
  }

  lemma {:induction false} InsertKeepsBag(edits: seq<RenameEdit>, edit: RenameEdit)
    ensures multiset(Insert(edits, edit)) == multiset(edits) + multiset{edit}
  {
    hide KeyBefore;
    var n := |edits|;
    if n > 0 {
      assert edits == edits[..n - 1] + [edits[n - 1]];
      InsertKeepsBag(edits[..n - 1], edit);
    }
  }

  lemma {:induction false} InsertMembers(edits: seq<RenameEdit>, edit: RenameEdit)
    ensures forall e :: e in Insert(edits, edit) ==> e in edits || e == edit
  {
    hide Insert;
    InsertKeepsBag(edits, edit);
    forall e | e in Insert(edits, edit)
      ensures e in edits || e == edit
    {
      assert e in multiset(Insert(edits, edit));
      assert e in multiset(edits) + multiset{edit};
    }
  }

  lemma {:induction false} AppendSorted(edits: seq<RenameEdit>, last: RenameEdit)
    requires Sorted(edits) && forall e :: e in edits ==> !KeyBefore(last, e)
    ensures Sorted(edits + [last])
  {
    hide KeyBefore;
    forall i, j | 0 <= i < j < |edits| + 1
      ensures !KeyBefore((edits + [last])[j], (edits + [last])[i])
    {
      if j == |edits| {
        assert edits[i] in edits;
      }
    }
  }

  /** In a sorted list nothing is larger than the last key. */
  lemma {:induction false} LastIsLargest(edits: seq<RenameEdit>, edit: RenameEdit)
    requires Sorted(edits) && edits != []
    ensures Sorted(edits[..|edits| - 1])
    ensures forall e :: e in edits ==> !KeyBefore(edits[|edits| - 1], e)
    ensures !KeyBefore(edit, edits[|edits| - 1]) ==> forall e :: e in edits ==> !KeyBefore(edit, e)
  {
    forall e | e in edits
      ensures !KeyBefore(edits[|edits| - 1], e)
    {
      var i :| 0 <= i < |edits| && edits[i] == e;
    }
  }

  lemma {:induction false} InsertSorted(edits: seq<RenameEdit>, edit: RenameEdit)
    requires Sorted(edits)
    ensures Sorted(Insert(edits, edit))
  {
    var n := |edits|;
    if n > 0 {
      LastIsLargest(edits, edit);
      if KeyBefore(edit, edits[n - 1]) {
        NotBothBefore(edit, edits[n - 1]);
        InsertSorted(edits[..n - 1], edit);
        InsertMembers(edits[..n - 1], edit);
        hide Insert, KeyBefore, Sorted;
        AppendSorted(Insert(edits[..n - 1], edit), edits[n - 1]);
      } else {
        hide Insert, KeyBefore, Sorted;
        AppendSorted(edits, edit);
      }
    }
  }

  lemma {:induction false} NotBothBefore(a: RenameEdit, b: RenameEdit)
    requires KeyBefore(a, b)
    ensures !KeyBefore(b, a)
  {
  }

  function SortByKey(edits: seq<RenameEdit>): (r: seq<RenameEdit>)
    ensures Sorted(r)
    ensures multiset(r) == multiset(edits)
  {
    var n := |edits|;
    if n == 0 then [] else
      assert edits == edits[..n - 1] + [edits[n - 1]];
      var front := SortByKey(edits[..n - 1]);
      InsertSorted(front, edits[n - 1]);
      InsertKeepsBag(front, edits[n - 1]);
      Insert(front, edits[n - 1])
  }

  /** What `reject_overlaps` looks at: each edit and its successor. */
  predicate NeighboursDisjoint(edits: seq<RenameEdit>) {
    forall k :: 0 <= k < |edits| - 1 ==>
      edits[k].end <= edits[k + 1].start && edits[k].start != edits[k + 1].start
  }

  /** `reject_overlaps` */
  method RejectOverlaps(edits: seq<RenameEdit>) returns (r: Result<(), EditError>)
    ensures r.Ok? <==> NeighboursDisjoint(edits)
    ensures r.Err? ==> r.error == Overlap
  {
    var windows := if |edits| < 2 then 0 else |edits| - 1;
    for k := 0 to windows
      invariant forall i :: 0 <= i < k ==>
                  edits[i].end <= edits[i + 1].start && edits[i].start != edits[i + 1].start
    {
      var left, right := edits[k], edits[k + 1];
      if right.start < left.end || right.start == left.start {
        return Err(Overlap);
      }
    }
    r := Ok(());
  }

  predicate Disjoint(a: RenameEdit, b: RenameEdit) {
    a.start != b.start && (a.end <= b.start || b.end <= a.start)
  }

  predicate AllDisjoint(edits: seq<RenameEdit>) {
    forall i, j :: 0 <= i < j < |edits| ==> Disjoint(edits[i], edits[j])
  }

  predicate Forward(edits: seq<RenameEdit>) {
    forall k :: 0 <= k < |edits| ==> edits[k].start <= edits[k].end
  }

  lemma {:induction false} NeighboursReach(edits: seq<RenameEdit>, i: nat, j: nat)
    requires Forward(edits) && NeighboursDisjoint(edits) && i < j < |edits|
    ensures edits[i].end <= edits[j].start && edits[i].start < edits[j].start
    decreases j - i
  {
    if i + 1 < j {
      NeighboursReach(edits, i + 1, j);
    }
  }

  /** Comparing neighbours of a sorted list is enough to compare all pairs. */
  lemma {:induction false} NeighboursSuffice(edits: seq<RenameEdit>)
    requires Sorted(edits) && Forward(edits)
    ensures NeighboursDisjoint(edits) <==> AllDisjoint(edits)
  {
    if NeighboursDisjoint(edits) {
      forall i, j | 0 <= i < j < |edits|
        ensures Disjoint(edits[i], edits[j])
      {
        NeighboursReach(edits, i, j);
      }
    }
    if AllDisjoint(edits) {
      forall k | 0 <= k < |edits| - 1
        ensures edits[k].end <= edits[k + 1].start && edits[k].start != edits[k + 1].start
      {
        assert Disjoint(edits[k], edits[k + 1]);
        assert !KeyBefore(edits[k + 1], edits[k]);
      }
    }
  }

  /** Pairwise disjointness, said without an order. */
  ghost predicate DisjointBag(edits: multiset<RenameEdit>) {
    && (forall e :: e in edits ==> edits[e] == 1)
    && forall d, e :: d in edits && e in edits && d != e ==> Disjoint(d, e)
  }

  lemma {:induction false} DisjointListIsBag(edits: seq<RenameEdit>)
    requires AllDisjoint(edits)
    ensures DisjointBag(multiset(edits))
  {
    if edits != [] {
      var front, last := edits[..|edits| - 1], edits[|edits| - 1];
      assert edits == front + [last];
      assert AllDisjoint(front);
      DisjointListIsBag(front);
      forall e | e in multiset(front)
        ensures Disjoint(e, last)
      {
        var k :| 0 <= k < |front| && front[k] == e;
        assert Disjoint(edits[k], edits[|front|]);
      }
    }
  }

  lemma {:induction false} DisjointBagIsList(edits: seq<RenameEdit>)
    requires DisjointBag(multiset(edits))
    ensures AllDisjoint(edits)
  {
    if edits != [] {
      var front, last := edits[..|edits| - 1], edits[|edits| - 1];
      assert edits == front + [last];
      assert multiset(edits)[last] == multiset(front)[last] + 1 == 1;
      forall e | e in multiset(front)
        ensures multiset(front)[e] == 1 && Disjoint(e, last)
      {
        assert multiset(edits)[e] == 1;
      }
      DisjointBagIsList(front);
      forall i, j | 0 <= i < j < |edits|
        ensures Disjoint(edits[i], edits[j])
      {
        if j < |front| {
          assert Disjoint(front[i], front[j]);
        } else {
          assert front[i] in multiset(front);
        }
      }
    }
  }

  lemma {:induction false} FirstIsSmallest(edits: seq<RenameEdit>, e: RenameEdit)
    requires Sorted(edits) && AllDisjoint(edits) && e in edits
    ensures e == edits[0] || edits[0].start < e.start
  {
    var i :| 0 <= i < |edits| && edits[i] == e;
    if i > 0 {
      assert !KeyBefore(edits[i], edits[0]) && Disjoint(edits[0], edits[i]);
    }
  }

  lemma {:induction false} SameFirst(a: seq<RenameEdit>, b: seq<RenameEdit>)
    requires multiset(a) == multiset(b) && a != [] && b != []
    requires Sorted(a) && Sorted(b) && AllDisjoint(a) && AllDisjoint(b)
    ensures a[0] == b[0]
  {
    hide KeyBefore, Disjoint, Sorted, AllDisjoint;
    assert a[0] in multiset(b) && b[0] in multiset(a);
    FirstIsSmallest(a, b[0]);
    FirstIsSmallest(b, a[0]);
  }

  lemma {:induction false} TailBag(a: seq<RenameEdit>)
    requires a != []
    ensures multiset(a[1..]) == multiset(a) - multiset{a[0]}
  {
    assert a == [a[0]] + a[1..];
  }

  lemma {:induction false} DisjointSortIsUnique(a: seq<RenameEdit>, b: seq<RenameEdit>)
    requires multiset(a) == multiset(b)
    requires Sorted(a) && Sorted(b) && AllDisjoint(a) && AllDisjoint(b)
    ensures a == b
  {
    hide KeyBefore, Disjoint, Sorted, AllDisjoint;
    assert |a| == |multiset(a)| == |b|;
    if a != [] {
      SameFirst(a, b);
      TailBag(a);
      TailBag(b);
      TailKeeps(a);
      TailKeeps(b);
      DisjointSortIsUnique(a[1..], b[1..]);
      assert a == [a[0]] + a[1..] && b == [b[0]] + b[1..];
    }
  }

  lemma {:induction false} TailKeeps(edits: seq<RenameEdit>)
    requires edits != [] && Sorted(edits) && AllDisjoint(edits)
    ensures Sorted(edits[1..]) && AllDisjoint(edits[1..])
  {
    var tail := edits[1..];
    forall i, j | 0 <= i < j < |tail|
      ensures !KeyBefore(tail[j], tail[i]) && Disjoint(tail[i], tail[j])
    {
      assert tail[i] == edits[i + 1] && tail[j] == edits[j + 1];
    }
  }

  // ----- all edits of one document -----

  /** Edit `k` is refused for this reason, and none before it is refused. */
  predicate FirstRefused(raws: seq<RawTextEdit>, k: nat, text: Text, encoding: PositionEncoding, error: EditError) {
    && k < |raws|
    && NormalizeTextEdit(raws[k], text, encoding) == Err(error)
    && forall j :: 0 <= j < k ==> NormalizeTextEdit(raws[j], text, encoding).Ok?
  }

  function NormalizeEach(raws: seq<RawTextEdit>, text: Text, encoding: PositionEncoding)
    : (r: Result<seq<RenameEdit>, EditError>)
    ensures r.Ok? ==> |r.value| == |raws|
    ensures r.Ok? ==> forall k :: 0 <= k < |raws| ==> NormalizeTextEdit(raws[k], text, encoding) == Ok(r.value[k])
  {
    if raws == [] then
      Ok([])
    else
      var first :- NormalizeTextEdit(raws[0], text, encoding);
      var rest :- NormalizeEach(raws[1..], text, encoding);
      Ok([first] + rest)
  }

  lemma {:induction false} FirstErrorReported(raws: seq<RawTextEdit>, text: Text, encoding: PositionEncoding)
    requires NormalizeEach(raws, text, encoding).Err?
    ensures exists k :: 0 <= k < |raws| && FirstRefused(raws, k, text, encoding, NormalizeEach(raws, text, encoding).error)
  {
    hide NormalizeTextEdit;
    var error := NormalizeEach(raws, text, encoding).error;
    if NormalizeTextEdit(raws[0], text, encoding).Err? {
      assert FirstRefused(raws, 0, text, encoding, error);
    } else {
      FirstErrorReported(raws[1..], text, encoding);
      var k :| 0 <= k < |raws| - 1 && FirstRefused(raws[1..], k, text, encoding, error);
      assert forall j :: 0 <= j < k ==> raws[1..][j] == raws[j + 1];
      assert FirstRefused(raws, k + 1, text, encoding, error);
    }
  }

  /** The edits of one document, as `normalize_workspace_edit_at_snapshot` prepares them. */
  function NormalizeDocument(raws: seq<RawTextEdit>, text: Text, encoding: PositionEncoding)
    : Result<seq<RenameEdit>, EditError>
  {
    var edits :- NormalizeEach(raws, text, encoding);
    var sorted := SortByKey(edits);
    if NeighboursDisjoint(sorted) then Ok(sorted) else Err(Overlap)
  }

  lemma {:induction false} EachPermutes(a: seq<RawTextEdit>, b: seq<RawTextEdit>, text: Text,
                                        encoding: PositionEncoding)
    requires multiset(a) == multiset(b)
    requires NormalizeEach(a, text, encoding).Ok?
    ensures NormalizeEach(b, text, encoding).Ok?
    ensures multiset(NormalizeEach(a, text, encoding).value) == multiset(NormalizeEach(b, text, encoding).value)
  {
    hide NormalizeTextEdit, NormalizeEach;
    var ra, rb := NormalizeEach(a, text, encoding), NormalizeEach(b, text, encoding);
    forall k | 0 <= k < |b|
      ensures NormalizeTextEdit(b[k], text, encoding).Ok?
    {
      assert b[k] in multiset(a);
    }
    assert rb.Ok? by {
      if rb.Err? {
        FirstErrorReported(b, text, encoding);
      }
    }
    Bags.ImagesPermute(a, ra.value, b, rb.value);
  }

  /**
    The server may list its edits in any order: acceptance, and the normalized edits and
    hence the resulting text, are the same.
   */
  lemma {:induction false} ServerOrderIrrelevant(a: seq<RawTextEdit>, b: seq<RawTextEdit>, text: Text,
                                                 encoding: PositionEncoding)
    requires multiset(a) == multiset(b)
    requires NormalizeDocument(a, text, encoding).Ok?
    ensures NormalizeDocument(b, text, encoding) == NormalizeDocument(a, text, encoding)
  {
    hide NormalizeTextEdit, NormalizeEach, SortByKey;
    EachPermutes(a, b, text, encoding);
    var ea, eb := NormalizeEach(a, text, encoding).value, NormalizeEach(b, text, encoding).value;
    var sa, sb := SortByKey(ea), SortByKey(eb);
    NormalizedAddresses(a, text, encoding);
    NormalizedAddresses(b, text, encoding);
    NeighboursSuffice(sa);
    NeighboursSuffice(sb);
    DisjointListIsBag(sa);
    DisjointBagIsList(sb);
    DisjointSortIsUnique(sa, sb);
  }

  lemma {:induction false} NormalizedAddresses(raws: seq<RawTextEdit>, text: Text, encoding: PositionEncoding)
    requires NormalizeEach(raws, text, encoding).Ok?
    ensures forall e :: e in SortByKey(NormalizeEach(raws, text, encoding).value) ==> Addresses(text, e)
    ensures Forward(SortByKey(NormalizeEach(raws, text, encoding).value))
  {
    hide NormalizeTextEdit, NormalizeEach, SortByKey, Addresses;
    var edits := NormalizeEach(raws, text, encoding).value;
    var sorted := SortByKey(edits);
    forall e | e in sorted
      ensures Addresses(text, e) && e.start <= e.end
    {
      assert e in multiset(sorted);
      assert e in edits;
      var k :| 0 <= k < |edits| && edits[k] == e;
      NormalizedEditMeaning(raws[k], text, encoding);
      AddressesForward(text, e);
    }
  }

  lemma {:induction false} AddressesForward(text: Text, e: RenameEdit)
    requires Addresses(text, e)
    ensures e.start <= e.end
  {
  }

  // ----- splicing -----

  /** Edits ready to be applied: each addresses the text and none reaches into its successor. */
  predicate Applicable(text: Text, edits: seq<RenameEdit>) {
    && (forall e :: e in edits ==> Addresses(text, e))
    && NeighboursDisjoint(edits)
  }

  predicate Ordered(splices: seq<Splice>, low: nat, high: nat) {
    if splices == [] then low <= high
    else
      var n := |splices|;
      && splices[n - 1].from <= splices[n - 1].to <= high
      && Ordered(splices[..n - 1], low, splices[n - 1].from)
  }

  function Replace(text: Text, s: Splice): Text
    requires s.from <= s.to <= |text|
  {
    text[..s.from] + s.newText + text[s.to..]
  }

  /** LSP 3.17, "TextEdit[]": all ranges refer to the original text, so the splices are made from the last to the first. */
  function LastToFirst(text: Text, splices: seq<Splice>): Text
    requires Ordered(splices, 0, |text|)
    decreases |splices|
  {
    if splices == [] then text
    else
      var n := |splices|;
      assert |Replace(text, splices[n - 1])| >= splices[n - 1].from;
      OrderedWiden(splices[..n - 1], 0, splices[n - 1].from, |Replace(text, splices[n - 1])|);
      LastToFirst(Replace(text, splices[n - 1]), splices[..n - 1])
  }

  lemma {:induction false} OrderedWiden(splices: seq<Splice>, low: nat, high: nat, higher: nat)
    requires Ordered(splices, low, high) && high <= higher
    ensures Ordered(splices, low, higher)
  {
  }

  /** Splices leave everything behind them alone. */
  lemma {:induction false} TailUntouched(text: Text, tail: Text, splices: seq<Splice>)
    requires Ordered(splices, 0, |text|) && Ordered(splices, 0, |text + tail|)
    ensures LastToFirst(text + tail, splices) == LastToFirst(text, splices) + tail
    decreases |splices|
  {
    if splices != [] {
      var n := |splices|;
      var s := splices[n - 1];
      var r := Replace(text, s);
      assert Replace(text + tail, s) == r + tail by {
        assert (text + tail)[..s.from] == text[..s.from];
        assert (text + tail)[s.to..] == text[s.to..] + tail;
      }
      OrderedWiden(splices[..n - 1], 0, s.from, |r|);
      OrderedWiden(splices[..n - 1], 0, s.from, |r + tail|);
      TailUntouched(r, tail, splices[..n - 1]);
    }
  }

  function SplicesOf(text: Text, edits: seq<RenameEdit>): (r: seq<Splice>)
    requires forall e :: e in edits ==> Addresses(text, e)
    ensures |r| == |edits|
    ensures forall k :: 0 <= k < |edits| ==> r[k] == SpliceOf(text, edits[k])
  {
    if edits == [] then [] else SplicesOf(text, edits[..|edits| - 1]) + [SpliceOf(text, edits[|edits| - 1])]
  }

  lemma {:induction false} ChainIsOrdered(splices: seq<Splice>, high: nat)
    requires forall k :: 0 <= k < |splices| ==> splices[k].from <= splices[k].to
    requires forall k :: 0 <= k < |splices| - 1 ==> splices[k].to <= splices[k + 1].from
    requires splices != [] ==> splices[|splices| - 1].to <= high
    ensures Ordered(splices, 0, high)
  {
    if splices != [] {
      ChainIsOrdered(splices[..|splices| - 1], splices[|splices| - 1].from);
    }
  }

  lemma {:induction false} ApplicableIsOrdered(text: Text, edits: seq<RenameEdit>)
    requires Applicable(text, edits)
    ensures Ordered(SplicesOf(text, edits), 0, |text|)
  {
    hide Encode, SpliceOf, Addresses, Ordered;
    forall k | 0 <= k < |edits| - 1
      ensures SpliceOf(text, edits[k]).to <= SpliceOf(text, edits[k + 1]).from
    {
      assert edits[k] in edits && edits[k + 1] in edits;
      SplicesAdjoin(text, edits[k], edits[k + 1]);
    }
    ChainIsOrdered(SplicesOf(text, edits), |text|);
  }

  lemma {:induction false} SplicesAdjoin(text: Text, left: RenameEdit, right: RenameEdit)
    requires Addresses(text, left) && Addresses(text, right) && left.end <= right.start
    ensures SpliceOf(text, left).to <= SpliceOf(text, right).from
  {
    IndexOrder(text, left.end, right.start);
  }

  /** The text that `edits` make of `text`. */
  function Edited(text: Text, edits: seq<RenameEdit>): Text
    requires Applicable(text, edits)
  {
    ApplicableIsOrdered(text, edits);
    LastToFirst(text, SplicesOf(text, edits))
  }

  /** One more edit, in the terms of the cursor loop: the text up to its end, spliced. */
  lemma {:induction false} SpliceStep(text: Text, done: seq<Splice>, last: Splice, cursor: nat)
    requires cursor <= last.from <= last.to <= |text|
    requires Ordered(done, 0, cursor)
    ensures Ordered(done, 0, cursor) && Ordered(done + [last], 0, last.to)
    ensures LastToFirst(text[..last.to], done + [last]) ==
            LastToFirst(text[..cursor], done) + text[cursor..last.from] + last.newText
  {
    var all := done + [last];
    assert all[..|all| - 1] == done;
    OrderedWiden(done, 0, cursor, last.from);
    var head := text[..last.to];
    var r := Replace(head, last);
    assert r == text[..cursor] + (text[cursor..last.from] + last.newText);
    OrderedWiden(done, 0, cursor, |r|);
    TailUntouched(text[..cursor], text[cursor..last.from] + last.newText, done);
  }

  /** The cursor loop has passed `k` edits: its output is what they make of the text up to the cursor. */
  ghost predicate Passed(text: Text, edits: seq<RenameEdit>, k: nat, cursor: nat, output: Text) {
    && k <= |edits| && Applicable(text, edits)
    && IsCharBoundary(Encode(text), cursor) && cursor <= |Encode(text)|
    && cursor == (if k == 0 then 0 else edits[k - 1].end)
    && var index, done := ScalarIndex(text, cursor), SplicesOf(text, edits[..k]);
       Ordered(done, 0, index) && output == LastToFirst(text[..index], done)
  }

  lemma {:induction false} NonePassed(text: Text, edits: seq<RenameEdit>)
    requires Applicable(text, edits)
    ensures Passed(text, edits, 0, 0, [])
  {
    hide Encode, LastToFirst, Ordered, ScalarIndex, SplicesOf, Addresses, NeighboursDisjoint;
    StartsEmpty(text);
    assert edits[..0] == [];
  }

  /** The next edit can be sliced at, not before the cursor. */
  lemma {:induction false} NextEdit(text: Text, edits: seq<RenameEdit>, k: nat, cursor: nat, output: Text)
    requires Applicable(text, edits) && k < |edits| && Passed(text, edits, k, cursor, output)
    ensures Addresses(text, edits[k]) && cursor <= edits[k].start
    ensures IsCharBoundary(Encode(text), cursor) && IsCharBoundary(Encode(text), edits[k].start)
  {
    hide Encode, LastToFirst, Ordered, ScalarIndex, SplicesOf;
  }

  lemma {:induction false} OnePassed(text: Text, edits: seq<RenameEdit>, k: nat, cursor: nat, output: Text)
    requires Applicable(text, edits) && k < |edits| && Passed(text, edits, k, cursor, output)
    requires cursor <= edits[k].start
    requires IsCharBoundary(Encode(text), cursor) && IsCharBoundary(Encode(text), edits[k].start)
    ensures Passed(text, edits, k + 1, edits[k].end, output + Slice(text, cursor, edits[k].start) + edits[k].newText)
  {
    hide Encode, LastToFirst, Ordered, ScalarIndex, SplicesOf, Slice;
    var edit := edits[k];
    assert Addresses(text, edit);
    var s, done, index := SpliceOf(text, edit), SplicesOf(text, edits[..k]), ScalarIndex(text, cursor);
    IndexOrder(text, cursor, edit.start);
    SpliceStep(text, done, s, index);
    assert edits[..k + 1][..k] == edits[..k];
    SplicesGrow(text, edits[..k + 1]);
  }

  lemma {:induction false} SplicesGrow(text: Text, edits: seq<RenameEdit>)
    requires edits != [] && forall e :: e in edits ==> Addresses(text, e)
    ensures SplicesOf(text, edits) == SplicesOf(text, edits[..|edits| - 1]) + [SpliceOf(text, edits[|edits| - 1])]
  {
    hide Addresses, SpliceOf;
  }

  lemma {:induction false} AllPassed(text: Text, edits: seq<RenameEdit>, cursor: nat, output: Text)
    requires Applicable(text, edits) && Passed(text, edits, |edits|, cursor, output)
    ensures IsCharBoundary(Encode(text), cursor) && cursor <= |Encode(text)| && IsCharBoundary(Encode(text), |Encode(text)|)
    ensures output + Slice(text, cursor, |Encode(text)|) == Edited(text, edits)
  {
    hide Encode, LastToFirst, Ordered, ScalarIndex, SplicesOf, Slice, Addresses, NeighboursDisjoint;
    assert edits[..|edits|] == edits;
    Finish(text, SplicesOf(text, edits), cursor);
  }

  /**
    `apply_edits`: one forward pass over the original text, which never slices backwards,
    does what splicing the edits one by one from the last to the first does.
   */
  method ApplyEdits(text: Text, edits: seq<RenameEdit>) returns (output: Text)
    requires Applicable(text, edits)
    ensures output == Edited(text, edits)
  {
    hide Encode, Passed, Applicable, Addresses, Slice, IsCharBoundary, Edited;
    output := [];
    var cursor: nat := 0;
    NonePassed(text, edits);
    for k := 0 to |edits|
      invariant Passed(text, edits, k, cursor, output)
    {
      NextEdit(text, edits, k, cursor, output);
      OnePassed(text, edits, k, cursor, output);
      output := output + Slice(text, cursor, edits[k].start);
      output := output + edits[k].newText;
      cursor := edits[k].end;
    }
    AllPassed(text, edits, cursor, output);
    output := output + Slice(text, cursor, |Encode(text)|);
  }

  lemma {:induction false} StartsEmpty(text: Text)
    ensures Ordered(SplicesOf(text, []), 0, 0)
    ensures LastToFirst(text[..0], SplicesOf(text, [])) == []
    ensures ScalarIndex(text, 0) == 0
  {
    ScalarIndexOfOffset(text, 0);
    assert Offset(text, 0) == 0;
  }

  lemma {:induction false} IndexOrder(text: Text, from: nat, to: nat)
    requires IsCharBoundary(Encode(text), from) && IsCharBoundary(Encode(text), to) && from <= to
    ensures ScalarIndex(text, from) <= ScalarIndex(text, to) <= |text|
    ensures Slice(text, from, to) == text[ScalarIndex(text, from)..ScalarIndex(text, to)]
  {
    hide Encode;
    if ScalarIndex(text, to) < ScalarIndex(text, from) {
      OffsetMonotone(text, ScalarIndex(text, to), ScalarIndex(text, from));
    }
  }

  lemma {:induction false} Finish(text: Text, splices: seq<Splice>, cursor: nat)
    requires IsCharBoundary(Encode(text), cursor) && cursor <= |Encode(text)|
    requires Ordered(splices, 0, ScalarIndex(text, cursor))
    ensures Ordered(splices, 0, |text|)
    ensures LastToFirst(text, splices) ==
            LastToFirst(text[..ScalarIndex(text, cursor)], splices) + Slice(text, cursor, |Encode(text)|)
  {
    hide Encode, LastToFirst, Ordered;
    var i := ScalarIndex(text, cursor);
    assert Offset(text, |text|) == |Encode(text)| by {
      assert text[..|text|] == text;
    }
    ScalarIndexOfOffset(text, |text|);
    IndexOrder(text, cursor, |Encode(text)|);
    assert text == text[..i] + text[i..];
    OrderedWiden(splices, 0, i, |text|);
    TailUntouched(text[..i], text[i..], splices);
  }

  // ----- end to end -----

  function RawSplices(raws: seq<RawTextEdit>, text: Text, encoding: PositionEncoding): (r: seq<Splice>)
    requires forall k :: 0 <= k < |raws| ==> Addressable(raws[k], text, encoding)
    ensures |r| == |raws|
    ensures forall k :: 0 <= k < |raws| ==> r[k] == RawSplice(raws[k], text, encoding)
  {
    if raws == [] then [] else RawSplices(raws[..|raws| - 1], text, encoding) + [RawSplice(raws[|raws| - 1], text, encoding)]
  }

  /**
    Whatever `NormalizeDocument` accepts can be applied without slicing backwards, and
    splices into the text exactly what the server asked for, edit for edit.
   */
  lemma {:induction false} AcceptedDocument(raws: seq<RawTextEdit>, text: Text, encoding: PositionEncoding)
    requires NormalizeDocument(raws, text, encoding).Ok?
    ensures var edits := NormalizeDocument(raws, text, encoding).value;
            && Applicable(text, edits)
            && (forall k :: 0 <= k < |raws| ==> Addressable(raws[k], text, encoding))
            && multiset(SplicesOf(text, edits)) == multiset(RawSplices(raws, text, encoding))
  {
    hide NormalizeTextEdit, NormalizeEach, SortByKey, Addresses, SpliceOf, RawSplice, LspIndex, SplicesOf, RawSplices;
    var each := NormalizeEach(raws, text, encoding).value;
    NormalizedAddresses(raws, text, encoding);
    forall k | 0 <= k < |raws|
      ensures Addresses(text, each[k]) && Addressable(raws[k], text, encoding)
      ensures SpliceOf(text, each[k]) == RawSplice(raws[k], text, encoding)
    {
      NormalizedEditMeaning(raws[k], text, encoding);
    }
    var sorted := SortByKey(each);
    Bags.ImagesPermute(sorted, SplicesOf(text, sorted), each, RawSplices(raws, text, encoding));
  }

  /** A document is refused exactly when an edit is refused or two edits touch the same place. */
  lemma {:induction false} AcceptedExactly(raws: seq<RawTextEdit>, text: Text, encoding: PositionEncoding)
    ensures NormalizeDocument(raws, text, encoding).Ok? <==>
            && (forall k :: 0 <= k < |raws| ==> NormalizeTextEdit(raws[k], text, encoding).Ok?)
            && (forall i, j :: 0 <= i < j < |raws| ==>
                  Disjoint(NormalizeTextEdit(raws[i], text, encoding).value,
                           NormalizeTextEdit(raws[j], text, encoding).value))
    ensures NormalizeDocument(raws, text, encoding).Err? ==>
              var error := NormalizeDocument(raws, text, encoding).error;
              if forall k :: 0 <= k < |raws| ==> NormalizeTextEdit(raws[k], text, encoding).Ok? then error == Overlap
              else exists k :: 0 <= k < |raws| && FirstRefused(raws, k, text, encoding, error)
  {
    hide NormalizeTextEdit, NormalizeEach, SortByKey, Disjoint, AllDisjoint, NeighboursDisjoint, Sorted, Forward,
         Addresses, DisjointBag;
    if NormalizeEach(raws, text, encoding).Ok? {
      var each := NormalizeEach(raws, text, encoding).value;
      var sorted := SortByKey(each);
      NormalizedAddresses(raws, text, encoding);
      NeighboursSuffice(sorted);
      SameDisjointness(each, sorted);
      EachDisjoint(raws, each, text, encoding);
    } else {
      FirstErrorReported(raws, text, encoding);
    }
  }

  lemma {:induction false} SameDisjointness(a: seq<RenameEdit>, b: seq<RenameEdit>)
    requires multiset(a) == multiset(b)
    ensures AllDisjoint(a) <==> AllDisjoint(b)
  {
    hide AllDisjoint, DisjointBag;
    if AllDisjoint(a) {
      DisjointListIsBag(a);
      DisjointBagIsList(b);
    }
    if AllDisjoint(b) {
      DisjointListIsBag(b);
      DisjointBagIsList(a);
    }
  }

  lemma {:induction false} EachDisjoint(raws: seq<RawTextEdit>, each: seq<RenameEdit>, text: Text,
                                        encoding: PositionEncoding)
    requires |each| == |raws| && forall k :: 0 <= k < |raws| ==> NormalizeTextEdit(raws[k], text, encoding) == Ok(each[k])
    ensures AllDisjoint(each) <==>
            forall i, j :: 0 <= i < j < |raws| ==>
              Disjoint(NormalizeTextEdit(raws[i], text, encoding).value, NormalizeTextEdit(raws[j], text, encoding).value)
  {
    hide NormalizeTextEdit, Disjoint;
  }
}
