/**
  Logical lines.  A line ends at LF, at CRLF or at a CR that no LF follows; what remains
  after the last line ending is one more line (LSP 3.17, "Text Documents").  The functions
  take any sequence of numbers, so the same definition reads a text as scalar values and
  as UTF-8 bytes.
 */
module Lines {
  import opened Utf8

  const LF := 10
  const CR := 13

  predicate IsBreak(c: int) {
    c == LF || c == CR
  }

  /** The length of the line ending at index `i`; 0 when there is none. */
  function BreakLength(t: seq<int>, i: nat): (n: nat)
    requires i <= |t|
    ensures i + n <= |t|
  {
    if i == |t| || !IsBreak(t[i]) then 0
    else if t[i] == CR && i + 1 < |t| && t[i + 1] == LF then 2
    else 1
  }

  /** Where a line begins and ends, its line ending not counted. */
  datatype Span = Span(start: nat, end: nat)

  /** The lines from `start` on, when nothing between `start` and `cursor` ends a line. */
  function SpansFrom(t: seq<int>, cursor: nat, start: nat): (spans: seq<Span>)
    requires start <= cursor <= |t|
    ensures |spans| >= 1 && spans[0].start == start
    ensures forall k :: 0 <= k < |spans| ==> start <= spans[k].start <= spans[k].end <= |t|
    decreases |t| - cursor
  {
    if cursor == |t| then
      [Span(start, cursor)]
    else if IsBreak(t[cursor]) then
      var next := cursor + BreakLength(t, cursor);
      [Span(start, cursor)] + SpansFrom(t, next, next)
    else
      SpansFrom(t, cursor + 1, start)
  }

  function Spans(t: seq<int>): (spans: seq<Span>)
    ensures |spans| >= 1
    ensures forall k :: 0 <= k < |spans| ==> spans[k].start <= spans[k].end <= |t|
  {
    SpansFrom(t, 0, 0)
  }

  function LineCount(t: seq<int>): (n: nat)
    ensures n >= 1
  {
    |Spans(t)|
  }

  /** The text of line `k`, its line ending not counted. */
  function Line(t: Text, k: nat): Text
    requires k < LineCount(t)
  {
    t[Spans(t)[k].start..Spans(t)[k].end]
  }

  /** LF (10), CR LF (13, 10), or a CR that no LF follows: one line ending from `i` up to `j`. */
  ghost predicate LineEnding(t: seq<int>, i: int, j: int) {
    && 0 <= i <= j <= |t|
    && (|| t[i..j] == [10]
       || t[i..j] == [13, 10]
       || (t[i..j] == [13] && (j == |t| || t[j] != 10)))
  }

  /** The length of a line ending is that of LSP's three kinds of endings. */
  lemma {:induction false} BreakIsLineEnding(t: seq<int>, i: nat)
    requires i < |t|
    ensures IsBreak(t[i]) <==> t[i] == 10 || t[i] == 13
    ensures IsBreak(t[i]) ==> BreakLength(t, i) > 0 && LineEnding(t, i, i + BreakLength(t, i))
  {
    if IsBreak(t[i]) {
      var n := BreakLength(t, i);
      assert t[i..i + n] == if n == 2 then [t[i], t[i + 1]] else [t[i]];
    }
  }

  /**
    The definition means what LSP says: the lines hold no line-ending character, exactly
    one line ending lies between two of them, the first begins the text, and the last ends it.
   */
  ghost predicate Partition(t: seq<int>, spans: seq<Span>, k: nat) {
    && k < |spans| && spans[k].start <= spans[k].end <= |t|
    && (forall i :: spans[k].start <= i < spans[k].end ==> t[i] != 10 && t[i] != 13)
    && (k + 1 == |spans| ==> spans[k].end == |t|)
    && (k + 1 < |spans| ==>
          spans[k].end <= spans[k + 1].start <= |t| && LineEnding(t, spans[k].end, spans[k + 1].start))
  }

  lemma {:induction false} SpansAtBreak(t: seq<int>, cursor: nat, start: nat)
    requires start <= cursor < |t| && IsBreak(t[cursor])
    ensures var next := cursor + BreakLength(t, cursor);
            SpansFrom(t, cursor, start) == [Span(start, cursor)] + SpansFrom(t, next, next)
  {
  }

  lemma {:induction false} SpansSkip(t: seq<int>, cursor: nat, start: nat)
    requires start <= cursor < |t| && !IsBreak(t[cursor])
    ensures SpansFrom(t, cursor, start) == SpansFrom(t, cursor + 1, start)
  {
  }

  lemma {:induction false} SpansAtEnd(t: seq<int>, start: nat)
    requires start <= |t|
    ensures SpansFrom(t, |t|, start) == [Span(start, |t|)]
  {
  }

  /** One more line in front of a partition. */
  lemma {:induction false} PartitionCons(t: seq<int>, first: Span, rest: seq<Span>, k: nat)
    requires first.start <= first.end <= |t| && rest != [] && k < |rest| + 1
    requires forall j :: 0 <= j < |rest| ==> rest[j].start <= rest[j].end <= |t|
    requires forall i :: first.start <= i < first.end ==> !IsBreak(t[i])
    requires first.end < |t| && IsBreak(t[first.end]) && rest[0].start == first.end + BreakLength(t, first.end)
    requires k > 0 ==> Partition(t, rest, k - 1)
    ensures Partition(t, [first] + rest, k)
  {
    BreakIsLineEnding(t, first.end);
    hide BreakLength, LineEnding;
  }

  lemma {:induction false} SpansPartition(t: seq<int>, cursor: nat, start: nat, k: nat)
    requires start <= cursor <= |t|
    requires forall i :: start <= i < cursor ==> !IsBreak(t[i])
    requires k < |SpansFrom(t, cursor, start)|
    ensures Partition(t, SpansFrom(t, cursor, start), k)
    decreases |t| - cursor
  {
    if cursor == |t| {
      SpansAtEnd(t, start);
      hide SpansFrom;
    } else if IsBreak(t[cursor]) {
      SpansAtBreak(t, cursor, start);
      hide SpansFrom, Partition;
      var next := cursor + BreakLength(t, cursor);
      if k > 0 {
        SpansPartition(t, next, next, k - 1);
      }
      PartitionCons(t, Span(start, cursor), SpansFrom(t, next, next), k);
    } else {
      SpansSkip(t, cursor, start);
      hide SpansFrom, Partition;
      SpansPartition(t, cursor + 1, start, k);
    }
  }

  lemma {:induction false} LinesPartition(t: seq<int>, k: nat)
    requires k < LineCount(t)
    ensures Partition(t, Spans(t), k) && Spans(t)[0].start == 0
  {
    SpansPartition(t, 0, 0, k);
  }

  /** Lines lie in the text one after another with at least one character between them. */
  lemma {:induction false} LinesOrdered(t: seq<int>, j: nat, k: nat)
    requires j < k < LineCount(t)
    ensures Spans(t)[j].end < Spans(t)[k].start
    decreases k - j
  {
    LinesPartition(t, j);
    if j + 1 < k {
      LinesOrdered(t, j + 1, k);
    }
  }

  // ----- a byte scan sees the lines a scalar scan sees -----

  /** The spans `bytes` are the spans `scalars` of `t`, at their byte offsets. */
  ghost predicate AtOffsets(t: Text, scalars: seq<Span>, bytes: seq<Span>) {
    && |bytes| == |scalars|
    && forall k :: 0 <= k < |scalars| ==>
         && scalars[k].start <= |t| && scalars[k].end <= |t|
         && bytes[k] == Span(Offset(t, scalars[k].start), Offset(t, scalars[k].end))
  }

  lemma {:induction false} SkipPlain(b: seq<int>, from: nat, to: nat, start: nat)
    requires start <= from <= to <= |b|
    requires forall i :: from <= i < to ==> !IsBreak(b[i])
    ensures SpansFrom(b, from, start) == SpansFrom(b, to, start)
    decreases |b| - from
  {
    if from < to {
      SkipPlain(b, from + 1, to, start);
    }
  }

  /** A line ending is single bytes, and no other scalar's encoding contains one. */
  lemma {:induction false} EncodedBreak(t: Text, i: nat)
    requires i < |t|
    ensures Offset(t, i) < Offset(t, i + 1) <= |Encode(t)|
    ensures IsBreak(t[i]) ==> Encode(t)[Offset(t, i)] == t[i] && Offset(t, i + 1) == Offset(t, i) + 1
    ensures !IsBreak(t[i]) ==> forall k :: Offset(t, i) <= k < Offset(t, i + 1) ==> !IsBreak(Encode(t)[k])
  {
    EncodedAt(t, i);
    forall k | Offset(t, i) <= k < Offset(t, i + 1)
      ensures Encode(t)[k] == EncodeScalar(t[i])[k - Offset(t, i)]
    {
    }
  }

  lemma {:induction false} EncodedBreakLength(t: Text, i: nat)
    requires i < |t| && IsBreak(t[i])
    ensures Offset(t, i) < |Encode(t)| && Encode(t)[Offset(t, i)] == t[i]
    ensures BreakLength(Encode(t), Offset(t, i)) == BreakLength(t, i)
    ensures Offset(t, i) + BreakLength(t, i) == Offset(t, i + BreakLength(t, i))
  {
    hide Encode;
    EncodedBreak(t, i);
    var b, o := Encode(t), Offset(t, i);
    if i + 1 == |t| {
      assert t[..i + 1] == t;
      assert o + 1 == |b|;
    } else {
      EncodedBreak(t, i + 1);
      assert b[o + 1] == LF <==> t[i + 1] == LF;
    }
  }

  lemma {:induction false} ScansAgree(t: Text, cursor: nat, start: nat)
    requires start <= cursor <= |t|
    ensures Offset(t, start) <= Offset(t, cursor) <= |Encode(t)|
    ensures AtOffsets(t, SpansFrom(t, cursor, start), SpansFrom(Encode(t), Offset(t, cursor), Offset(t, start)))
    decreases |t| - cursor, 1
  {
    OffsetMonotone(t, start, cursor);
    if cursor == |t| {
      assert t[..cursor] == t;
    } else if IsBreak(t[cursor]) {
      ScansAgreeAtBreak(t, cursor, start);
    } else {
      EncodedBreak(t, cursor);
      SkipPlain(Encode(t), Offset(t, cursor), Offset(t, cursor + 1), Offset(t, start));
      ScansAgree(t, cursor + 1, start);
    }
  }

  lemma {:induction false} ScansAgreeAtBreak(t: Text, cursor: nat, start: nat)
    requires start <= cursor < |t| && IsBreak(t[cursor])
    ensures Offset(t, start) <= Offset(t, cursor) <= |Encode(t)|
    ensures AtOffsets(t, SpansFrom(t, cursor, start), SpansFrom(Encode(t), Offset(t, cursor), Offset(t, start)))
    decreases |t| - cursor, 0
  {
    hide Encode, SpansFrom;
    var next := cursor + BreakLength(t, cursor);
    OffsetMonotone(t, start, cursor);
    EncodedBreakLength(t, cursor);
    ScansAgree(t, next, next);
    SpansAtBreak(t, cursor, start);
    SpansAtBreak(Encode(t), Offset(t, cursor), Offset(t, start));
  }

  /** The lines of the UTF-8 bytes are the lines of the scalars, at their byte offsets. */
  lemma {:induction false} BytesAndScalarsAgree(t: Text)
    ensures AtOffsets(t, Spans(t), Spans(Encode(t)))
  {
    ScansAgree(t, 0, 0);
  }

  // ----- what a scanning loop knows -----

  /** A scan has passed `cursor` elements, ended `line` lines and begun the next at `start`. */
  ghost predicate Scanned(b: seq<int>, cursor: nat, line: nat, start: nat) {
    && start <= cursor <= |b|
    && line < LineCount(b)
    && Spans(b)[line..] == SpansFrom(b, cursor, start)
  }

  lemma {:induction false} ScanPassesPlain(b: seq<int>, cursor: nat, line: nat, start: nat)
    requires Scanned(b, cursor, line, start) && cursor < |b| && !IsBreak(b[cursor])
    ensures Scanned(b, cursor + 1, line, start)
  {
  }

  lemma {:induction false} ScanPassesBreak(b: seq<int>, cursor: nat, line: nat, start: nat)
    requires Scanned(b, cursor, line, start) && cursor < |b| && IsBreak(b[cursor])
    ensures Spans(b)[line] == Span(start, cursor)
    ensures line + 1 < LineCount(b)
    ensures var next := cursor + BreakLength(b, cursor); Scanned(b, next, line + 1, next)
  {
    var next := cursor + BreakLength(b, cursor);
    var rest := SpansFrom(b, next, next);
    assert Spans(b)[line..] == [Span(start, cursor)] + rest;
    assert Spans(b)[line] == Spans(b)[line..][0];
    assert Spans(b)[line + 1..] == Spans(b)[line..][1..];
  }

  lemma {:induction false} ScanEnds(b: seq<int>, line: nat, start: nat)
    requires Scanned(b, |b|, line, start)
    ensures line + 1 == LineCount(b)
    ensures Spans(b)[line] == Span(start, |b|)
  {
    assert Spans(b)[line] == Spans(b)[line..][0];
  }
}
