/**
  src/mcp/output.rs: cutting a list of results into pages by item count and by the bytes of
  their compact JSON, what a client gets that follows `nextOffset`, and why a page of
  document symbols still fits when it is rebuilt into a forest.
 */
module Pagination {
  import opened SymbolTree
  import opened Utf8
  import opened Wrappers
  import Framing

  const MAX_BYTES := 64 * 1024

  // ----- the size of one item -----

  /** Counts the bytes the serializer writes and refuses the write that would exceed the budget. */
  class ItemSize {
    var count: nat

    ghost predicate Valid()
      reads this
    {
      count <= MAX_BYTES - 2
    }

    constructor ()
      ensures Valid() && count == 0
    {
      count := 0;
    }

    method Write(bytes: Bytes) returns (ok: bool)
      requires Valid()
      modifies this
      ensures Valid()
      ensures ok <==> old(count) + |bytes| <= MAX_BYTES - 2
      ensures count == if ok then old(count) + |bytes| else old(count)
    {
      var room: nat := MAX_BYTES - 2 - count;
      ok := |bytes| <= room;
      if ok {
        count := count + |bytes|;
      }
    }
  }

  predicate Oversized(text: Bytes) {
    |text| > MAX_BYTES - 2
  }

  /** `to_writer`: the serializer may split the text into writes in any way. */
  method Measure(text: Bytes) returns (size: Option<nat>)
    ensures size == if Oversized(text) then None else Some(|text|)
  {
    var counter := new ItemSize();
    var done := 0;
    while done < |text|
      invariant done <= |text| && fresh(counter) && counter.Valid() && counter.count == done
    {
      var end: nat :| done < end <= |text|;
      var ok := counter.Write(text[done..end]);
      if !ok {
        return None;
      }
      done := end;
    }
    size := Some(counter.count);
  }

  // ----- one page -----

  /** Indexes of the items chosen and left out, the next offset, and the bytes counted so far. */
  datatype Selection = Selection(selected: seq<nat>, omitted: seq<nat>, next: nat, bytes: nat)

  /** What examining at most `limit` items from `index` on adds to `page`. */
  function Examine(items: seq<Bytes>, index: nat, limit: nat, page: Selection): Selection
    decreases limit
  {
    if limit == 0 || index >= |items| then page
    else if Oversized(items[index]) then
      Examine(items, index + 1, limit - 1, Omit(page, index))
    else if page.bytes + Cost(page, items[index]) > MAX_BYTES then page
    else
      Examine(items, index + 1, limit - 1, Choose(page, items, index))
  }

  function Cost(page: Selection, item: Bytes): nat {
    |item| + if page.selected != [] then 1 else 0
  }

  function Omit(page: Selection, index: nat): Selection {
    page.(omitted := page.omitted + [index], next := index + 1)
  }

  function Choose(page: Selection, items: seq<Bytes>, index: nat): Selection
    requires index < |items|
  {
    Selection(page.selected + [index], page.omitted, index + 1, page.bytes + Cost(page, items[index]))
  }

  function Min(a: nat, b: nat): nat {
    if a <= b then a else b
  }

  function PageAt(items: seq<Bytes>, limit: nat, offset: nat): Selection {
    var start := Min(offset, |items|);
    Examine(items, start, limit, Selection([], [], start, 2))
  }

  /** The loop of `paginate`. */
  method SelectPage(items: seq<Bytes>, limit: nat, offset: nat) returns (page: Selection)
    ensures page == PageAt(items, limit, offset)
  {
    var total := |items|;
    var start := Min(offset, total);
    var next: nat, bytes: nat := start, 2;
    var selected: seq<nat>, omitted: seq<nat> := [], [];
    var index := start;
    while index < total && index - start < limit
      invariant start <= index <= total && index - start <= limit && bytes <= MAX_BYTES
      invariant Examine(items, index, limit - (index - start), Selection(selected, omitted, next, bytes)) ==
                PageAt(items, limit, offset)
      decreases total - index
    {
      var measured := Measure(items[index]);
      if measured.None? {
        omitted := omitted + [index];
        next := index + 1;
        index := index + 1;
        continue;
      }
      var size := measured.value + if selected != [] then 1 else 0;
      var room: nat := MAX_BYTES - bytes;
      if size > room {
        return Selection(selected, omitted, next, bytes);
      }
      bytes := bytes + size;
      selected := selected + [index];
      next := index + 1;
      index := index + 1;
    }
    page := Selection(selected, omitted, next, bytes);
  }

  // ----- what a page covers -----

  /** The indexes in `from..to` of the items that fit on a page by themselves, or of those that do not. */
  function Pick(items: seq<Bytes>, oversized: bool, from: nat, to: nat): (r: seq<nat>)
    requires from <= to <= |items|
    ensures forall k :: 0 <= k < |r| ==> from <= r[k] < to
    decreases |items| - from
  {
    if from == to then []
    else (if Oversized(items[from]) == oversized then [from] else []) + Pick(items, oversized, from + 1, to)
  }

  lemma {:induction false} PickSplits(items: seq<Bytes>, oversized: bool, from: nat, mid: nat, to: nat)
    requires from <= mid <= to <= |items|
    ensures Pick(items, oversized, from, to) == Pick(items, oversized, from, mid) + Pick(items, oversized, mid, to)
    decreases |items| - from
  {
    if from < mid {
      PickSplits(items, oversized, from + 1, mid, to);
    }
  }

  lemma {:induction false} PickOneMore(items: seq<Bytes>, oversized: bool, start: nat, index: nat)
    requires start <= index < |items|
    ensures Pick(items, oversized, start, index + 1) ==
            Pick(items, oversized, start, index) + if Oversized(items[index]) == oversized then [index] else []
  {
    PickSplits(items, oversized, start, index, index + 1);
    assert Pick(items, oversized, index + 1, index + 1) == [];
  }

  /** The indexes picked are exactly those asked for, each once and in order. */
  lemma {:induction false} PickIsExact(items: seq<Bytes>, oversized: bool, from: nat, to: nat)
    requires from <= to <= |items|
    ensures forall i :: from <= i < to ==> (i in Pick(items, oversized, from, to) <==> Oversized(items[i]) == oversized)
    ensures Increasing(Pick(items, oversized, from, to))
    decreases |items| - from
  {
    if from < to {
      PickIsExact(items, oversized, from + 1, to);
      var head := if Oversized(items[from]) == oversized then [from] else [];
      var rest := Pick(items, oversized, from + 1, to);
      assert Pick(items, oversized, from, to) == head + rest;
    }
  }

  predicate Increasing(indexes: seq<nat>) {
    forall x, y :: 0 <= x < y < |indexes| ==> indexes[x] < indexes[y]
  }

  /** The elements at the given indexes. */
  function At<T>(items: seq<T>, indexes: seq<nat>): (r: seq<T>)
    requires forall k :: 0 <= k < |indexes| ==> indexes[k] < |items|
    ensures |r| == |indexes| && forall k :: 0 <= k < |r| ==> r[k] == items[indexes[k]]
  {
    if indexes == [] then [] else [items[indexes[0]]] + At(items, indexes[1..])
  }

  const COMMA: Byte := 0x2C
  const OPEN: Byte := 0x5B
  const CLOSE: Byte := 0x5D

  function Joined(texts: seq<Bytes>): Bytes {
    if texts == [] then [] else if |texts| == 1 then texts[0] else texts[0] + [COMMA] + Joined(texts[1..])
  }

  /** The JSON array of items already serialized. */
  function ArrayOf(texts: seq<Bytes>): Bytes {
    [OPEN] + Joined(texts) + [CLOSE]
  }

  lemma {:induction false} JoinOneMore(texts: seq<Bytes>, text: Bytes)
    ensures |Joined(texts + [text])| == |Joined(texts)| + |text| + if texts == [] then 0 else 1
  {
    if texts == [] {
      assert texts + [text] == [text];
    } else {
      assert (texts + [text])[1..] == texts[1..] + [text];
      JoinOneMore(texts[1..], text);
    }
  }

  /** A page under way: everything from `start` up to its next offset was chosen or left out. */
  ghost predicate Covers(items: seq<Bytes>, start: nat, page: Selection) {
    && start <= page.next <= |items|
    && page.selected == Pick(items, false, start, page.next)
    && page.omitted == Pick(items, true, start, page.next)
    && page.bytes == |ArrayOf(At(items, page.selected))| <= MAX_BYTES
  }

  /** Why the page ends where it ends, when neither the items nor the limit ran out. */
  ghost predicate Filled(items: seq<Bytes>, page: Selection) {
    && page.next < |items|
    && page.selected != [] && !Oversized(items[page.next])
    && page.bytes + 1 + |items[page.next]| > MAX_BYTES
  }

  lemma {:induction false} OmitCovers(items: seq<Bytes>, start: nat, page: Selection)
    requires Covers(items, start, page) && page.next < |items| && Oversized(items[page.next])
    ensures Covers(items, start, Omit(page, page.next))
  {
    hide Pick, Joined, At;
    PickOneMore(items, true, start, page.next);
    PickOneMore(items, false, start, page.next);
  }

  lemma {:induction false} ChooseCovers(items: seq<Bytes>, start: nat, page: Selection)
    requires Covers(items, start, page) && page.next < |items| && !Oversized(items[page.next])
    requires page.bytes + Cost(page, items[page.next]) <= MAX_BYTES
    ensures Covers(items, start, Choose(page, items, page.next))
  {
    hide Pick, Joined, At;
    PickOneMore(items, true, start, page.next);
    PickOneMore(items, false, start, page.next);
    JoinOneMore(At(items, page.selected), items[page.next]);
    assert At(items, page.selected + [page.next]) == At(items, page.selected) + [items[page.next]];
  }

  lemma {:induction false} ExamineCovers(items: seq<Bytes>, start: nat, limit: nat, page: Selection)
    requires Covers(items, start, page) && (page.next < |items| && page.selected == [] ==> page.bytes == 2)
    ensures var r := Examine(items, page.next, limit, page);
            && Covers(items, start, r) && page.next <= r.next <= page.next + limit
            && (r.next < |items| && r.next < page.next + limit ==> Filled(items, r))
    decreases limit
  {
    hide Pick, ArrayOf, At, Covers;
    CoversBounds(items, start, page);
    if limit > 0 && page.next < |items| {
      var index := page.next;
      if Oversized(items[index]) {
        OmitCovers(items, start, page);
        ExamineCovers(items, start, limit - 1, Omit(page, index));
      } else if page.bytes + Cost(page, items[index]) <= MAX_BYTES {
        ChooseCovers(items, start, page);
        ExamineCovers(items, start, limit - 1, Choose(page, items, index));
      }
    }
  }

  lemma {:induction false} CoversBounds(items: seq<Bytes>, start: nat, page: Selection)
    requires Covers(items, start, page)
    ensures start <= page.next <= |items| && page.bytes <= MAX_BYTES
  {
  }

  lemma {:induction false} EmptyPageCovers(items: seq<Bytes>, start: nat)
    requires start <= |items|
    ensures Covers(items, start, Selection([], [], start, 2))
  {
    assert Pick(items, false, start, start) == [] && Pick(items, true, start, start) == [];
    assert At(items, []) == [] && |ArrayOf([])| == 2;
  }

  /**
    A page chooses the items that fit and leaves out the oversized ones, in order and without
    a gap up to the next offset; its bytes are those of the JSON array of the chosen items,
    within the budget; and it stops early only before an item that would exceed the budget.
   */
  lemma {:induction false} PageCovers(items: seq<Bytes>, limit: nat, offset: nat)
    ensures var start, page := Min(offset, |items|), PageAt(items, limit, offset);
            && Covers(items, start, page) && page.next <= start + limit
            && (page.next < |items| && page.next < start + limit ==> Filled(items, page))
  {
    hide Covers, Examine, Filled;
    var start := Min(offset, |items|);
    EmptyPageCovers(items, start);
    ExamineCovers(items, start, limit, Selection([], [], start, 2));
  }

  /** A page makes progress as long as there is anything left. */
  lemma {:induction false} PageProgresses(items: seq<Bytes>, limit: nat, offset: nat)
    requires limit >= 1 && offset < |items|
    ensures offset < PageAt(items, limit, offset).next <= |items|
  {
    hide Examine;
    PageCovers(items, limit, offset);
    assert Pick(items, false, offset, offset) == [];
  }

  // ----- following nextOffset -----

  /** `metadata`; `omitted` is absent from the JSON when it is empty. */
  datatype Metadata = Metadata(offset: nat, limit: nat, maxBytes: nat, returned: nat, total: nat, truncated: bool,
                               nextOffset: Option<nat>, omitted: seq<nat>)

  function MetadataOf(page: Selection, total: nat, limit: nat, offset: nat): Metadata {
    Metadata(offset, limit, MAX_BYTES, |page.selected|, total, page.next < total || page.omitted != [],
             if page.next < total then Some(page.next) else None, page.omitted)
  }

  /** `truncated` is false exactly when this page holds all that there is from its offset on. */
  lemma {:induction false} TruncatedExactly(items: seq<Bytes>, limit: nat, offset: nat)
    ensures var page := PageAt(items, limit, offset);
            var start := Min(offset, |items|);
            !MetadataOf(page, |items|, limit, offset).truncated <==>
            |page.selected| == |items| - start
  {
    hide Examine, ArrayOf, At, Filled;
    var page, start := PageAt(items, limit, offset), Min(offset, |items|);
    PageCovers(items, limit, offset);
    PickCounts(items, start, page.next);
  }

  lemma {:induction false} PickCounts(items: seq<Bytes>, from: nat, to: nat)
    requires from <= to <= |items|
    ensures |Pick(items, false, from, to)| + |Pick(items, true, from, to)| == to - from
    decreases |items| - from
  {
    if from < to {
      PickCounts(items, from + 1, to);
    }
  }

  /**
    What the metadata of a page of `total` items says: what was asked for; that it has counted
    all from the offset, or the end, on up to the next offset, or the end; and whether anything is missing.
   */
  ghost predicate Tells(m: Metadata, total: nat, limit: nat, offset: nat) {
    && m.offset == offset && m.limit == limit && m.maxBytes == 65536 && m.total == total
    && m.returned + |m.omitted| <= limit
    && (if offset < total then offset else total) + m.returned + |m.omitted| ==
       (if m.nextOffset.Some? then m.nextOffset.value else total)
    && (m.nextOffset.Some? ==> m.nextOffset.value < total)
    && (m.truncated <==> offset + m.returned < total)
  }

  /** The items on a page are those of at most 65,534 bytes that it has come to, in order, and the others are omitted. */
  ghost predicate Divides(items: seq<Bytes>, from: nat, to: nat, selected: seq<nat>, omitted: seq<nat>) {
    && to <= |items|
    && (forall i :: i in selected <==> from <= i < to && |items[i]| <= 65534)
    && (forall i :: i in omitted <==> from <= i < to && |items[i]| > 65534)
    && Increasing(selected) && Increasing(omitted)
  }

  /** A page in numbers. */
  lemma {:induction false} PageInNumbers(items: seq<Bytes>, limit: nat, offset: nat)
    ensures var page := PageAt(items, limit, offset);
            var m := MetadataOf(page, |items|, limit, offset);
            && Tells(m, |items|, limit, offset) && m.omitted == page.omitted && m.returned == |page.selected|
            && page.next <= |items| && Divides(items, Min(offset, |items|), page.next, page.selected, page.omitted)
            && (forall k :: 0 <= k < |page.selected| ==> page.selected[k] < |items|)
            && |ArrayOf(At(items, page.selected))| <= 65536
            && (m.nextOffset.Some? && m.returned + |m.omitted| < limit ==>
                  |ArrayOf(At(items, page.selected))| + 1 + |items[page.next]| > 65536)
  {
    hide Examine, ArrayOf, At, Pick;
    var page, start := PageAt(items, limit, offset), Min(offset, |items|);
    PageCovers(items, limit, offset);
    PickCounts(items, start, page.next);
    PickIsExact(items, false, start, page.next);
    PickIsExact(items, true, start, page.next);
  }

  /** All that a client receives, and is told was left out, from request number `request` on. */
  function Follow(items: seq<Bytes>, limits: nat -> nat, request: nat, offset: nat): (seq<nat>, seq<nat>)
    requires forall k :: limits(k) >= 1
    decreases |items| - offset
  {
    var here := PageAt(items, limits(request), offset);
    var metadata := MetadataOf(here, |items|, limits(request), offset);
    if metadata.nextOffset.None? then (here.selected, here.omitted)
    else
      FollowDescends(items, limits(request), offset);
      var (selected, omitted) := Follow(items, limits, request + 1, metadata.nextOffset.value);
      (here.selected + selected, here.omitted + omitted)
  }

  lemma {:induction false} FollowDescends(items: seq<Bytes>, limit: nat, offset: nat)
    requires limit >= 1 && PageAt(items, limit, offset).next < |items|
    ensures offset < PageAt(items, limit, offset).next
  {
    hide Examine, Filled;
    PageCovers(items, limit, offset);
    if offset < |items| {
      PageProgresses(items, limit, offset);
    }
  }

  /**
    Whatever limits the client asks for, page by page, following `nextOffset` ends, and gives
    it every item that fits on a page, once and in order, and the index of every other item.
   */
  lemma {:induction false} FollowingCoversAll(items: seq<Bytes>, limits: nat -> nat, request: nat, offset: nat)
    requires (forall k :: limits(k) >= 1) && offset <= |items|
    ensures Follow(items, limits, request, offset) ==
            (Pick(items, false, offset, |items|), Pick(items, true, offset, |items|))
    decreases |items| - offset
  {
    hide PageAt, Examine, Filled, Pick;
    var here := PageAt(items, limits(request), offset);
    PageCovers(items, limits(request), offset);
    if here.next < |items| {
      FollowDescends(items, limits(request), offset);
      FollowingCoversAll(items, limits, request + 1, here.next);
      PickSplits(items, false, offset, here.next, |items|);
      PickSplits(items, true, offset, here.next, |items|);
    }
  }

  // ----- the size of a forest -----

  function Ascii(s: string): (r: Bytes)
    requires forall k :: 0 <= k < |s| ==> s[k] < 0x80 as char
    ensures |r| == |s|
  {
    seq(|s|, k requires 0 <= k < |s| => s[k] as int)
  }

  function Decimal(n: nat): Bytes {
    Encode(Framing.Digits(n))
  }

  /** A node's compact JSON up to its child array; `fields` ends with a comma unless it is empty. */
  function Head(n: Node): Bytes {
    Ascii("{") + n.fields + Ascii("\"index\":") + Decimal(n.index) + Ascii(",\"parentIndex\":")
    + (if n.parentIndex.None? then Ascii("null") else Decimal(n.parentIndex.value))
    + Ascii(",\"childCount\":") + Decimal(n.childCount) + Ascii(",\"children\":")
  }

  const END: Byte := 0x7D

  function Elements(nodes: seq<Node>): Bytes {
    if nodes == [] then []
    else
      var first := Head(nodes[0]) + ([OPEN] + Elements(nodes[0].children) + [CLOSE]) + [END];
      if |nodes| == 1 then first else first + [COMMA] + Elements(nodes[1..])
  }

  /** The compact JSON of a forest. */
  function Render(nodes: seq<Node>): Bytes {
    [OPEN] + Elements(nodes) + [CLOSE]
  }

  /** The compact JSON of one node. */
  function RenderNode(n: Node): Bytes {
    Head(n) + Render(n.children) + [END]
  }

  function RenderEach(nodes: seq<Node>): (r: seq<Bytes>)
    ensures |r| == |nodes| && forall k :: 0 <= k < |r| ==> r[k] == RenderNode(nodes[k])
  {
    if nodes == [] then [] else [RenderNode(nodes[0])] + RenderEach(nodes[1..])
  }

  function RenderedSize(n: Node): int {
    |RenderNode(n)|
  }

  /** The number of nonempty arrays in a forest, counting the list itself. */
  function Arrays(nodes: seq<Node>): nat {
    if nodes == [] then 0
    else Arrays(nodes[0].children) + if |nodes| == 1 then 1 else Arrays(nodes[1..])
  }

  /** Serializing a list of nodes is joining the nodes serialized one by one. */
  lemma {:induction false} RenderIsArrayOf(nodes: seq<Node>)
    ensures Render(nodes) == ArrayOf(RenderEach(nodes))
  {
    hide Head;
    ElementsAreJoined(nodes);
  }

  lemma {:induction false} ElementsAreJoined(nodes: seq<Node>)
    ensures Elements(nodes) == Joined(RenderEach(nodes))
  {
    hide Head;
    if |nodes| > 1 {
      ElementsAreJoined(nodes[1..]);
    }
  }

  /** The size of a child list, by the sizes its nodes have without their children. */
  lemma {:induction false} ElementsSize(nodes: seq<Node>)
    ensures |Elements(nodes)| + Arrays(nodes) == Sum(RenderedSize, Preorder(nodes)) + |Preorder(nodes)|
  {
    if nodes != [] {
      var children, rest := nodes[0].children, nodes[1..];
      ElementsSize(children);
      ElementsSize(rest);
      SumConcat(RenderedSize, [Bare(nodes[0])] + Preorder(children), Preorder(rest));
      SumConcat(RenderedSize, [Bare(nodes[0])], Preorder(children));
      BareSize(nodes[0]);
    }
  }

  lemma {:induction false} BareSize(n: Node)
    ensures Sum(RenderedSize, [Bare(n)]) == |Head(n)| + 3
  {
    assert [Bare(n)][1..] == [];
    assert Head(Bare(n)) == Head(n) && Elements([]) == [];
  }

  /**
    The size of any forest: the sizes of its nodes without their children, two brackets, and
    one byte a node less one for each nonempty array.
   */
  lemma {:induction false} SizeFormula(forest: seq<Node>)
    ensures |Render(forest)| == 2 + Sum(RenderedSize, Preorder(forest)) + |Preorder(forest)| - Arrays(forest)
  {
    hide Head;
    ElementsSize(forest);
  }

  // ----- a page of document symbols -----

  lemma {:induction false} WalkLength(items: seq<Node>)
    requires Rebuildable(items)
    ensures |Preorder(Forest(items))| == |items|
  {
    hide Forest, Preorder;
    EveryItemOnce(items);
    assert |multiset(Preorder(Forest(items)))| == |multiset(items)|;
  }

  lemma {:induction false} FlatWalk(items: seq<Node>)
    requires forall k :: 0 <= k < |items| ==> items[k].children == []
    ensures Preorder(items) == items && Arrays(items) == if items == [] then 0 else 1
  {
    if items != [] {
      FlatWalk(items[1..]);
      assert Bare(items[0]) == items[0];
    }
  }

  /**
    Nesting never makes a page larger: the forest is exactly one byte shorter than the flat
    list for every nonempty child array.
   */
  lemma {:induction false} ForestSize(items: seq<Node>)
    requires Rebuildable(items) && items != []
    ensures |Render(Forest(items))| == |Render(items)| - (Arrays(Forest(items)) - 1)
    ensures Arrays(Forest(items)) >= 1
  {
    hide Forest, Preorder, Render, Arrays;
    SizeFormula(items);
    SizeFormula(Forest(items));
    FlatWalk(items);
    WalkLength(items);
    ForestSum(RenderedSize, items);
    EmptyWalk();
    NonemptyWalk(Forest(items));
  }

  lemma {:induction false} EmptyWalk()
    ensures Preorder([]) == []
  {
  }

  lemma {:induction false} NonemptyWalk(forest: seq<Node>)
    requires forest != []
    ensures Arrays(forest) >= 1
  {
    if |forest| > 1 {
      NonemptyWalk(forest[1..]);
    }
  }

  /** The items a page of `flat` shows, before they are rebuilt. */
  function Chosen(flat: seq<Node>, limit: nat, offset: nat): seq<Node> {
    var page := PageAt(RenderEach(flat), limit, offset);
    PageCovers(RenderEach(flat), limit, offset);
    At(flat, page.selected)
  }

  lemma {:induction false} ChosenIsRebuildable(symbols: seq<Symbol>, limit: nat, offset: nat)
    ensures Rebuildable(Chosen(Flat(symbols, None, 0), limit, offset))
    ensures ParentsFirst(Chosen(Flat(symbols, None, 0), limit, offset))
  {
    hide Flat, Count, PageAt, RenderEach, Filled, Pick, ArrayOf;
    var flat := Flat(symbols, None, 0);
    var texts := RenderEach(flat);
    PageCovers(texts, limit, offset);
    var page := PageAt(texts, limit, offset);
    PickIsExact(texts, false, Min(offset, |texts|), page.next);
    FlatRebuildable(symbols, page.selected, Chosen(flat, limit, offset));
  }

  /** The forest of a page stays within the budget that the loop kept for the flat list. */
  lemma {:induction false} PageForestFits(symbols: seq<Symbol>, limit: nat, offset: nat)
    ensures var flat := Flat(symbols, None, 0);
            |Render(Forest(Chosen(flat, limit, offset)))| <= PageAt(RenderEach(flat), limit, offset).bytes <= MAX_BYTES
  {
    hide Flat, PageAt, Filled, Pick, Render, Arrays, Joined, ArrayOf;
    var flat := Flat(symbols, None, 0);
    var texts := RenderEach(flat);
    var items := Chosen(flat, limit, offset);
    var page := PageAt(texts, limit, offset);
    PageCovers(texts, limit, offset);
    assert At(texts, page.selected) == RenderEach(items);
    RenderIsArrayOf(items);
    if items == [] {
      assert Forest(items) == items;
    } else {
      ChosenIsRebuildable(symbols, limit, offset);
      ForestSize(items);
    }
  }

  /** A page that omits nothing walks in index order, without a gap. */
  lemma {:induction false} GaplessPage(symbols: seq<Symbol>, limit: nat, offset: nat)
    requires PageAt(RenderEach(Flat(symbols, None, 0)), limit, offset).omitted == []
    ensures var flat := Flat(symbols, None, 0);
            var start, next := Min(offset, |flat|), PageAt(RenderEach(flat), limit, offset).next;
            && start <= next <= |flat|
            && Preorder(Forest(Chosen(flat, limit, offset))) == flat[start..next]
  {
    hide *;
    var flat := Flat(symbols, None, 0);
    var texts := RenderEach(flat);
    var start, page := Min(offset, |flat|), PageAt(texts, limit, offset);
    GaplessSelection(texts, limit, offset);
    ChosenAt(flat, limit, offset);
    assert Chosen(flat, limit, offset) == flat[start..page.next];
    ContiguousPageWalk(symbols, start, page.next);
  }

  lemma {:induction false} GaplessSelection(texts: seq<Bytes>, limit: nat, offset: nat)
    requires PageAt(texts, limit, offset).omitted == []
    ensures var start, page := Min(offset, |texts|), PageAt(texts, limit, offset);
            && start <= page.next <= |texts| && |page.selected| == page.next - start
            && forall k :: 0 <= k < page.next - start ==> page.selected[k] == start + k
  {
    hide PageAt, Filled, ArrayOf, At, Pick;
    PageCovers(texts, limit, offset);
    var start, page := Min(offset, |texts|), PageAt(texts, limit, offset);
    NothingOmitted(texts, start, page.next);
  }

  lemma {:induction false} NothingOmitted(items: seq<Bytes>, from: nat, to: nat)
    requires from <= to <= |items| && Pick(items, true, from, to) == []
    ensures |Pick(items, false, from, to)| == to - from
    ensures forall k :: 0 <= k < to - from ==> Pick(items, false, from, to)[k] == from + k
    decreases |items| - from
  {
    if from < to {
      NothingOmitted(items, from + 1, to);
    }
  }

  /** A first page that is not truncated shows the whole forest. */
  lemma {:induction false} UntruncatedPage(symbols: seq<Symbol>, limit: nat)
    requires var flat := Flat(symbols, None, 0);
             !MetadataOf(PageAt(RenderEach(flat), limit, 0), |flat|, limit, 0).truncated
    ensures Forest(Chosen(Flat(symbols, None, 0), limit, 0)) == Annotated(symbols, None, 0)
  {
    hide Flat, PageAt, RenderEach, At, Forest, Annotated, Chosen;
    var flat := Flat(symbols, None, 0);
    GaplessSelection(RenderEach(flat), limit, 0);
    ChosenAt(flat, limit, 0);
    assert Chosen(flat, limit, 0) == flat;
    FullPageIsOriginal(symbols);
  }

  /** `paginate` of document symbols: what the client gets is a forest within the byte budget. */
  method PaginateSymbols(symbols: seq<Symbol>, limit: nat, offset: nat)
    returns (roots: seq<Node>, metadata: Metadata)
    ensures var flat := Flat(symbols, None, 0);
            && roots == Forest(Chosen(flat, limit, offset))
            && metadata == MetadataOf(PageAt(RenderEach(flat), limit, offset), |flat|, limit, offset)
    ensures |Render(roots)| <= 65536
    ensures Tells(metadata, Count(symbols), limit, offset) && metadata.returned == |Preorder(roots)|
    ensures var items := Chosen(Flat(symbols, None, 0), limit, offset);
            multiset(Preorder(roots)) == multiset(items) && UnderParents(roots, None, items)
    ensures var flat := Flat(symbols, None, 0);
            var start, next := Min(offset, |flat|), PageAt(RenderEach(flat), limit, offset).next;
            metadata.omitted == [] ==> start <= next <= |flat| && Preorder(roots) == flat[start..next]
    ensures offset == 0 && !metadata.truncated ==> roots == Annotated(symbols, None, 0)
  {
    hide *;
    var flattened := new FlatList();
    FlattenSymbols(symbols, None, flattened);
    var flat := flattened.items;
    assert flat == Flat(symbols, None, 0) && |flat| == Count(symbols);
    var page := SelectPage(RenderEach(flat), limit, offset);
    ghost var items := Chosen(flat, limit, offset);
    ChosenIsRebuildable(symbols, limit, offset);
    PageForestFits(symbols, limit, offset);
    ChosenAt(flat, limit, offset);
    EveryItemOnce(items);
    NodesUnderParents(items);
    roots := RebuildSymbols(At(flat, page.selected));
    metadata := MetadataOf(page, |flat|, limit, offset);
    OmittedIn(page, |flat|, limit, offset);
    PageInNumbers(RenderEach(flat), limit, offset);
    WalkLength(items);
    if metadata.omitted == [] {
      GaplessPage(symbols, limit, offset);
    }
    if offset == 0 && !metadata.truncated {
      UntruncatedPage(symbols, limit);
    }
  }

  lemma {:induction false} OmittedIn(page: Selection, total: nat, limit: nat, offset: nat)
    ensures MetadataOf(page, total, limit, offset).omitted == page.omitted
    ensures MAX_BYTES == 65536
  {
  }

  lemma {:induction false} ChosenAt(flat: seq<Node>, limit: nat, offset: nat)
    ensures var page := PageAt(RenderEach(flat), limit, offset);
            && (forall k :: 0 <= k < |page.selected| ==> page.selected[k] < |flat|)
            && Chosen(flat, limit, offset) == At(flat, page.selected)
  {
    hide PageAt, Filled, ArrayOf, RenderEach;
    PageCovers(RenderEach(flat), limit, offset);
  }
}
