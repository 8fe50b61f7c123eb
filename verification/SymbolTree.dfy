/**
  src/mcp/output.rs: document symbols are flattened in preorder, each annotated with its
  index, its parent's index and the number of its children; a page of the flat list is
  rebuilt into a forest.
 */
module SymbolTree {
  import opened Utf8
  import opened Wrappers

  /** `fields` is the compact JSON of the members that pagination does not touch. */
  datatype Symbol = Symbol(fields: Bytes, children: seq<Symbol>)

  datatype Node = Node(fields: Bytes, index: nat, parentIndex: Option<nat>, childCount: nat, children: seq<Node>)

  /** The parent's index, and -1 for a root. */
  function Parent(n: Node): int {
    if n.parentIndex.None? then -1 else n.parentIndex.value
  }

  function AsParent(parent: Option<nat>): int {
    if parent.None? then -1 else parent.value
  }

  function Bare(n: Node): Node {
    n.(children := [])
  }

  // ----- flattening -----

  function Count(symbols: seq<Symbol>): nat {
    if symbols == [] then 0 else 1 + Count(symbols[0].children) + Count(symbols[1..])
  }

  /** The flat list that starts with index `base`. */
  function Flat(symbols: seq<Symbol>, parent: Option<nat>, base: nat): (r: seq<Node>)
    ensures |r| == Count(symbols)
  {
    if symbols == [] then []
    else
      var children := symbols[0].children;
      [Node(symbols[0].fields, base, parent, |children|, [])]
      + Flat(children, Some(base), base + 1)
      + Flat(symbols[1..], parent, base + 1 + Count(children))
  }

  /** The shared vector that `flatten_symbols` pushes into. */
  class FlatList {
    var items: seq<Node>

    constructor ()
      ensures items == []
    {
      items := [];
    }
  }

  /** `flatten_symbols` */
  method FlattenSymbols(symbols: seq<Symbol>, parent: Option<nat>, flattened: FlatList)
    modifies flattened
    ensures flattened.items == old(flattened.items) + Flat(symbols, parent, |old(flattened.items)|)
  {
    hide Flat, Count;
    ghost var before := flattened.items;
    for k := 0 to |symbols|
      invariant |flattened.items| >= |before|
      invariant flattened.items + Flat(symbols[k..], parent, |flattened.items|) ==
                before + Flat(symbols, parent, |before|)
    {
      assert symbols[k..][0] == symbols[k] && symbols[k..][1..] == symbols[k + 1..];
      var children := symbols[k].children;
      var index := |flattened.items|;
      FlatUnfolds(symbols[k..], parent, index);
      ghost var done := flattened.items;
      flattened.items := flattened.items + [Node(symbols[k].fields, index, parent, |children|, [])];
      FlattenSymbols(children, Some(index), flattened);
      Regroup(done, [Node(symbols[k].fields, index, parent, |children|, [])], Flat(children, Some(index), index + 1),
              Flat(symbols[k + 1..], parent, |flattened.items|));
    }
    FlatEmpty(parent, |flattened.items|);
    assert symbols[|symbols|..] == [];
  }

  lemma {:induction false} Regroup(a: seq<Node>, b: seq<Node>, c: seq<Node>, d: seq<Node>)
    ensures ((a + b) + c) + d == a + (b + c + d)
  {
  }

  lemma {:induction false} FlatEmpty(parent: Option<nat>, base: nat)
    ensures Flat([], parent, base) == []
  {
  }

  lemma {:induction false} FlatUnfolds(symbols: seq<Symbol>, parent: Option<nat>, base: nat)
    requires symbols != []
    ensures var children := symbols[0].children;
            && Flat(symbols, parent, base) ==
               [Node(symbols[0].fields, base, parent, |children|, [])]
               + Flat(children, Some(base), base + 1)
               + Flat(symbols[1..], parent, base + 1 + Count(children))
            && Count(symbols) == 1 + Count(children) + Count(symbols[1..])
  {
  }

  /** Where entry `k` comes from. */
  lemma {:induction false} FlatPart(symbols: seq<Symbol>, parent: Option<nat>, base: nat, k: nat)
    requires k < Count(symbols)
    ensures symbols != []
    ensures var children := symbols[0].children;
            var sub := Count(children);
            && Count(symbols) == 1 + sub + Count(symbols[1..])
            && Flat(symbols, parent, base)[k] ==
               if k == 0 then Node(symbols[0].fields, base, parent, |children|, [])
               else if k <= sub then Flat(children, Some(base), base + 1)[k - 1]
               else Flat(symbols[1..], parent, base + 1 + sub)[k - 1 - sub]
  {
    if symbols != [] {
      FlatUnfolds(symbols, parent, base);
    }
  }

  /** Entry `k` has index `base + k`; its parent is the given one or an earlier entry. */
  lemma {:induction false} FlatEntry(symbols: seq<Symbol>, parent: Option<nat>, base: nat, k: nat)
    requires k < Count(symbols)
    ensures var n := Flat(symbols, parent, base)[k];
            && n.index == base + k && n.children == []
            && (n.parentIndex == parent || base <= Parent(n) < base + k)
  {
    hide Flat, Count;
    FlatPart(symbols, parent, base, k);
    var sub := Count(symbols[0].children);
    if 0 < k <= sub {
      FlatEntry(symbols[0].children, Some(base), base + 1, k - 1);
    } else if k > sub {
      FlatEntry(symbols[1..], parent, base + 1 + sub, k - 1 - sub);
    }
  }

  /** Preorder: what lies between an entry and its parent lies below that parent. */
  lemma {:induction false} FlatNested(symbols: seq<Symbol>, parent: Option<nat>, base: nat, j: nat, k: nat)
    requires j < k < Count(symbols) && AsParent(parent) < base
    requires Parent(Flat(symbols, parent, base)[k]) < base + j
    ensures Parent(Flat(symbols, parent, base)[k]) <= Parent(Flat(symbols, parent, base)[j])
  {
    hide Flat, Count;
    FlatPart(symbols, parent, base, j);
    FlatPart(symbols, parent, base, k);
    var sub := Count(symbols[0].children);
    FlatEntry(symbols, parent, base, k);
    FlatEntry(symbols, parent, base, j);
    if 0 < j && k <= sub {
      FlatNested(symbols[0].children, Some(base), base + 1, j - 1, k - 1);
    } else if j > sub {
      FlatNested(symbols[1..], parent, base + 1 + sub, j - 1 - sub, k - 1 - sub);
    } else if k > sub {
      FlatEntry(symbols[1..], parent, base + 1 + sub, k - 1 - sub);
    }
  }

  // ----- rebuilding -----

  predicate Ascending(items: seq<Node>) {
    forall i, j :: 0 <= i < j < |items| ==> items[i].index < items[j].index
  }

  predicate Rebuildable(items: seq<Node>) {
    Ascending(items) && forall k :: 0 <= k < |items| ==> items[k].children == []
  }

  /** The position below `m` of the item with the given index, or -1. */
  function Find(items: seq<Node>, m: nat, index: int): (p: int)
    requires m <= |items|
    ensures -1 <= p < m
    ensures p >= 0 ==> items[p].index == index
    ensures p == -1 ==> forall k :: 0 <= k < m ==> items[k].index != index
  {
    if m == 0 then -1 else if items[m - 1].index == index then m - 1 else Find(items, m - 1, index)
  }

  /** The position on the page of the parent of item `m`, or -1 when it is not there. */
  function ParentAt(items: seq<Node>, m: nat): (p: int)
    requires m < |items|
    ensures -1 <= p < m
  {
    Find(items, m, Parent(items[m]))
  }

  /** The subtrees at the items from `m` on whose parent on the page is at `p`. */
  function Kids(items: seq<Node>, p: int, m: nat): seq<Node>
    requires m <= |items|
    decreases |items| - m, 0
  {
    if m == |items| then []
    else if ParentAt(items, m) == p then [Subtree(items, m)] + Kids(items, p, m + 1)
    else Kids(items, p, m + 1)
  }

  function Subtree(items: seq<Node>, m: nat): Node
    requires m < |items|
    decreases |items| - m - 1, 1
  {
    items[m].(children := Kids(items, m, m + 1))
  }

  /** The forest of a page: every item under its parent when that is on the page, and a root otherwise. */
  function Forest(items: seq<Node>): seq<Node> {
    Kids(items, -1, 0)
  }

  function Reverse(s: seq<Node>): (r: seq<Node>)
    ensures |r| == |s|
  {
    if s == [] then [] else Reverse(s[1..]) + [s[0]]
  }

  lemma {:induction false} ReverseAppend(s: seq<Node>, n: Node)
    ensures Reverse([n] + s) == Reverse(s) + [n]
  {
    assert ([n] + s)[1..] == s;
  }

  lemma {:induction false} ReverseConcat(a: seq<Node>, b: seq<Node>)
    ensures Reverse(a + b) == Reverse(b) + Reverse(a)
  {
    if a == [] {
      assert a + b == b;
    } else {
      assert (a + b)[1..] == a[1..] + b;
      ReverseConcat(a[1..], b);
    }
  }

  lemma {:induction false} ReverseTwice(s: seq<Node>)
    ensures Reverse(Reverse(s)) == s
  {
    if s != [] {
      ReverseConcat(Reverse(s[1..]), [s[0]]);
      ReverseTwice(s[1..]);
      assert [s[0]][1..] == [];
    }
  }

  lemma {:induction false} FindUnique(items: seq<Node>, m: nat, k: nat)
    requires Ascending(items) && k < m <= |items|
    ensures Find(items, m, items[k].index) == k
  {
    if k < m - 1 {
      assert items[k].index < items[m - 1].index;
      FindUnique(items, m - 1, k);
    }
  }

  /** The map of nodes still to be placed holds items `0..m`, each with its children from `m` on. */
  ghost predicate Pending(nodes: map<nat, Node>, items: seq<Node>, m: nat) {
    && m <= |items|
    && (forall k :: 0 <= k < m ==>
          items[k].index in nodes && nodes[items[k].index] == items[k].(children := Kids(items, k, m)))
    && forall key :: key in nodes ==> Find(items, m, key) >= 0
  }

  lemma {:induction false} NoKids(items: seq<Node>, p: int)
    ensures Kids(items, p, |items|) == []
  {
  }

  lemma {:induction false} KidsUnfold(items: seq<Node>, p: int, m: nat)
    requires m < |items|
    ensures Kids(items, p, m) ==
            if ParentAt(items, m) == p then [Subtree(items, m)] + Kids(items, p, m + 1) else Kids(items, p, m + 1)
  {
  }

  lemma {:induction false} LastPending(nodes: map<nat, Node>, items: seq<Node>, m: nat)
    requires Rebuildable(items) && m < |items| && Pending(nodes, items, m + 1)
    ensures items[m].index in nodes && nodes[items[m].index] == Subtree(items, m)
    ensures forall key :: key in nodes ==> key <= items[m].index
  {
    hide Kids;
    forall key | key in nodes
      ensures key <= items[m].index
    {
      var k := Find(items, m + 1, key);
      if k < m {
        assert items[k].index < items[m].index;
      }
    }
  }

  /** The nodes that remain when the last is taken out still lack it among their children. */
  lemma {:induction false} RestPending(nodes: map<nat, Node>, items: seq<Node>, m: nat)
    requires Rebuildable(items) && m < |items| && Pending(nodes, items, m + 1)
    ensures var rest := nodes - {items[m].index};
            && (forall k :: 0 <= k < m ==>
                  items[k].index in rest && rest[items[k].index] == items[k].(children := Kids(items, k, m + 1)))
            && (forall key :: key in rest ==> Find(items, m, key) >= 0)
  {
    hide Kids;
    var rest := nodes - {items[m].index};
    forall key | key in rest
      ensures Find(items, m, key) >= 0
    {
      assert Find(items, m + 1, key) >= 0;
    }
    forall k | 0 <= k < m
      ensures items[k].index in rest
    {
      assert items[k].index < items[m].index;
    }
  }

  /** A root leaves the other nodes complete. */
  lemma {:induction false} PlaceRoot(nodes: map<nat, Node>, items: seq<Node>, m: nat)
    requires Rebuildable(items) && m < |items| && Pending(nodes, items, m + 1) && ParentAt(items, m) == -1
    ensures Parent(items[m]) >= 0 ==> Parent(items[m]) !in nodes - {items[m].index}
    ensures Pending(nodes - {items[m].index}, items, m)
  {
    hide Kids, Subtree;
    RestPending(nodes, items, m);
    forall k | 0 <= k < m
      ensures Kids(items, k, m) == Kids(items, k, m + 1)
    {
      KidsUnfold(items, k, m);
    }
  }

  function AddFirstChild(nodes: map<nat, Node>, key: nat, child: Node): map<nat, Node>
    requires key in nodes
  {
    nodes[key := nodes[key].(children := [child] + nodes[key].children)]
  }

  lemma {:induction false} AddedAt(nodes: map<nat, Node>, key: nat, child: Node, other: nat)
    requires key in nodes
    ensures var after := AddFirstChild(nodes, key, child);
            && (other in after <==> other in nodes)
            && (other in nodes && other != key ==> after[other] == nodes[other])
            && (other == key ==> after[other] == nodes[other].(children := [child] + nodes[other].children))
  {
  }

  lemma {:induction false} KidsOfOthers(items: seq<Node>, m: nat, k: nat)
    requires Ascending(items) && k < m < |items|
    ensures k == ParentAt(items, m) ==> Kids(items, k, m) == [Subtree(items, m)] + Kids(items, k, m + 1)
    ensures k != ParentAt(items, m) ==> Kids(items, k, m) == Kids(items, k, m + 1)
    ensures ParentAt(items, m) >= 0 ==>
              items[ParentAt(items, m)].index == Parent(items[m]) &&
              (k != ParentAt(items, m) ==> items[k].index != Parent(items[m]))
  {
    hide Kids, Subtree;
    KidsUnfold(items, k, m);
    FindUnique(items, m, k);
  }

  /** Any other node becomes the first child of its parent. */
  lemma {:induction false} PlaceChild(nodes: map<nat, Node>, items: seq<Node>, m: nat)
    requires Rebuildable(items) && m < |items| && Pending(nodes, items, m + 1) && ParentAt(items, m) >= 0
    ensures var rest, key := nodes - {items[m].index}, Parent(items[m]);
            key >= 0 && key in rest && Pending(AddFirstChild(rest, key, Subtree(items, m)), items, m)
  {
    hide Kids, Subtree, ParentAt, Find, AddFirstChild, Ascending;
    RestPending(nodes, items, m);
    var rest, p, child := nodes - {items[m].index}, ParentAt(items, m), Subtree(items, m);
    KidsOfOthers(items, m, p);
    assert items[p].index in rest;
    var key := items[p].index;
    forall k | 0 <= k < m
      ensures var after := AddFirstChild(rest, key, child);
              items[k].index in after && after[items[k].index] == items[k].(children := Kids(items, k, m))
    {
      KidsOfOthers(items, m, k);
      AddedAt(rest, key, child, items[k].index);
    }
    forall other | other in AddFirstChild(rest, key, child)
      ensures other in rest
    {
      AddedAt(rest, key, child, other);
    }
  }

  /** `BTreeMap::pop_last` */
  method PopLast(nodes: map<nat, Node>, ghost last: nat) returns (key: nat, node: Node, rest: map<nat, Node>)
    requires last in nodes && forall k :: k in nodes ==> k <= last
    ensures key == last && node == nodes[key] && rest == nodes - {key}
  {
    key :| key in nodes && forall k :: k in nodes ==> k <= key;
    node, rest := nodes[key], nodes - {key};
  }

  /** One turn of the loop of `rebuild_symbols`. */
  method PlaceLast(nodes: map<nat, Node>, roots: seq<Node>, ghost items: seq<Node>, ghost m: nat)
    returns (nodes': map<nat, Node>, roots': seq<Node>)
    requires Rebuildable(items) && m < |items| && Pending(nodes, items, m + 1)
    ensures Pending(nodes', items, m)
    ensures roots' == if ParentAt(items, m) == -1 then roots + [Subtree(items, m)] else roots
  {
    hide Kids, Subtree, Pending;
    LastPending(nodes, items, m);
    SubtreeParent(items, m);
    if ParentAt(items, m) >= 0 {
      PlaceChild(nodes, items, m);
    } else {
      PlaceRoot(nodes, items, m);
    }
    var key, symbol, rest := PopLast(nodes, items[m].index);
    if symbol.parentIndex.Some? && symbol.parentIndex.value in rest {
      nodes' := AddFirstChild(rest, symbol.parentIndex.value, symbol);
      roots' := roots;
    } else {
      nodes' := rest;
      roots' := roots + [symbol];
    }
  }

  /** The map that `rebuild_symbols` collects first */
  method NodesByIndex(symbols: seq<Node>) returns (nodes: map<nat, Node>)
    requires Rebuildable(symbols)
    ensures Pending(nodes, symbols, |symbols|)
  {
    hide Kids, Pending, Find;
    nodes := map k | 0 <= k < |symbols| :: symbols[k].index := symbols[k];
    StartPending(nodes, symbols);
  }

  /** `rebuild_symbols` */
  method RebuildSymbols(symbols: seq<Node>) returns (roots: seq<Node>)
    requires Rebuildable(symbols)
    ensures roots == Forest(symbols)
  {
    hide Kids, Subtree, Pending, Reverse, ParentAt, Rebuildable;
    var nodes := NodesByIndex(symbols);
    ghost var m: nat := |symbols|;
    NoKids(symbols, -1);
    ReverseEmpty();
    roots := [];
    while nodes.Keys != {}
      invariant m <= |symbols| && Pending(nodes, symbols, m)
      invariant roots == Reverse(Kids(symbols, -1, m))
      decreases m
    {
      NonEmptyPending(nodes, symbols, m);
      m := m - 1;
      KidsUnfold(symbols, -1, m);
      ReverseAppend(Kids(symbols, -1, m + 1), Subtree(symbols, m));
      nodes, roots := PlaceLast(nodes, roots, symbols, m);
    }
    if m > 0 {
      PendingHas(nodes, symbols, m);
    }
    ReverseTwice(Kids(symbols, -1, 0));
    roots := Reverse(roots);
  }

  lemma {:induction false} ReverseEmpty()
    ensures Reverse([]) == []
  {
  }

  lemma {:induction false} SubtreeParent(items: seq<Node>, m: nat)
    requires m < |items|
    ensures Subtree(items, m).parentIndex == items[m].parentIndex
  {
  }

  lemma {:induction false} StartPending(nodes: map<nat, Node>, items: seq<Node>)
    requires Rebuildable(items)
    requires nodes == map k | 0 <= k < |items| :: items[k].index := items[k]
    ensures Pending(nodes, items, |items|)
  {
    forall k | 0 <= k < |items|
      ensures items[k].index in nodes && nodes[items[k].index] == items[k].(children := Kids(items, k, |items|))
    {
      NoKids(items, k);
    }
    forall key | key in nodes
      ensures Find(items, |items|, key) >= 0
    {
      var k :| 0 <= k < |items| && items[k].index == key;
    }
  }

  lemma {:induction false} NonEmptyPending(nodes: map<nat, Node>, items: seq<Node>, m: nat)
    requires m <= |items| && Pending(nodes, items, m) && nodes.Keys != {}
    ensures m > 0
  {
    var key :| key in nodes.Keys;
    assert Find(items, m, key) >= 0;
  }

  lemma {:induction false} PendingHas(nodes: map<nat, Node>, items: seq<Node>, m: nat)
    requires 0 < m <= |items| && Pending(nodes, items, m)
    ensures nodes.Keys != {}
  {
    assert items[0].index in nodes.Keys;
  }

  // ----- what the forest of a page holds -----

  /** The walk of a forest, each node before its children, the child arrays left out. */
  function Preorder(forest: seq<Node>): seq<Node> {
    if forest == [] then [] else [Bare(forest[0])] + Preorder(forest[0].children) + Preorder(forest[1..])
  }

  lemma {:induction false} PreorderConcat(a: seq<Node>, b: seq<Node>)
    ensures Preorder(a + b) == Preorder(a) + Preorder(b)
  {
    if a == [] {
      assert a + b == b;
    } else {
      assert (a + b)[0] == a[0] && (a + b)[1..] == a[1..] + b;
      PreorderConcat(a[1..], b);
    }
  }

  lemma {:induction false} PreorderOne(n: Node)
    ensures Preorder([n]) == [Bare(n)] + Preorder(n.children)
  {
    assert [n][1..] == [];
  }

  function Sum(f: Node -> int, nodes: seq<Node>): int {
    if nodes == [] then 0 else f(nodes[0]) + Sum(f, nodes[1..])
  }

  lemma {:induction false} SumConcat(f: Node -> int, a: seq<Node>, b: seq<Node>)
    ensures Sum(f, a + b) == Sum(f, a) + Sum(f, b)
  {
    if a == [] {
      assert a + b == b;
    } else {
      assert (a + b)[1..] == a[1..] + b;
      SumConcat(f, a[1..], b);
    }
  }

  /** What the walks of the children lists of items `-1..hi`, filled from `m` on, add up to. */
  function Total(f: Node -> int, items: seq<Node>, hi: nat, m: nat): int
    requires m <= |items|
  {
    if hi == 0 then Sum(f, Preorder(Kids(items, -1, m)))
    else Total(f, items, hi - 1, m) + Sum(f, Preorder(Kids(items, hi - 1, m)))
  }

  lemma {:induction false} SubtreeSum(f: Node -> int, items: seq<Node>, p: int, m: nat)
    requires m < |items|
    ensures Sum(f, Preorder(Kids(items, p, m))) ==
            Sum(f, Preorder(Kids(items, p, m + 1))) +
            if ParentAt(items, m) == p then f(Bare(items[m])) + Sum(f, Preorder(Kids(items, m, m + 1))) else 0
  {
    KidsUnfold(items, p, m);
    if ParentAt(items, m) == p {
      var n := Subtree(items, m);
      assert Bare(n) == Bare(items[m]) && n.children == Kids(items, m, m + 1);
      hide Kids, Subtree, Preorder;
      PreorderConcat([n], Kids(items, p, m + 1));
      PreorderOne(n);
      SumConcat(f, Preorder([n]), Preorder(Kids(items, p, m + 1)));
      SumConcat(f, [Bare(n)], Preorder(n.children));
      assert [Bare(n)][1..] == [];
    }
  }

  /** Placing item `m` adds it, with what was already under it, to exactly one list. */
  lemma {:induction false} TotalStep(f: Node -> int, items: seq<Node>, hi: nat, m: nat)
    requires m < |items|
    ensures Total(f, items, hi, m) ==
            Total(f, items, hi, m + 1) +
            if ParentAt(items, m) < hi then f(Bare(items[m])) + Sum(f, Preorder(Kids(items, m, m + 1))) else 0
  {
    hide Kids, Subtree, Preorder, Sum;
    SubtreeSum(f, items, hi - 1, m);
    if hi > 0 {
      TotalStep(f, items, hi - 1, m);
    }
  }

  lemma {:induction false} TotalIsSum(f: Node -> int, items: seq<Node>, m: nat)
    requires m <= |items|
    requires forall k :: 0 <= k < |items| ==> items[k].children == []
    ensures Total(f, items, m, m) == Sum(f, items[m..])
    decreases |items| - m
  {
    if m == |items| {
      AllEmpty(f, items, m);
    } else {
      TotalIsSum(f, items, m + 1);
      TotalStep(f, items, m, m);
      assert Bare(items[m]) == items[m];
      assert items[m..][1..] == items[m + 1..];
    }
  }

  lemma {:induction false} AllEmpty(f: Node -> int, items: seq<Node>, hi: nat)
    ensures Total(f, items, hi, |items|) == 0
  {
    NoKids(items, hi - 1);
    if hi > 0 {
      AllEmpty(f, items, hi - 1);
    }
  }

  /** Any additive measure of the page is a measure of its forest: nothing is lost or doubled. */
  lemma {:induction false} ForestSum(f: Node -> int, items: seq<Node>)
    requires Rebuildable(items)
    ensures Sum(f, Preorder(Forest(items))) == Sum(f, items)
  {
    TotalIsSum(f, items, 0);
    assert items[0..] == items;
  }

  lemma {:induction false} SumCounts(s: seq<Node>, x: Node)
    ensures Sum((n: Node) => if n == x then 1 else 0, s) == multiset(s)[x]
  {
    if s != [] {
      assert s == [s[0]] + s[1..];
      SumCounts(s[1..], x);
    }
  }

  /** Every item of the page is in the forest, once. */
  lemma {:induction false} EveryItemOnce(items: seq<Node>)
    requires Rebuildable(items)
    ensures multiset(Preorder(Forest(items))) == multiset(items)
  {
    forall x: Node
      ensures multiset(Preorder(Forest(items)))[x] == multiset(items)[x]
    {
      ForestSum((n: Node) => if n == x then 1 else 0, items);
      SumCounts(Preorder(Forest(items)), x);
      SumCounts(items, x);
    }
  }

  /** Every node is under the node with its parent's index, and is a root only if that one is not on the page. */
  ghost predicate UnderParents(forest: seq<Node>, above: Option<nat>, items: seq<Node>) {
    forall k :: 0 <= k < |forest| ==>
      && (above.Some? ==> forest[k].parentIndex == above)
      && (above.None? ==> forall i :: 0 <= i < |items| ==> items[i].index != Parent(forest[k]))
      && UnderParents(forest[k].children, Some(forest[k].index), items)
  }

  lemma {:induction false} NothingUnder(above: Option<nat>, items: seq<Node>)
    ensures UnderParents([], above, items)
  {
  }

  function IndexAt(items: seq<Node>, p: int): Option<nat> {
    if 0 <= p < |items| then Some(items[p].index) else None
  }

  /** Every item follows its parent. */
  predicate ParentsFirst(items: seq<Node>) {
    forall k :: 0 <= k < |items| ==> Parent(items[k]) < items[k].index
  }

  lemma {:induction false} KidsUnderParents(items: seq<Node>, p: int, m: nat)
    requires Rebuildable(items) && ParentsFirst(items) && m <= |items| && -1 <= p < |items|
    ensures UnderParents(Kids(items, p, m), IndexAt(items, p), items)
    decreases |items| - m
  {
    hide Kids, Subtree, ParentAt, Find, UnderParents, Rebuildable;
    if m == |items| {
      NoKids(items, p);
      NothingUnder(IndexAt(items, p), items);
    } else {
      KidsUnderParents(items, p, m + 1);
      KidsUnfold(items, p, m);
      if ParentAt(items, m) == p {
        KidsUnderParents(items, m, m + 1);
        SubtreeUnderParent(items, p, m);
        UnderParentsCons(Subtree(items, m), Kids(items, p, m + 1), IndexAt(items, p), items);
      }
    }
  }

  lemma {:induction false} SubtreeUnderParent(items: seq<Node>, p: int, m: nat)
    requires Rebuildable(items) && m < |items| && ParentAt(items, m) == p
    requires Parent(items[m]) < items[m].index
    ensures var n := Subtree(items, m);
            && n.index == items[m].index && n.children == Kids(items, m, m + 1)
            && (p >= 0 ==> n.parentIndex == Some(items[p].index))
            && (p < 0 ==> forall i :: 0 <= i < |items| ==> items[i].index != Parent(n))
  {
    hide Kids;
    if p < 0 {
      forall i | 0 <= i < |items|
        ensures items[i].index != Parent(items[m])
      {
        if i > m {
          assert items[m].index < items[i].index;
        }
      }
    }
  }

  lemma {:induction false} UnderParentsCons(n: Node, rest: seq<Node>, above: Option<nat>, items: seq<Node>)
    requires UnderParents(rest, above, items)
    requires above.Some? ==> n.parentIndex == above
    requires above.None? ==> forall i :: 0 <= i < |items| ==> items[i].index != Parent(n)
    requires UnderParents(n.children, Some(n.index), items)
    ensures UnderParents([n] + rest, above, items)
  {
  }

  /** On any page, a node sits under its parent exactly when that parent is on the page. */
  lemma {:induction false} NodesUnderParents(items: seq<Node>)
    requires Rebuildable(items)
    requires ParentsFirst(items)
    ensures UnderParents(Forest(items), None, items)
  {
    if items != [] {
      KidsUnderParents(items, -1, 0);
    }
  }

  // ----- when the walk of the forest is the page -----

  /** Between an item and its parent on the page there are only items below that parent. */
  ghost predicate Nested(items: seq<Node>) {
    forall k :: 0 <= k < |items| ==> NestedAt(items, k)
  }

  ghost predicate NestedAt(items: seq<Node>, k: nat) {
    && k < |items|
    && forall j :: ParentAt(items, k) < j < k ==> ParentAt(items, k) <= ParentAt(items, j)
  }

  /** The first item from `m` on whose parent lies before `p`. */
  function SpanEnd(items: seq<Node>, p: int, m: nat): (e: nat)
    requires m <= |items|
    ensures m <= e <= |items|
    ensures forall j :: m <= j < e ==> ParentAt(items, j) >= p
    ensures e < |items| ==> ParentAt(items, e) < p
    decreases |items| - m
  {
    if m < |items| && ParentAt(items, m) >= p then SpanEnd(items, p, m + 1) else m
  }

  lemma {:induction false} NoKidsInSpan(items: seq<Node>, p: int, m: nat, e: nat)
    requires m <= e <= |items|
    requires forall j :: m <= j < e ==> ParentAt(items, j) != p
    ensures Kids(items, p, m) == Kids(items, p, e)
    decreases e - m
  {
    if m < e {
      KidsUnfold(items, p, m);
      NoKidsInSpan(items, p, m + 1, e);
    }
  }

  /** Past the end of its span an item has no more children. */
  lemma {:induction false} NoKidsAfterSpan(items: seq<Node>, p: int, e: nat)
    requires Nested(items) && -1 <= p < e <= |items|
    requires e < |items| ==> ParentAt(items, e) < p
    ensures Kids(items, p, e) == []
  {
    forall j | e <= j < |items|
      ensures ParentAt(items, j) != p
    {
      assert NestedAt(items, j);
    }
    NoKidsInSpan(items, p, e, |items|);
    NoKids(items, p);
  }

  /** After the span of its child `m`, the next item is a child of `p` again, or `p`'s span is over. */
  lemma {:induction false} NextSibling(items: seq<Node>, p: int, m: nat)
    requires Nested(items) && m < |items| && ParentAt(items, m) == p
    ensures var e := SpanEnd(items, m, m + 1);
            e < |items| && ParentAt(items, e) >= p ==> ParentAt(items, e) == p
  {
    var e := SpanEnd(items, m, m + 1);
    if e < |items| {
      assert NestedAt(items, e);
    }
  }

  lemma {:induction false} NestedWalk(items: seq<Node>, p: int, m: nat)
    requires Rebuildable(items) && Nested(items) && -1 <= p < m <= |items|
    requires m < |items| && ParentAt(items, m) >= p ==> ParentAt(items, m) == p
    ensures Preorder(Kids(items, p, m)) == items[m..SpanEnd(items, p, m)]
    decreases |items| - m
  {
    hide Kids, Subtree, Preorder, Nested, Ascending, ParentAt, Find, SpanEnd;
    if m == |items| || ParentAt(items, m) < p {
      EmptySpan(items, p, m);
      NoKidsAfterSpan(items, p, m);
      PreorderEmpty();
    } else {
      var e, end := SpanEnd(items, m, m + 1), SpanEnd(items, p, m);
      NestedWalk(items, m, m + 1);
      NextSibling(items, p, m);
      NestedWalk(items, p, e);
      NoKidsInSpan(items, p, m + 1, e);
      SpanSplits(items, p, m);
      WalkOfKid(items, p, m);
      JoinWalk(items, m, e, end);
    }
  }

  lemma {:induction false} EmptySpan(items: seq<Node>, p: int, m: nat)
    requires m <= |items| && (m < |items| ==> ParentAt(items, m) < p)
    ensures SpanEnd(items, p, m) == m
  {
  }

  lemma {:induction false} JoinWalk(items: seq<Node>, m: nat, e: nat, end: nat)
    requires m < e <= end <= |items|
    ensures items[m..end] == [items[m]] + items[m + 1..e] + items[e..end]
  {
  }

  lemma {:induction false} PreorderEmpty()
    ensures Preorder([]) == []
  {
  }

  lemma {:induction false} WalkOfKid(items: seq<Node>, p: int, m: nat)
    requires m < |items| && ParentAt(items, m) == p && items[m].children == []
    ensures Preorder(Kids(items, p, m)) ==
            [items[m]] + Preorder(Kids(items, m, m + 1)) + Preorder(Kids(items, p, m + 1))
  {
    KidsUnfold(items, p, m);
    var n := Subtree(items, m);
    assert Bare(n) == items[m] && n.children == Kids(items, m, m + 1);
    hide Kids, Subtree, Preorder;
    PreorderConcat([n], Kids(items, p, m + 1));
    PreorderOne(n);
  }

  lemma {:induction false} SpanSplits(items: seq<Node>, p: int, m: nat)
    requires m < |items| && p <= ParentAt(items, m)
    ensures SpanEnd(items, m, m + 1) <= SpanEnd(items, p, m)
    ensures SpanEnd(items, p, m) == SpanEnd(items, p, SpanEnd(items, m, m + 1))
  {
    SpanSkips(items, p, m, SpanEnd(items, m, m + 1));
  }

  lemma {:induction false} SpanSkips(items: seq<Node>, p: int, m: nat, e: nat)
    requires m <= e <= |items|
    requires forall j :: m <= j < e ==> ParentAt(items, j) >= p
    ensures SpanEnd(items, p, m) == SpanEnd(items, p, e)
    decreases e - m
  {
    if m < e {
      SpanSkips(items, p, m + 1, e);
    }
  }

  lemma {:induction false} SpanOfAll(items: seq<Node>, m: nat)
    requires m <= |items|
    ensures SpanEnd(items, -1, m) == |items|
    decreases |items| - m
  {
    if m < |items| {
      SpanOfAll(items, m + 1);
    }
  }

  /** The first child of `p` from `m` on. */
  lemma {:induction false} FirstKid(items: seq<Node>, p: int, m: nat) returns (c: nat)
    requires m <= |items|
    ensures m <= c <= |items| && Kids(items, p, m) == Kids(items, p, c)
    ensures forall j :: m <= j < c ==> ParentAt(items, j) != p
    ensures c < |items| ==> ParentAt(items, c) == p
    decreases |items| - m
  {
    if m == |items| || ParentAt(items, m) == p {
      c := m;
    } else {
      KidsUnfold(items, p, m);
      c := FirstKid(items, p, m + 1);
    }
  }

  /** The walk of a children list begins with its first child. */
  lemma {:induction false} WalkBegins(items: seq<Node>, p: int, m: nat, e: nat)
    requires Rebuildable(items) && m < e <= |items|
    requires Preorder(Kids(items, p, m)) == items[m..e]
    ensures ParentAt(items, m) == p
  {
    hide Kids, Subtree, Preorder, ParentAt;
    var c := FirstKid(items, p, m);
    assert |items[m..e]| > 0;
    if c == |items| {
      NoKids(items, p);
      PreorderEmpty();
    } else {
      WalkOfKid(items, p, c);
      assert items[m] == items[m..e][0] == items[c];
      SameItemSamePosition(items, m, c);
    }
  }

  lemma {:induction false} SameItemSamePosition(items: seq<Node>, i: nat, j: nat)
    requires Ascending(items) && i < |items| && j < |items| && items[i] == items[j]
    ensures i == j
  {
  }

  /** What `Nested` says about the items from `m` up to `e` alone. */
  ghost predicate NestedFrom(items: seq<Node>, p: int, m: nat, e: nat) {
    && e <= |items|
    && (forall x :: m <= x < e ==> ParentAt(items, x) == p || ParentAt(items, x) >= m)
    && forall x, j :: m <= x < e && m <= j < x && ParentAt(items, x) < j ==> ParentAt(items, x) <= ParentAt(items, j)
  }

  lemma {:induction false} WalkNests(items: seq<Node>, p: int, m: nat, e: nat)
    requires Rebuildable(items) && -1 <= p < m <= e <= |items|
    requires Preorder(Kids(items, p, m)) == items[m..e]
    ensures NestedFrom(items, p, m, e)
    decreases e - m
  {
    hide Kids, Subtree, Preorder, ParentAt, NestedFrom, Ascending;
    if m == e {
      NestedNothing(items, p, m);
    } else {
      WalkBegins(items, p, m, e);
      WalkOfKid(items, p, m);
      var below, beside := Preorder(Kids(items, m, m + 1)), Preorder(Kids(items, p, m + 1));
      var e' := m + 1 + |below|;
      assert items[m..e] == [items[m]] + below + beside;
      CutWalk(items, m, e', e, below, beside);
      WalkNests(items, m, m + 1, e');
      if e' < e {
        var c := FirstKid(items, p, m + 1);
        SiblingBegins(items, p, m + 1, e', e, c);
        WalkNests(items, p, e', e);
      } else {
        NestedNothing(items, p, e);
      }
      NestedJoin(items, p, m, e', e);
    }
  }

  lemma {:induction false} NestedNothing(items: seq<Node>, p: int, m: nat)
    requires m <= |items|
    ensures NestedFrom(items, p, m, m)
  {
  }

  lemma {:induction false} SliceOfSlice(items: seq<Node>, m: nat, e: nat, i: nat, j: nat)
    requires m <= e <= |items| && i <= j <= e - m
    ensures items[m..e][i..j] == items[m + i..m + j]
  {
    var all := items[m..e];
    forall k | 0 <= k < j - i
      ensures all[i..j][k] == items[m + i..m + j][k]
    {
      assert all[i..j][k] == all[i + k];
    }
  }

  lemma {:induction false} CutWalk(items: seq<Node>, m: nat, e': nat, e: nat, below: seq<Node>, beside: seq<Node>)
    requires m < e <= |items| && e' == m + 1 + |below|
    requires items[m..e] == [items[m]] + below + beside
    ensures e' <= e && below == items[m + 1..e'] && beside == items[e'..e]
  {
    var all := items[m..e];
    assert |all| == 1 + |below| + |beside|;
    assert below == all[1..1 + |below|];
    assert beside == all[1 + |below|..];
    SliceOfSlice(items, m, e, 1, 1 + |below|);
    SliceOfSlice(items, m, e, 1 + |below|, |all|);
    assert all[1 + |below|..] == all[1 + |below|..|all|];
  }

  lemma {:induction false} SiblingBegins(items: seq<Node>, p: int, m: nat, e': nat, e: nat, c: nat)
    requires Rebuildable(items) && m <= e' < e <= |items| && m <= c <= |items|
    requires Preorder(Kids(items, p, m)) == items[e'..e]
    requires Kids(items, p, m) == Kids(items, p, c)
    requires c < |items| ==> ParentAt(items, c) == p
    ensures c == e'
  {
    hide Kids, Subtree, Preorder, ParentAt;
    assert |items[e'..e]| > 0;
    if c == |items| {
      NoKids(items, p);
      PreorderEmpty();
    } else {
      WalkOfKid(items, p, c);
      assert items[e'] == items[e'..e][0] == items[c];
      SameItemSamePosition(items, e', c);
    }
  }

  lemma {:induction false} NestedJoin(items: seq<Node>, p: int, m: nat, e': nat, e: nat)
    requires -1 <= p < m < e' <= e <= |items| && ParentAt(items, m) == p
    requires NestedFrom(items, m, m + 1, e') && NestedFrom(items, p, e', e)
    ensures NestedFrom(items, p, m, e)
  {
    hide ParentAt;
    forall x, j | m <= x < e && m <= j < x && ParentAt(items, x) < j
      ensures ParentAt(items, x) <= ParentAt(items, j)
    {
      if x < e' {
        assert j >= m + 1;
      } else if ParentAt(items, x) == p {
        assert ParentAt(items, j) == p || ParentAt(items, j) >= m;
      } else {
        assert j >= e';
      }
    }
  }

  /** The walk of the rebuilt forest is the page in order exactly when the page is nested. */
  lemma {:induction false} WalkIsPageExactly(items: seq<Node>)
    requires Rebuildable(items)
    ensures Preorder(Forest(items)) == items <==> Nested(items)
  {
    assert items[0..|items|] == items;
    if Nested(items) {
      SpanOfAll(items, 0);
      NestedWalk(items, -1, 0);
    }
    if Preorder(Forest(items)) == items {
      WalkNests(items, -1, 0, |items|);
      forall k | 0 <= k < |items|
        ensures NestedAt(items, k)
      {
      }
    }
  }

  // ----- pages of a flattened forest -----

  lemma {:induction false} FlatRebuildable(symbols: seq<Symbol>, page: seq<nat>, items: seq<Node>)
    requires forall i, j :: 0 <= i < j < |page| ==> page[i] < page[j]
    requires forall i :: 0 <= i < |page| ==> page[i] < Count(symbols)
    requires |items| == |page|
    requires forall i :: 0 <= i < |page| ==> items[i] == Flat(symbols, None, 0)[page[i]]
    ensures Rebuildable(items)
    ensures forall i :: 0 <= i < |items| ==> items[i].index == page[i] && Parent(items[i]) < items[i].index
  {
    hide Flat, Count;
    forall i | 0 <= i < |items|
      ensures items[i].index == page[i] && items[i].children == [] && Parent(items[i]) < items[i].index
    {
      FlatEntry(symbols, None, 0, page[i]);
    }
  }

  lemma {:induction false} SliceParent(symbols: seq<Symbol>, a: nat, b: nat, m: nat)
    requires a <= b <= Count(symbols) && m < b - a
    ensures var q := Parent(Flat(symbols, None, 0)[a + m]);
            q < a + m && ParentAt(Flat(symbols, None, 0)[a..b], m) == if q >= a then q - a else -1
  {
    hide Flat, Count;
    var flat := Flat(symbols, None, 0);
    var items := flat[a..b];
    forall k | 0 <= k < b - a
      ensures items[k] == flat[a + k] && items[k].index == a + k
    {
      FlatEntry(symbols, None, 0, a + k);
    }
    FlatEntry(symbols, None, 0, a + m);
    var q := Parent(flat[a + m]);
    if q >= a {
      FindUnique(items, m, q - a);
    }
  }

  /** A run of the flat list with nothing left out is nested. */
  lemma {:induction false} RunIsNested(symbols: seq<Symbol>, a: nat, b: nat)
    requires a <= b <= Count(symbols)
    ensures Nested(Flat(symbols, None, 0)[a..b])
  {
    hide Flat, Count, ParentAt;
    var items := Flat(symbols, None, 0)[a..b];
    forall k, j | 0 <= k < |items| && ParentAt(items, k) < j < k
      ensures ParentAt(items, k) <= ParentAt(items, j)
    {
      SliceParent(symbols, a, b, k);
      SliceParent(symbols, a, b, j);
      if Parent(Flat(symbols, None, 0)[a + k]) >= a {
        FlatNested(symbols, None, 0, a + j, a + k);
      }
    }
  }

  /** A contiguous page walks in index order. */
  lemma {:induction false} ContiguousPageWalk(symbols: seq<Symbol>, a: nat, b: nat)
    requires a <= b <= Count(symbols)
    ensures var items := Flat(symbols, None, 0)[a..b];
            Rebuildable(items) && Preorder(Forest(items)) == items
  {
    hide Flat, Count, Nested, Forest;
    var items := Flat(symbols, None, 0)[a..b];
    FlatRebuildable(symbols, seq(b - a, i requires 0 <= i => a + i), items);
    RunIsNested(symbols, a, b);
    WalkIsPageExactly(items);
  }

  /** A page of two leaves and the root of one of them; the other's parent is not there. */
  lemma {:induction false} OmittedParent(page: seq<Node>)
    requires page == [Node([], 0, None, 2, []), Node([], 2, Some(1), 0, []), Node([], 3, Some(0), 0, [])]
    ensures Rebuildable(page)
    ensures ParentAt(page, 0) == -1 && ParentAt(page, 1) == -1 && ParentAt(page, 2) == 0
  {
  }

  lemma {:induction false} OmissionWalk(page: seq<Node>)
    requires page == [Node([], 0, None, 2, []), Node([], 2, Some(1), 0, []), Node([], 3, Some(0), 0, [])]
    ensures Preorder(Forest(page)) == [page[0], page[2], page[1]]
  {
    OmittedParent(page);
    hide Kids, Subtree, ParentAt, Preorder, Find;
    NoKids(page, 0);
    NoKids(page, -1);
    NoKids(page, 1);
    NoKids(page, 2);
    PreorderEmpty();
    WalkOfKid(page, -1, 0);
    WalkOfKid(page, -1, 1);
    KidsUnfold(page, -1, 2);
    KidsUnfold(page, 0, 1);
    WalkOfKid(page, 0, 2);
    KidsUnfold(page, 1, 2);
    assert [page[0]] + ([page[2]] + [] + []) + ([page[1]] + [] + []) == [page[0], page[2], page[1]];
  }

  /** With an omitted parent in between, the walk order is no longer the index order. */
  lemma {:induction false} OmissionReorders()
    ensures var leaf := Symbol([], []);
            var flat := Flat([Symbol([], [Symbol([], [leaf]), leaf])], None, 0);
            |flat| == 4 &&
            var page := [flat[0], flat[2], flat[3]];
            Rebuildable(page) && Preorder(Forest(page)) == [flat[0], flat[3], flat[2]]
  {
    hide Flat, Kids, Subtree, ParentAt, Preorder, Find, Forest, Rebuildable;
    var leaf := Symbol([], []);
    var symbols := [Symbol([], [Symbol([], [leaf]), leaf])];
    var flat := Flat(symbols, None, 0);
    OmissionExample(leaf, symbols, flat);
    var page := [flat[0], flat[2], flat[3]];
    OmittedParent(page);
    OmissionWalk(page);
  }

  lemma {:induction false} OmissionExample(leaf: Symbol, symbols: seq<Symbol>, flat: seq<Node>)
    requires leaf == Symbol([], []) && symbols == [Symbol([], [Symbol([], [leaf]), leaf])]
    requires flat == Flat(symbols, None, 0)
    ensures flat == [Node([], 0, None, 2, []), Node([], 1, Some(0), 1, []),
                     Node([], 2, Some(1), 0, []), Node([], 3, Some(0), 0, [])]
  {
    FlatEmpty(None, 4);
    FlatEmpty(Some(0), 4);
    FlatEmpty(Some(1), 3);
    FlatEmpty(Some(2), 3);
    FlatEmpty(Some(3), 4);
    FlatUnfolds(symbols, None, 0);
    var inner := symbols[0].children;
    FlatUnfolds(inner, Some(0), 1);
    FlatUnfolds([leaf], Some(1), 2);
    assert inner[1..] == [leaf];
    FlatUnfolds([leaf], Some(0), 3);
    assert symbols[1..] == [];
  }

  // ----- the full page -----

  /** The forest with its annotations, numbered in preorder from `base`. */
  function Annotated(symbols: seq<Symbol>, parent: Option<nat>, base: nat): seq<Node> {
    if symbols == [] then []
    else
      var children := symbols[0].children;
      [Node(symbols[0].fields, base, parent, |children|, Annotated(children, Some(base), base + 1))]
      + Annotated(symbols[1..], parent, base + 1 + Count(children))
  }

  /** `items` has, from position `base` on, the flat list of `symbols`, and nothing behind it has a parent in there. */
  ghost predicate Embeds(items: seq<Node>, symbols: seq<Symbol>, parent: Option<nat>, base: nat) {
    var end := base + Count(symbols);
    && end <= |items| && AsParent(parent) < base
    && items[base..end] == Flat(symbols, parent, base)
    && forall j :: end <= j < |items| ==> ParentAt(items, j) < base || ParentAt(items, j) >= end
  }

  /** Positions are indices: on a full list the parent's position is the parent's index. */
  ghost predicate Full(items: seq<Node>) {
    && (forall k :: 0 <= k < |items| ==> items[k].index == k && Parent(items[k]) < k && items[k].children == [])
    && forall k :: 0 <= k < |items| ==> ParentAt(items, k) == Parent(items[k])
  }

  lemma {:induction false} FullFlat(symbols: seq<Symbol>)
    ensures Full(Flat(symbols, None, 0))
    ensures Embeds(Flat(symbols, None, 0), symbols, None, 0)
  {
    hide Flat, Count, ParentAt;
    var items := Flat(symbols, None, 0);
    forall k | 0 <= k < |items|
      ensures items[k].index == k && Parent(items[k]) < k && items[k].children == []
      ensures ParentAt(items, k) == Parent(items[k])
    {
      FlatEntry(symbols, None, 0, k);
      SliceParent(symbols, 0, |items|, k);
      assert items[0..|items|] == items;
    }
    assert items[0..|items|] == items;
  }

  lemma {:induction false} ParentsWithin(items: seq<Node>, symbols: seq<Symbol>, parent: Option<nat>, base: nat, j: nat)
    requires Full(items) && Embeds(items, symbols, parent, base) && base <= j < base + Count(symbols)
    ensures ParentAt(items, j) == AsParent(parent) || base <= ParentAt(items, j) < j
    ensures items[j] == Flat(symbols, parent, base)[j - base]
  {
    hide Flat, Count, ParentAt;
    FlatEntry(symbols, parent, base, j - base);
    assert items[j] == items[base..base + Count(symbols)][j - base];
  }

  lemma {:induction false} EmbedsSplit(items: seq<Node>, symbols: seq<Symbol>, parent: Option<nat>, base: nat)
    requires symbols != [] && Embeds(items, symbols, parent, base)
    ensures var children, end := symbols[0].children, base + Count(symbols);
            var next := base + 1 + Count(children);
            && base < |items| && base + 1 <= next <= end <= |items| && end == next + Count(symbols[1..])
            && items[base] == Node(symbols[0].fields, base, parent, |children|, [])
            && items[base + 1..next] == Flat(children, Some(base), base + 1)
            && items[next..end] == Flat(symbols[1..], parent, next)
  {
    hide Flat, Count, ParentAt;
    FlatUnfolds(symbols, parent, base);
    var children := symbols[0].children;
    var head := Node(symbols[0].fields, base, parent, |children|, []);
    SplitThree(items, base, base + Count(symbols), head, Flat(children, Some(base), base + 1),
               Flat(symbols[1..], parent, base + 1 + Count(children)));
  }

  lemma {:induction false} FullAt(items: seq<Node>, j: nat)
    requires Full(items) && j < |items|
    ensures ParentAt(items, j) == Parent(items[j])
  {
  }

  /** In a piece of a flat list no parent lies in front of the piece but that of the whole piece. */
  lemma {:induction false} ParentInPiece(items: seq<Node>, symbols: seq<Symbol>, parent: Option<nat>, from: nat,
                                         to: nat, j: nat)
    requires from <= j < to <= |items| && items[from..to] == Flat(symbols, parent, from)
    ensures Parent(items[j]) == AsParent(parent) || Parent(items[j]) >= from
  {
    hide Flat, Count;
    FlatEntry(symbols, parent, from, j - from);
    assert items[j] == items[from..to][j - from];
  }

  /** Behind the subtree of the first symbol no parent is inside it. */
  lemma {:induction false} NoParentInside(items: seq<Node>, symbols: seq<Symbol>, parent: Option<nat>, base: nat,
                                          j: nat)
    requires Full(items) && symbols != [] && Embeds(items, symbols, parent, base)
    requires base + 1 + Count(symbols[0].children) <= j < |items|
    ensures ParentAt(items, j) <= base || ParentAt(items, j) >= base + 1 + Count(symbols[0].children)
  {
    hide Flat, Count, ParentAt, Full, Parent;
    EmbedsSplit(items, symbols, parent, base);
    var next, end := base + 1 + Count(symbols[0].children), base + Count(symbols);
    FullAt(items, j);
    if j < end {
      ParentInPiece(items, symbols[1..], parent, next, end, j);
    }
  }

  lemma {:induction false} EmbedsParts(items: seq<Node>, symbols: seq<Symbol>, parent: Option<nat>, base: nat)
    requires Full(items) && symbols != [] && Embeds(items, symbols, parent, base)
    ensures base < |items| && ParentAt(items, base) == AsParent(parent)
    ensures items[base] == Node(symbols[0].fields, base, parent, |symbols[0].children|, [])
    ensures Embeds(items, symbols[0].children, Some(base), base + 1)
    ensures Embeds(items, symbols[1..], parent, base + 1 + Count(symbols[0].children))
  {
    hide Flat, Count, ParentAt;
    EmbedsSplit(items, symbols, parent, base);
    forall j | base + 1 + Count(symbols[0].children) <= j < |items|
      ensures ParentAt(items, j) <= base || ParentAt(items, j) >= base + 1 + Count(symbols[0].children)
    {
      NoParentInside(items, symbols, parent, base, j);
    }
  }

  lemma {:induction false} SplitThree(items: seq<Node>, base: nat, end: nat, head: Node, inner: seq<Node>,
                                      rest: seq<Node>)
    requires base <= end <= |items| && items[base..end] == [head] + inner + rest
    ensures base < end && items[base] == head
    ensures base + 1 + |inner| <= end
    ensures items[base + 1..base + 1 + |inner|] == inner && items[base + 1 + |inner|..end] == rest
  {
    var all := items[base..end];
    assert |all| == 1 + |inner| + |rest|;
    assert items[base] == all[0];
    CutWalk2(items, base, end, head, inner, rest);
  }

  lemma {:induction false} CutWalk2(items: seq<Node>, m: nat, e: nat, head: Node, below: seq<Node>, beside: seq<Node>)
    requires m < e <= |items| && items[m..e] == [head] + below + beside && items[m] == head
    ensures m + 1 + |below| <= e
    ensures below == items[m + 1..m + 1 + |below|] && beside == items[m + 1 + |below|..e]
  {
    CutWalk(items, m, m + 1 + |below|, e, below, beside);
  }

  lemma {:induction false} KidsAreAnnotated(items: seq<Node>, symbols: seq<Symbol>, parent: Option<nat>, base: nat)
    requires Full(items) && Embeds(items, symbols, parent, base)
    ensures Kids(items, AsParent(parent), base) ==
            Annotated(symbols, parent, base) + Kids(items, AsParent(parent), base + Count(symbols))
    decreases symbols
  {
    hide Flat, Count, ParentAt, Kids, Subtree, Embeds, Full, Annotated;
    var p := AsParent(parent);
    if symbols == [] {
      NothingAnnotated(parent, base);
    } else {
      var children, sub := symbols[0].children, Count(symbols[0].children);
      FlatUnfolds(symbols, parent, base);
      EmbedsParts(items, symbols, parent, base);
      KidsAreAnnotated(items, children, Some(base), base + 1);
      KidsAreAnnotated(items, symbols[1..], parent, base + 1 + sub);
      NoLaterChild(items, symbols, parent, base);
      SkipSubtree(items, symbols, parent, base);
      KidsUnfold(items, p, base);
      SubtreeIs(items, base);
      AnnotatedUnfolds(symbols, parent, base);
      EmbedsFits(items, symbols, parent, base);
      var tail := Kids(items, p, base + Count(symbols));
      var rest := Annotated(symbols[1..], parent, base + 1 + sub);
      var below := Annotated(children, Some(base), base + 1);
      assert Kids(items, base, base + 1) == below + [] == below;
      assert Subtree(items, base) == Node(symbols[0].fields, base, parent, |children|, below);
      assert base + 1 + sub + Count(symbols[1..]) == base + Count(symbols);
      assert Kids(items, p, base + 1) == rest + tail;
      assert Annotated(symbols, parent, base) == [Subtree(items, base)] + rest;
      assert [Subtree(items, base)] + (rest + tail) == ([Subtree(items, base)] + rest) + tail;
    }
  }

  lemma {:induction false} EmbedsFits(items: seq<Node>, symbols: seq<Symbol>, parent: Option<nat>, base: nat)
    requires Embeds(items, symbols, parent, base)
    ensures base + Count(symbols) <= |items|
  {
  }

  lemma {:induction false} AnnotatedUnfolds(symbols: seq<Symbol>, parent: Option<nat>, base: nat)
    requires symbols != []
    ensures var children := symbols[0].children;
            Annotated(symbols, parent, base) ==
            [Node(symbols[0].fields, base, parent, |children|, Annotated(children, Some(base), base + 1))]
            + Annotated(symbols[1..], parent, base + 1 + Count(children))
  {
  }

  lemma {:induction false} NothingAnnotated(parent: Option<nat>, base: nat)
    ensures Annotated([], parent, base) == [] && Count([]) == 0
  {
  }

  lemma {:induction false} SubtreeIs(items: seq<Node>, m: nat)
    requires m < |items|
    ensures Subtree(items, m) == items[m].(children := Kids(items, m, m + 1))
  {
  }

  /** Behind a subtree its root has no more children. */
  lemma {:induction false} NoLaterChild(items: seq<Node>, symbols: seq<Symbol>, parent: Option<nat>, base: nat)
    requires Full(items) && symbols != [] && Embeds(items, symbols, parent, base)
    ensures base + 1 + Count(symbols[0].children) <= |items|
    ensures Kids(items, base, base + 1 + Count(symbols[0].children)) == []
  {
    hide Flat, Count, ParentAt, Kids;
    EmbedsParts(items, symbols, parent, base);
    var next := base + 1 + Count(symbols[0].children);
    FlatUnfolds(symbols, parent, base);
    forall j | next <= j < |items|
      ensures ParentAt(items, j) != base
    {
      if j < base + Count(symbols) {
        ParentsWithin(items, symbols[1..], parent, next, j);
      }
    }
    NoKidsInSpan(items, base, next, |items|);
    NoKids(items, base);
  }

  /** Inside a subtree there are no siblings of its root. */
  lemma {:induction false} SkipSubtree(items: seq<Node>, symbols: seq<Symbol>, parent: Option<nat>, base: nat)
    requires Full(items) && symbols != [] && Embeds(items, symbols, parent, base)
    ensures base + 1 + Count(symbols[0].children) <= |items|
    ensures Kids(items, AsParent(parent), base + 1) ==
            Kids(items, AsParent(parent), base + 1 + Count(symbols[0].children))
  {
    hide Flat, Count, ParentAt, Kids;
    EmbedsParts(items, symbols, parent, base);
    var next := base + 1 + Count(symbols[0].children);
    forall j | base + 1 <= j < next
      ensures ParentAt(items, j) != AsParent(parent)
    {
      ParentsWithin(items, symbols[0].children, Some(base), base + 1, j);
    }
    NoKidsInSpan(items, AsParent(parent), base + 1, next);
  }

  /** A page that holds everything is rebuilt into the original forest, annotated. */
  lemma {:induction false} FullPageIsOriginal(symbols: seq<Symbol>)
    ensures Forest(Flat(symbols, None, 0)) == Annotated(symbols, None, 0)
  {
    hide Flat, Count, Kids, Full, Embeds;
    var items := Flat(symbols, None, 0);
    FullFlat(symbols);
    KidsAreAnnotated(items, symbols, None, 0);
    NoKids(items, -1);
    assert 0 + Count(symbols) == |items|;
  }

  function Erased(nodes: seq<Node>): seq<Symbol> {
    if nodes == [] then [] else [Symbol(nodes[0].fields, Erased(nodes[0].children))] + Erased(nodes[1..])
  }

  /** Every node tells the number of its children, and their parent is its index. */
  ghost predicate CountsTell(nodes: seq<Node>, parent: Option<nat>) {
    nodes != [] ==>
      && nodes[0].childCount == |nodes[0].children| && nodes[0].parentIndex == parent
      && CountsTell(nodes[0].children, Some(nodes[0].index)) && CountsTell(nodes[1..], parent)
  }

  lemma {:induction false} ErasedUnfolds(first: Node, rest: seq<Node>)
    ensures Erased([first] + rest) == [Symbol(first.fields, Erased(first.children))] + Erased(rest)
    ensures Preorder([first] + rest) == [Bare(first)] + Preorder(first.children) + Preorder(rest)
  {
    assert ([first] + rest)[1..] == rest;
  }

  lemma {:induction false} CountsUnfold(first: Node, rest: seq<Node>, parent: Option<nat>)
    requires first.childCount == |first.children| && first.parentIndex == parent
    requires CountsTell(first.children, Some(first.index)) && CountsTell(rest, parent)
    ensures CountsTell([first] + rest, parent)
  {
    assert ([first] + rest)[1..] == rest;
  }

  /** Entries in order of their indexes from `base` on. */
  predicate IndexedFrom(nodes: seq<Node>, base: nat) {
    forall k :: 0 <= k < |nodes| ==> nodes[k].index == base + k
  }

  lemma {:induction false} IndexedJoin(first: Node, inner: seq<Node>, rest: seq<Node>, base: nat)
    requires first.index == base && IndexedFrom(inner, base + 1) && IndexedFrom(rest, base + 1 + |inner|)
    ensures IndexedFrom([first] + inner + rest, base)
  {
  }

  /** The annotated forest is the original one: without its annotations, and with an index for each node in preorder. */
  lemma {:induction false} AnnotatedIsOriginal(symbols: seq<Symbol>, parent: Option<nat>, base: nat)
    ensures var nodes := Annotated(symbols, parent, base);
            && |nodes| == |symbols| && Erased(nodes) == symbols && CountsTell(nodes, parent)
            && |Preorder(nodes)| == Count(symbols) && IndexedFrom(Preorder(nodes), base)
  {
    if symbols == [] {
      NothingAnnotated(parent, base);
    } else {
      hide Annotated, Erased, Preorder, CountsTell, Count, IndexedFrom;
      var children := symbols[0].children;
      var next := base + 1 + Count(children);
      AnnotatedUnfolds(symbols, parent, base);
      FlatUnfolds(symbols, parent, base);
      AnnotatedIsOriginal(children, Some(base), base + 1);
      AnnotatedIsOriginal(symbols[1..], parent, next);
      var first := Node(symbols[0].fields, base, parent, |children|, Annotated(children, Some(base), base + 1));
      var rest := Annotated(symbols[1..], parent, next);
      ErasedUnfolds(first, rest);
      CountsUnfold(first, rest, parent);
      IndexedJoin(Bare(first), Preorder(first.children), Preorder(rest), base);
      assert symbols == [symbols[0]] + symbols[1..];
    }
  }
}
