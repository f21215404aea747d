/**
 The bounded breadth-first walk of an accessibility tree, against the level order of the whole
 tree. The tree may be infinite: an element can have endless siblings and endless depth.
 */
module Walk {
  import opened Common
  import opened Handles

  const MAX_DEPTH: nat := 20

  /** Names an element of the tree; what it is like is the library's answer. */
  type Element = int

  datatype Info = Info(
    interactive: bool, role: string, name: string, value: Option<string>, enabled: bool, focused: bool)

  /** What the accessibility library answers; `None` is a failed call. */
  datatype Tree = Tree(
    read: Element -> Option<Info>, first: Element -> Option<Element>, next: Element -> Option<Element>)

  datatype Item = Item(element: Element, depth: nat)

  datatype Node = Node(handle: string, info: Info)

  function MaxVisited(maxNodes: nat): nat {
    var scaled := if maxNodes * 20 < U64_LIMIT then maxNodes * 20 else U64_LIMIT - 1;
    if scaled < 500 then 500 else scaled
  }

  function Take<T>(s: seq<T>, n: nat): seq<T> {
    if |s| <= n then s else s[..n]
  }

  /** The first `n` elements of a sibling chain. */
  function Chain(tree: Tree, child: Option<Element>, depth: nat, n: nat): seq<Item>
    decreases n
  {
    if n == 0 || child.None? then []
    else [Item(child.value, depth)] + Chain(tree, tree.next(child.value), depth, n - 1)
  }

  /** An element's first `n` children; an unreadable or too deep element is not descended into. */
  function Kids(tree: Tree, item: Item, n: nat): seq<Item> {
    if tree.read(item.element).None? || item.depth >= MAX_DEPTH then []
    else Chain(tree, tree.first(item.element), item.depth + 1, n)
  }

  /** The children of `items`, in order. */
  function Flat(tree: Tree, items: seq<Item>, n: nat): seq<Item> {
    if items == [] then []
    else Kids(tree, items[0], n) + Flat(tree, items[1..], n)
  }

  /** `level` and every level below it. */
  function Levels(tree: Tree, level: seq<Item>, depth: nat, n: nat): seq<Item>
    decreases MAX_DEPTH - depth, level
  {
    if depth >= MAX_DEPTH then level
    else level + Levels(tree, Flat(tree, level, n), depth + 1, n)
  }

  /** The whole tree, level by level, with at most `n` children per element. */
  function Whole(tree: Tree, root: Element, n: nat): seq<Item> {
    Levels(tree, [Item(root, 0)], 0, n)
  }

  /** The first `n` elements of the tree in level order. */
  function LevelOrder(tree: Tree, root: Element, n: nat): seq<Item> {
    Take(Whole(tree, root, n), n)
  }

  predicate IsEligible(tree: Tree, item: Item, interactiveOnly: bool) {
    var info := tree.read(item.element);
    info.Some? && (interactiveOnly ==> info.value.interactive)
  }

  /** The readable (and, if asked for, interactive) elements of a walk, in its order. */
  function Eligible(tree: Tree, items: seq<Item>, interactiveOnly: bool): seq<Element> {
    if items == [] then []
    else
      (if IsEligible(tree, items[0], interactiveOnly) then [items[0].element] else [])
      + Eligible(tree, items[1..], interactiveOnly)
  }

  lemma {:induction false} FlatConcat(tree: Tree, a: seq<Item>, b: seq<Item>, n: nat)
    ensures Flat(tree, a + b, n) == Flat(tree, a, n) + Flat(tree, b, n)
  {
    if a == [] {
      assert a + b == b;
    } else {
      assert (a + b)[1..] == a[1..] + b;
      FlatConcat(tree, a[1..], b, n);
    }
  }

  lemma {:induction false} EligibleConcat(tree: Tree, a: seq<Item>, b: seq<Item>, only: bool)
    ensures Eligible(tree, a + b, only) == Eligible(tree, a, only) + Eligible(tree, b, only)
  {
    if a == [] {
      assert a + b == b;
    } else {
      assert (a + b)[1..] == a[1..] + b;
      EligibleConcat(tree, a[1..], b, only);
    }
  }

  lemma {:induction false} ChainDepth(tree: Tree, child: Option<Element>, depth: nat, n: nat)
    ensures forall x :: x in Chain(tree, child, depth, n) ==> x.depth == depth
    decreases n
  {
    if n != 0 && child.Some? {
      ChainDepth(tree, tree.next(child.value), depth, n - 1);
    }
  }

  lemma {:induction false} FlatDepth(tree: Tree, items: seq<Item>, depth: nat, n: nat)
    requires forall x :: x in items ==> x.depth == depth
    ensures forall x :: x in Flat(tree, items, n) ==> x.depth == depth + 1
    ensures depth >= MAX_DEPTH ==> Flat(tree, items, n) == []
  {
    if items != [] {
      FlatDepth(tree, items[1..], depth, n);
      ChainDepth(tree, tree.first(items[0].element), depth + 1, n);
    }
  }

  /** Level order lists the first level and then the children of everything it lists. */
  lemma {:induction false} LevelsListTheirChildren(
      tree: Tree, level: seq<Item>, depth: nat, n: nat)
    requires depth <= MAX_DEPTH && forall x :: x in level ==> x.depth == depth
    ensures Levels(tree, level, depth, n) == level + Flat(tree, Levels(tree, level, depth, n), n)
    decreases MAX_DEPTH - depth
  {
    FlatDepth(tree, level, depth, n);
    if depth < MAX_DEPTH {
      var below := Flat(tree, level, n);
      LevelsListTheirChildren(tree, below, depth + 1, n);
      FlatConcat(tree, level, Levels(tree, below, depth + 1, n), n);
    }
  }

  /** Every listed element but those of the first level is a child of an earlier one. */
  lemma {:induction false} ChildrenComeLater(
      tree: Tree, level: seq<Item>, depth: nat, n: nat, v: nat)
    requires v < |Levels(tree, level, depth, n)|
    ensures v < |level| + |Flat(tree, Levels(tree, level, depth, n)[..v], n)|
    decreases MAX_DEPTH - depth
  {
    if v >= |level| {
      var below := Flat(tree, level, n);
      var rest := Levels(tree, below, depth + 1, n);
      ChildrenComeLater(tree, below, depth + 1, n, v - |level|);
      assert (level + rest)[..v] == level + rest[..v - |level|];
      FlatConcat(tree, level, rest[..v - |level|], n);
    }
  }

  /** Two lists that agree on their first `n` elements still do after agreeing lists are appended. */
  lemma TakeConcat<T>(a: seq<T>, b: seq<T>, c: seq<T>, d: seq<T>, n: nat)
    requires Take(a, n) == Take(c, n) && Take(b, n) == Take(d, n)
    ensures Take(a + b, n) == Take(c + d, n)
  {
    if |a| < n {
      assert a == c;
      forall i | 0 <= i < |a + b| && i < n ensures i < |c + d| && (a + b)[i] == (c + d)[i] {
        if i >= |a| {
          assert Take(b, n)[i - |a|] == Take(d, n)[i - |a|];
        }
      }
      assert |Take(b, n)| == |Take(d, n)|;
    } else {
      assert Take(a + b, n) == a[..n] && Take(c + d, n) == c[..n];
    }
  }

  lemma TakeOfLongEnough<T>(a: seq<T>, b: seq<T>, n: nat)
    requires |a| >= n
    ensures Take(a + b, n) == Take(a, n)
  {
  }

  lemma {:induction false} ChainPrefix(tree: Tree, child: Option<Element>, depth: nat, n: nat, m: nat)
    requires n <= m
    ensures Chain(tree, child, depth, n) == Take(Chain(tree, child, depth, m), n)
    decreases n
  {
    if n != 0 && child.Some? {
      ChainPrefix(tree, tree.next(child.value), depth, n - 1, m - 1);
    }
  }

  lemma {:induction false} FlatPrefix(tree: Tree, items: seq<Item>, n: nat, m: nat)
    requires n <= m
    ensures Take(Flat(tree, items, n), n) == Take(Flat(tree, items, m), n)
  {
    if items != [] {
      FlatPrefix(tree, items[1..], n, m);
      ChainPrefix(tree, tree.first(items[0].element), items[0].depth + 1, n, m);
      TakeConcat(
        Kids(tree, items[0], n), Flat(tree, items[1..], n),
        Kids(tree, items[0], m), Flat(tree, items[1..], m), n);
    }
  }

  lemma {:induction false} LevelsPrefix(
      tree: Tree, a: seq<Item>, b: seq<Item>, depth: nat, n: nat, m: nat)
    requires n <= m && Take(a, n) == Take(b, n)
    ensures Take(Levels(tree, a, depth, n), n) == Take(Levels(tree, b, depth, m), n)
    decreases MAX_DEPTH - depth
  {
    if depth < MAX_DEPTH {
      var p, q := Flat(tree, a, n), Flat(tree, b, m);
      if |a| < n {
        assert a == b;
        FlatPrefix(tree, a, n, m);
        LevelsPrefix(tree, p, q, depth + 1, n, m);
        TakeConcat(a, Levels(tree, p, depth + 1, n), b, Levels(tree, q, depth + 1, m), n);
      } else {
        TakeOfLongEnough(a, Levels(tree, p, depth + 1, n), n);
        TakeOfLongEnough(b, Levels(tree, q, depth + 1, m), n);
      }
    }
  }

  /** Level order does not depend on how far it is listed: a shorter list is a prefix. */
  lemma LevelOrderIsOneEnumeration(tree: Tree, root: Element, n: nat, m: nat)
    requires n <= m
    ensures LevelOrder(tree, root, n) == Take(LevelOrder(tree, root, m), n)
  {
    LevelsPrefix(tree, [Item(root, 0)], [Item(root, 0)], 0, n, m);
    assert Take(Take(Whole(tree, root, m), m), n) == Take(Whole(tree, root, m), n);
  }

  lemma {:induction false} LevelsSorted(tree: Tree, level: seq<Item>, depth: nat, n: nat)
    requires depth <= MAX_DEPTH && forall x :: x in level ==> x.depth == depth
    ensures
      var all := Levels(tree, level, depth, n);
      && (forall x :: x in all ==> depth <= x.depth <= MAX_DEPTH)
      && (forall i, j :: 0 <= i < j < |all| ==> all[i].depth <= all[j].depth)
    decreases MAX_DEPTH - depth
  {
    if depth < MAX_DEPTH {
      FlatDepth(tree, level, depth, n);
      LevelsSorted(tree, Flat(tree, level, n), depth + 1, n);
      SortedJoin(level, Levels(tree, Flat(tree, level, n), depth + 1, n), depth);
    }
  }

  lemma SortedJoin(level: seq<Item>, rest: seq<Item>, depth: nat)
    requires (forall x :: x in level ==> x.depth == depth) && (forall x :: x in rest ==> depth < x.depth)
    requires forall i, j :: 0 <= i < j < |rest| ==> rest[i].depth <= rest[j].depth
    ensures forall i, j :: 0 <= i < j < |level + rest| ==> (level + rest)[i].depth <= (level + rest)[j].depth
  {
    forall i, j | 0 <= i < j < |level + rest| ensures (level + rest)[i].depth <= (level + rest)[j].depth {
      if i < |level| {
        assert level[i] in level;
        assert (level + rest)[j] in level || (level + rest)[j] in rest;
      }
    }
  }

  /** What is closer to the root comes first, and nothing deeper than the depth limit comes at all. */
  lemma LevelOrderGoesDownward(tree: Tree, root: Element, n: nat)
    ensures
      var order := LevelOrder(tree, root, n);
      && (forall x :: x in order ==> x.depth <= MAX_DEPTH)
      && (forall i, j :: 0 <= i < j < |order| ==> order[i].depth <= order[j].depth)
  {
    LevelsSorted(tree, [Item(root, 0)], 0, n);
  }

  lemma ChainComplete(tree: Tree, child: Option<Element>, depth: nat, n: nat)
    requires |Chain(tree, child, depth, n)| < n || |Chain(tree, child, depth, n + 1)| < n
    ensures Chain(tree, child, depth, n + 1) == Chain(tree, child, depth, n)
  {
    ChainPrefix(tree, child, depth, n, n + 1);
  }

  lemma {:induction false} FlatComplete(tree: Tree, items: seq<Item>, n: nat)
    requires |Flat(tree, items, n)| < n || |Flat(tree, items, n + 1)| < n
    ensures Flat(tree, items, n + 1) == Flat(tree, items, n)
  {
    if items != [] {
      FlatComplete(tree, items[1..], n);
      if tree.read(items[0].element).Some? && items[0].depth < MAX_DEPTH {
        ChainComplete(tree, tree.first(items[0].element), items[0].depth + 1, n);
      }
    }
  }

  lemma {:induction false} NarrowTreeIsComplete(tree: Tree, level: seq<Item>, depth: nat, n: nat)
    requires level != []
    requires |Levels(tree, level, depth, n)| <= n || |Levels(tree, level, depth, n + 1)| <= n
    ensures Levels(tree, level, depth, n + 1) == Levels(tree, level, depth, n)
    decreases MAX_DEPTH - depth
  {
    if depth < MAX_DEPTH {
      var narrow, wide := Flat(tree, level, n), Flat(tree, level, n + 1);
      FirstLevelFits(tree, narrow, depth + 1, n);
      FirstLevelFits(tree, wide, depth + 1, n + 1);
      FlatComplete(tree, level, n);
      if narrow != [] {
        NarrowTreeIsComplete(tree, narrow, depth + 1, n);
      } else {
        EmptyLevels(tree, depth + 1, n);
        EmptyLevels(tree, depth + 1, n + 1);
      }
    }
  }

  lemma FirstLevelFits(tree: Tree, level: seq<Item>, depth: nat, n: nat)
    ensures |level| <= |Levels(tree, level, depth, n)|
  {
  }

  lemma {:induction false} EmptyLevels(tree: Tree, depth: nat, n: nat)
    ensures Levels(tree, [], depth, n) == []
    decreases MAX_DEPTH - depth
  {
    if depth < MAX_DEPTH {
      EmptyLevels(tree, depth + 1, n);
    }
  }

  lemma WholeListsItsChildren(tree: Tree, root: Element, n: nat)
    ensures
      var whole := Whole(tree, root, n);
      whole != [] && whole[..1] == [Item(root, 0)] && whole == whole[..1] + Flat(tree, whole, n)
  {
    LevelsListTheirChildren(tree, [Item(root, 0)], 0, n);
  }

  /** There is an element beyond the first `n` exactly when the list with `n` children each is longer. */
  lemma UnseenElement(tree: Tree, root: Element, n: nat)
    ensures |LevelOrder(tree, root, n + 1)| > n <==> |Whole(tree, root, n)| > n
  {
    if |Whole(tree, root, n)| <= n || |Whole(tree, root, n + 1)| <= n {
      NarrowTreeIsComplete(tree, [Item(root, 0)], 0, n);
    }
  }

  /** How many elements are listed once the children of the first `v` are. */
  function Reached(tree: Tree, whole: seq<Item>, cap: nat, v: nat): nat
    requires v <= |whole|
  {
    1 + |Flat(tree, whole[..v], cap)|
  }

  /** What the walk over the first `v` elements of `whole` queued and found. */
  ghost predicate Progress(
      tree: Tree, whole: seq<Item>, cap: nat, v: nat, queue: seq<Item>, truncated: bool)
  {
    && v <= |whole| && v <= cap
    && var reached := Reached(tree, whole, cap, v);
       && v <= reached <= |whole|
       && queue == whole[v..Min(reached, cap)]
       && (truncated <==> reached > cap)
  }

  /** The children of element `v` are listed right after those of the elements before it. */
  lemma KidsAreListedNext(tree: Tree, whole: seq<Item>, cap: nat, v: nat)
    requires v < |whole| && whole == whole[..1] + Flat(tree, whole, cap)
    ensures
      var kids := Kids(tree, whole[v], cap);
      var reached := Reached(tree, whole, cap, v);
      && Reached(tree, whole, cap, v + 1) == reached + |kids| <= |whole|
      && whole[reached..reached + |kids|] == kids
  {
    SplitAt(whole, v);
    KidsOfParts(tree, whole, whole[..v], whole[v], whole[v + 1..], cap);
  }

  lemma SplitAt(whole: seq<Item>, v: nat)
    requires v < |whole|
    ensures whole[..v + 1] == whole[..v] + [whole[v]] && whole == (whole[..v] + [whole[v]]) + whole[v + 1..]
  {
  }

  lemma KidsOfParts(tree: Tree, whole: seq<Item>, before: seq<Item>, item: Item, after: seq<Item>, cap: nat)
    requires whole != [] && whole == (before + [item]) + after && whole == whole[..1] + Flat(tree, whole, cap)
    ensures
      var kids := Kids(tree, item, cap);
      var reached := 1 + |Flat(tree, before, cap)|;
      && 1 + |Flat(tree, before + [item], cap)| == reached + |kids| <= |whole|
      && whole[reached..reached + |kids|] == kids
  {
    FlatOfParts(tree, before, item, after, cap);
    ListsOf(whole, Flat(tree, before, cap), Kids(tree, item, cap), Flat(tree, after, cap));
  }

  lemma FlatOfParts(tree: Tree, before: seq<Item>, item: Item, after: seq<Item>, n: nat)
    ensures Flat(tree, before + [item], n) == Flat(tree, before, n) + Kids(tree, item, n)
    ensures Flat(tree, (before + [item]) + after, n) ==
      (Flat(tree, before, n) + Kids(tree, item, n)) + Flat(tree, after, n)
  {
    FlatConcat(tree, before, [item], n);
    FlatConcat(tree, before + [item], after, n);
    FlatOfOne(tree, item, n);
  }

  lemma FlatOfOne(tree: Tree, item: Item, n: nat)
    ensures Flat(tree, [item], n) == Kids(tree, item, n)
  {
    assert [item][1..] == [];
  }

  lemma ListsOf(whole: seq<Item>, before: seq<Item>, kids: seq<Item>, after: seq<Item>)
    requires whole != [] && whole == whole[..1] + ((before + kids) + after)
    ensures 1 + |before| + |kids| <= |whole| && whole[1 + |before|..1 + |before| + |kids|] == kids
  {
  }

  /** Listing one more element queues as many of its children as the visit budget still allows. */
  lemma OneMoreVisited(
      tree: Tree, whole: seq<Item>, cap: nat, v: nat, queue: seq<Item>, truncated: bool, room: nat)
    requires whole != [] && whole == whole[..1] + Flat(tree, whole, cap)
    requires Progress(tree, whole, cap, v, queue, truncated) && queue != [] && room == cap - v - |queue|
    ensures
      var kids := Kids(tree, queue[0], cap);
      Progress(tree, whole, cap, v + 1, queue[1..] + Take(kids, room), truncated || |kids| > room)
  {
    KidsAreListedNext(tree, whole, cap, v);
    SlideQueue(whole, v, Reached(tree, whole, cap, v), Kids(tree, whole[v], cap), cap, queue);
  }

  lemma SlideQueue(whole: seq<Item>, v: nat, reached: nat, kids: seq<Item>, cap: nat, queue: seq<Item>)
    requires reached + |kids| <= |whole| && whole[reached..reached + |kids|] == kids
    requires v < Min(reached, cap) && queue == whole[v..Min(reached, cap)]
    ensures
      queue[1..] + Take(kids, cap - v - |queue|) == whole[v + 1..Min(reached + |kids|, cap)]
  {
  }

  lemma NothingVisited(tree: Tree, root: Element, cap: nat, whole: seq<Item>)
    requires 0 < cap && whole != [] && whole[..1] == [Item(root, 0)]
    ensures Progress(tree, whole, cap, 0, [Item(root, 0)], false)
  {
  }

  /** The first in the queue is the next element of `whole`. */
  lemma NextInOrder(tree: Tree, whole: seq<Item>, cap: nat, v: nat, queue: seq<Item>, truncated: bool)
    requires Progress(tree, whole, cap, v, queue, truncated) && queue != []
    ensures v < |whole| && v + |queue| <= cap && queue[0] == whole[v]
  {
  }

  /** Once nothing is queued, everything within the visit budget was looked at. */
  lemma AllVisited(tree: Tree, root: Element, cap: nat, v: nat, truncated: bool)
    requires Progress(tree, Whole(tree, root, cap), cap, v, [], truncated)
    ensures Whole(tree, root, cap)[..v] == LevelOrder(tree, root, cap)
    ensures truncated <==> |LevelOrder(tree, root, cap + 1)| > cap
  {
    var whole := Whole(tree, root, cap);
    if v < |whole| {
      ChildrenComeLater(tree, [Item(root, 0)], 0, cap, v);
    }
    UnseenElement(tree, root, cap);
  }

  /** Queues the children of `item`, stopping when the visit budget is spent. */
  method EnqueueKids(tree: Tree, item: Item, visited: nat, waiting: seq<Item>, cap: nat)
    returns (queue: seq<Item>, full: bool)
    requires tree.read(item.element).Some? && 0 < visited && visited + |waiting| <= cap
    ensures
      var kids := Kids(tree, item, cap);
      var room := cap - visited - |waiting|;
      queue == waiting + Take(kids, room) && (full <==> |kids| > room)
  {
    queue, full := waiting, false;
    if item.depth >= MAX_DEPTH {
      return;
    }
    var child := tree.first(item.element);
    ghost var kids := Kids(tree, item, cap);
    ghost var k := 0;
    while child.Some?
      invariant k <= cap && k == |queue| - |waiting| && visited + |queue| <= cap
      invariant k <= |kids| && queue == waiting + kids[..k]
      invariant kids[k..] == Chain(tree, child, item.depth + 1, cap - k)
      decreases cap - k
    {
      if visited + |queue| >= cap {
        full := true;
        break;
      }
      assert kids[k] == Item(child.value, item.depth + 1);
      queue := queue + [Item(child.value, item.depth + 1)];
      child := tree.next(child.value);
      k := k + 1;
    }
  }

  /** A node per stored element, with its handle and what was read from it. */
  ghost predicate Describes(nodes: seq<Node>, tree: Tree, elements: seq<Element>, generation: nat) {
    && |nodes| == |elements|
    && forall i :: 0 <= i < |nodes| ==>
         nodes[i].handle == Handle(generation, i) && tree.read(elements[i]) == Some(nodes[i].info)
  }

  /**
   The walk returns the first `maxNodes` eligible elements among the first `MaxVisited(maxNodes)`
   elements in level order, and says it was cut short exactly when an eligible element among
   those was dropped or some element was never looked at. Endless trees end it all the same.
   */
  method DescribeTree(
      tree: Tree, root: Element, maxNodes: nat, interactiveOnly: bool, table: HandleTable<Element>)
    returns (nodes: seq<Node>, truncated: bool)
    requires table.InRange() && maxNodes < U64_LIMIT
    modifies table
    ensures table.InRange()
    ensures table.generation == if old(table.generation) == U64_LIMIT - 1 then 0 else old(table.generation) + 1
    ensures old(table.Valid()) && table.generation != 0 ==> table.Valid()
    ensures
      var cap := MaxVisited(maxNodes);
      var eligible := Eligible(tree, LevelOrder(tree, root, cap), interactiveOnly);
      && table.elements == Take(eligible, maxNodes)
      && Describes(nodes, tree, table.elements, table.generation)
      && (truncated <==> |eligible| > maxNodes || |LevelOrder(tree, root, cap + 1)| > cap)
  {
    var generation := table.BeginGeneration();
    var cap := MaxVisited(maxNodes);
    WholeListsItsChildren(tree, root, cap);
    ghost var visited, dropped;
    ghost var whole := Whole(tree, root, cap);
    nodes, truncated, visited, dropped := VisitAll(tree, root, cap, maxNodes, interactiveOnly, table, whole);
    if dropped {
      DroppedElement(tree, root, cap, visited, interactiveOnly, maxNodes);
    } else {
      AllVisited(tree, root, cap, visited, truncated);
    }
  }

  /** The loop: visits elements in the order of `whole` until the queue or the room for nodes ends. */
  method VisitAll(
      tree: Tree, root: Element, cap: nat, maxNodes: nat, interactiveOnly: bool, table: HandleTable<Element>,
      ghost whole: seq<Item>)
    returns (nodes: seq<Node>, truncated: bool, ghost seen: nat, ghost dropped: bool)
    requires table.InRange() && table.elements == [] && maxNodes < U64_LIMIT && 0 < cap
    requires whole != [] && whole[..1] == [Item(root, 0)] && whole == whole[..1] + Flat(tree, whole, cap)
    modifies table
    ensures table.InRange() && (old(table.Valid()) ==> table.Valid()) && table.generation == old(table.generation)
    ensures Describes(nodes, tree, table.elements, table.generation) && |table.elements| <= maxNodes
    ensures !dropped ==>
      && Progress(tree, whole, cap, seen, [], truncated)
      && table.elements == Eligible(tree, whole[..seen], interactiveOnly)
    ensures dropped ==>
      && truncated && 0 < seen <= |whole| && seen <= cap && |table.elements| == maxNodes
      && table.elements == Eligible(tree, whole[..seen - 1], interactiveOnly)
      && IsEligible(tree, whole[seen - 1], interactiveOnly)
  {
    NothingListed(tree, interactiveOnly);
    NothingVisited(tree, root, cap, whole);
    assert Describes([], tree, [], table.generation);
    hide Eligible, Progress, Flat, Describes, Handle, Take;
    nodes, truncated, dropped := [], false, false;
    var visited := 0;
    var queue := [Item(root, 0)];
    while queue != []
      invariant table.InRange() && (old(table.Valid()) ==> table.Valid())
      invariant table.generation == old(table.generation)
      invariant Progress(tree, whole, cap, visited, queue, truncated)
      invariant table.elements == Eligible(tree, whole[..visited], interactiveOnly)
      invariant |table.elements| <= maxNodes
      invariant Describes(nodes, tree, table.elements, table.generation)
      decreases cap - visited
    {
      var item := queue[0];
      NextInOrder(tree, whole, cap, visited, queue, truncated);
      OneMoreVisited(tree, whole, cap, visited, queue, truncated, cap - visited - |queue|);
      OneMoreListed(tree, whole, visited, interactiveOnly);
      queue := queue[1..];
      visited := visited + 1;
      if visited > cap {
        truncated := true;
        break;
      }
      var info := tree.read(item.element);
      if info.None? {
        continue;
      }
      var isDropped;
      nodes, isDropped := Consider(tree, item, info.value, interactiveOnly, maxNodes, nodes, table);
      if isDropped {
        return nodes, true, visited, true;
      }
      var full;
      queue, full := EnqueueKids(tree, item, visited, queue, cap);
      truncated := truncated || full;
    }
    seen := visited;
  }

  /** Lists an eligible element, unless there is no place for it any more. */
  method Consider(
      tree: Tree, item: Item, info: Info, interactiveOnly: bool, maxNodes: nat, nodes: seq<Node>,
      table: HandleTable<Element>)
    returns (more: seq<Node>, dropped: bool)
    requires table.InRange() && |table.elements| <= maxNodes < U64_LIMIT
    requires tree.read(item.element) == Some(info)
    requires Describes(nodes, tree, table.elements, table.generation)
    modifies table
    ensures table.InRange() && (old(table.Valid()) ==> table.Valid())
    ensures table.generation == old(table.generation) && |table.elements| <= maxNodes
    ensures dropped <==> IsEligible(tree, item, interactiveOnly) && |old(table.elements)| == maxNodes
    ensures table.elements == old(table.elements) +
      if !dropped && IsEligible(tree, item, interactiveOnly) then [item.element] else []
    ensures Describes(more, tree, table.elements, table.generation)
  {
    more, dropped := nodes, false;
    if !interactiveOnly || info.interactive {
      if |nodes| >= maxNodes {
        dropped := true;
        return;
      }
      more := Accept(tree, item.element, info, nodes, table);
    }
  }

  /** Stores one element and lists its node. */
  method Accept(tree: Tree, element: Element, info: Info, nodes: seq<Node>, table: HandleTable<Element>)
    returns (more: seq<Node>)
    requires table.InRange() && |table.elements| < U64_LIMIT && tree.read(element) == Some(info)
    requires Describes(nodes, tree, table.elements, table.generation)
    modifies table
    ensures table.InRange() && (old(table.Valid()) ==> table.Valid())
    ensures table.generation == old(table.generation)
    ensures table.elements == old(table.elements) + [element]
    ensures Describes(more, tree, table.elements, table.generation)
  {
    var handle := table.Store(element);
    more := nodes + [Node(handle, info)];
  }

  lemma NothingListed(tree: Tree, only: bool)
    ensures Eligible(tree, [], only) == []
  {
  }

  lemma OneMoreListed(tree: Tree, items: seq<Item>, v: nat, only: bool)
    requires v < |items|
    ensures Eligible(tree, items[..v + 1], only) ==
      Eligible(tree, items[..v], only) + (if IsEligible(tree, items[v], only) then [items[v].element] else [])
  {
    assert items[..v + 1] == items[..v] + [items[v]];
    EligibleConcat(tree, items[..v], [items[v]], only);
  }

  /** The walk stops at the first eligible element it has no place for. */
  lemma DroppedElement(tree: Tree, root: Element, cap: nat, v: nat, only: bool, maxNodes: nat)
    requires 0 < v <= |Whole(tree, root, cap)| && v <= cap
    requires |Eligible(tree, Whole(tree, root, cap)[..v - 1], only)| == maxNodes
    requires IsEligible(tree, Whole(tree, root, cap)[v - 1], only)
    ensures
      var eligible := Eligible(tree, LevelOrder(tree, root, cap), only);
      |eligible| > maxNodes && Take(eligible, maxNodes) == Eligible(tree, Whole(tree, root, cap)[..v - 1], only)
  {
    var order, w := LevelOrder(tree, root, cap), Whole(tree, root, cap);
    assert order == w[..v - 1] + ([w[v - 1]] + order[v..]);
    EligibleConcat(tree, w[..v - 1], [w[v - 1]] + order[v..], only);
    EligibleConcat(tree, [w[v - 1]], order[v..], only);
  }
}
