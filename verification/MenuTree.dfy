/** Building the menu forest from rows: link every row to its parent, then sort every list of
    siblings. The rows may hold cycles, self-parents and absent parents. */
module MenuTree {
  import opened Counting
  import opened Options
  import opened Hierarchy
  import opened Menus

  // ----- What the forest is -----

  /** The ids at the top, and the ids listed under each row. */
  datatype Forest = Forest(roots: seq<Id>, kids: map<Id, seq<Id>>)

  /** Where a row belongs: at the top, or under its parent. */
  function PlaceOf(p: Parents, x: Id): Option<Id>
    requires x in p
  {
    if IsRoot(p, x) then None else Some(p[x])
  }

  /** `ids` lists, once each, exactly the rows of `among` that belong at `place`. */
  ghost predicate Lists(ids: seq<Id>, p: Parents, among: set<Id>, place: Option<Id>) {
    forall c: Id :: Times(ids, c) == if c in among && c in p && PlaceOf(p, c) == place then 1 else 0
  }

  /** Every row lists exactly those of its children that are among `among`. */
  ghost predicate KidsListed(kids: map<Id, seq<Id>>, p: Parents, among: set<Id>) {
    kids.Keys == p.Keys && forall h :: h in p ==> Lists(kids[h], p, among, Some(h))
  }

  ghost predicate Linked(f: Forest, p: Parents) {
    Lists(f.roots, p, p.Keys, None) && KidsListed(f.kids, p, p.Keys)
  }

  predicate InOrder(ids: seq<Id>, menus: Table) {
    forall i, j :: 0 <= i < j < |ids| && ids[i] in menus && ids[j] in menus ==>
      menus[ids[i]].sortOrder <= menus[ids[j]].sortOrder
  }

  /** Every row under its parent, and the siblings one can reach from the top in order. */
  ghost predicate WellBuilt(f: Forest, menus: Table) {
    && Linked(f, ParentsOf(menus))
    && InOrder(f.roots, menus)
    && forall h :: h in menus && Rooted(ParentsOf(menus), h) ==> InOrder(f.kids[h], menus)
  }

  /** The ids met walking the forest from `ids` down, `fuel` levels deep. */
  function Preorder(f: Forest, ids: seq<Id>, fuel: nat): seq<Id>
    decreases fuel, |ids|
  {
    if ids == [] || fuel == 0 then []
    else
      var below := if ids[0] in f.kids then Preorder(f, f.kids[ids[0]], fuel - 1) else [];
      [ids[0]] + below + Preorder(f, ids[1..], fuel)
  }

  // ----- Exactly the rooted rows, once each -----

  /** The row `k` parents above `x`. */
  function Up(p: Parents, x: Id, k: nat): Id
    decreases k
  {
    if k == 0 || x !in p then x else Up(p, p[x], k - 1)
  }

  lemma {:induction false} UpIsRooted(p: Parents, x: Id, e: nat, k: nat)
    requires RootedAt(p, x, e) && k <= e
    ensures RootedAt(p, Up(p, x, k), e - k)
    ensures k > 0 ==> RootedAt(p, Up(p, x, k - 1), e - k + 1) && PlaceOf(p, Up(p, x, k - 1)) == Some(Up(p, x, k))
    decreases k
  {
    if k == 0 {
    } else {
      UpIsRooted(p, p[x], e - 1, k - 1);
    }
  }

  lemma KidsAt(kids: map<Id, seq<Id>>, p: Parents, h: Id, c: Id)
    requires KidsListed(kids, p, p.Keys) && h in p
    ensures h in kids && Times(kids[h], c) == if c in p && PlaceOf(p, c) == Some(h) then 1 else 0
    ensures c in kids[h] <==> c in p && PlaceOf(p, c) == Some(h)
  {
    assert Lists(kids[h], p, p.Keys, Some(h));
    TimesIn(kids[h], c);
  }

  lemma RootsAt(f: Forest, p: Parents, c: Id)
    requires Linked(f, p)
    ensures Times(f.roots, c) == if c in p && IsRoot(p, c) then 1 else 0
    ensures c in f.roots <==> c in p && IsRoot(p, c)
  {
    assert Lists(f.roots, p, p.Keys, None);
    TimesIn(f.roots, c);
  }

  lemma KidsAreDeeper(kids: map<Id, seq<Id>>, p: Parents, h: Id, d: nat)
    requires KidsListed(kids, p, p.Keys) && RootedAt(p, h, d)
    ensures h in kids && forall c :: c in kids[h] ==> RootedAt(p, c, d + 1)
  {
    hide KidsListed;
    hide Times;
    KidsAt(kids, p, h, h);
    forall c | c in kids[h] ensures RootedAt(p, c, d + 1) {
      KidsAt(kids, p, h, c);
    }
  }

  /** Walking down from rows of depth `d` meets a row of depth `e` as often as they list its ancestor
      of depth `d`. */
  lemma {:induction false} WalkMeets(f: Forest, p: Parents, ids: seq<Id>, d: nat, fuel: nat, x: Id, e: nat)
    requires Linked(f, p) && (forall c :: c in ids ==> RootedAt(p, c, d))
    requires RootedAt(p, x, e) && e < d + fuel
    ensures Times(Preorder(f, ids, fuel), x) == if e < d then 0 else Times(ids, Up(p, x, e - d))
    decreases fuel, |ids|
  {
    hide KidsListed;
    hide Up;
    hide RootedAt;
    if ids == [] || fuel == 0 {
    } else {
      var h := ids[0];
      KidsAreDeeper(f.kids, p, h, d);
      WalkMeets(f, p, f.kids[h], d + 1, fuel - 1, x, e);
      WalkMeets(f, p, ids[1..], d, fuel, x, e);
      MeetsThrough(f, p, h, d, x, e);
      WalkSplits(f, ids, fuel, x);
    }
  }

  lemma WalkSplits(f: Forest, ids: seq<Id>, fuel: nat, x: Id)
    requires ids != [] && fuel > 0 && ids[0] in f.kids
    ensures Times(Preorder(f, ids, fuel), x) ==
      (if x == ids[0] then 1 else 0) + Times(Preorder(f, f.kids[ids[0]], fuel - 1), x)
      + Times(Preorder(f, ids[1..], fuel), x)
  {
    var below := Preorder(f, f.kids[ids[0]], fuel - 1);
    TimesConcat([ids[0]] + below, Preorder(f, ids[1..], fuel), x);
    TimesConcat([ids[0]], below, x);
  }

  /** The part of the count that comes from one row and what is listed under it. */
  lemma MeetsThrough(f: Forest, p: Parents, h: Id, d: nat, x: Id, e: nat)
    requires Linked(f, p) && RootedAt(p, h, d) && RootedAt(p, x, e)
    ensures h in f.kids
    ensures (if x == h then 1 else 0) + (if e < d + 1 then 0 else Times(f.kids[h], Up(p, x, e - d - 1)))
         == (if e >= d && Up(p, x, e - d) == h then 1 else 0)
  {
    hide KidsListed;
    hide Times;
    KidsAt(f.kids, p, h, h);
    if x == h {
      DepthIsUnique(p, x, d, e);
    }
    if e > d {
      UpIsRooted(p, x, e, e - d);
      KidsAt(f.kids, p, h, Up(p, x, e - d - 1));
    }
  }

  lemma {:induction false} WalkMeetsOnlyRooted(f: Forest, p: Parents, ids: seq<Id>, d: nat, fuel: nat, x: Id)
    requires Linked(f, p) && (forall c :: c in ids ==> RootedAt(p, c, d))
    requires Times(Preorder(f, ids, fuel), x) > 0
    ensures Rooted(p, x)
    decreases fuel, |ids|
  {
    hide KidsListed;
    hide RootedAt;
    var h := ids[0];
    KidsAreDeeper(f.kids, p, h, d);
    WalkSplits(f, ids, fuel, x);
    if x == h {
      assert RootedAt(p, x, d);
    } else if Times(Preorder(f, f.kids[h], fuel - 1), x) > 0 {
      WalkMeetsOnlyRooted(f, p, f.kids[h], d + 1, fuel - 1, x);
    } else {
      WalkMeetsOnlyRooted(f, p, ids[1..], d, fuel, x);
    }
  }

  /** The forest shows a row exactly once if following parent ids from it reaches 0 or an absent id,
      and not at all otherwise. */
  lemma ForestShowsExactlyTheRooted(f: Forest, menus: Table, fuel: nat, x: Id)
    requires WellBuilt(f, menus) && fuel >= |menus|
    ensures Times(Preorder(f, f.roots, fuel), x) == if Rooted(ParentsOf(menus), x) then 1 else 0
  {
    hide Linked;
    hide Times;
    hide Preorder;
    var p := ParentsOf(menus);
    assert p.Keys == menus.Keys;
    forall c | c in f.roots ensures RootedAt(p, c, 0) {
      RootsAt(f, p, c);
    }
    if Rooted(p, x) {
      var e: nat :| RootedAt(p, x, e);
      DepthIsBounded(p, x, e);
      assert |p| == |menus|;
      WalkMeets(f, p, f.roots, 0, fuel, x, e);
      UpIsRooted(p, x, e, e);
      RootsAt(f, p, Up(p, x, e));
    } else if Times(Preorder(f, f.roots, fuel), x) > 0 {
      WalkMeetsOnlyRooted(f, p, f.roots, 0, fuel, x);
    }
  }

  // ----- The steps, on ids -----

  lemma ListsNext(ids: seq<Id>, p: Parents, among: set<Id>, place: Option<Id>, c: Id)
    requires Lists(ids, p, among, place) && c in p && c !in among
    ensures Lists(if PlaceOf(p, c) == place then ids + [c] else ids, p, among + {c}, place)
  {
    forall d: Id ensures Times(ids + [c], d) == Times(ids, d) + (if d == c then 1 else 0) {
      TimesConcat(ids, [c], d);
    }
  }

  /** Appending a row where it belongs. */
  lemma AttachKeepsListed(roots: seq<Id>, kids: map<Id, seq<Id>>, p: Parents, among: set<Id>, c: Id)
    requires KidsListed(kids, p, among) && Lists(roots, p, among, None) && c in p && c !in among
    ensures IsRoot(p, c) ==> KidsListed(kids, p, among + {c}) && Lists(roots + [c], p, among + {c}, None)
    ensures !IsRoot(p, c) ==>
              KidsListed(kids[p[c] := kids[p[c]] + [c]], p, among + {c}) && Lists(roots, p, among + {c}, None)
  {
    ListsNext(roots, p, among, None, c);
    forall h | h in p
      ensures Lists(if PlaceOf(p, c) == Some(h) then kids[h] + [c] else kids[h], p, among + {c}, Some(h))
    {
      ListsNext(kids[h], p, among, Some(h), c);
    }
  }

  /** `y` and every row below it list their children in order. */
  ghost predicate SortedUnder(kids: map<Id, seq<Id>>, menus: Table, y: Id) {
    forall x, k: nat :: Above(ParentsOf(menus), x, y, k) && x in kids ==> InOrder(kids[x], menus)
  }

  /** Nothing that was sorted stops being so. */
  ghost predicate StaysSorted(kids: map<Id, seq<Id>>, after: map<Id, seq<Id>>, menus: Table) {
    forall y :: SortedUnder(kids, menus, y) ==> SortedUnder(after, menus, y)
  }

  lemma ReplacingKeepsSorted(kids: map<Id, seq<Id>>, menus: Table, h: Id, ids: seq<Id>)
    requires h in kids && InOrder(ids, menus)
    ensures StaysSorted(kids, kids[h := ids], menus)
  {
    forall y | SortedUnder(kids, menus, y) ensures SortedUnder(kids[h := ids], menus, y) {
      forall x, k: nat | Above(ParentsOf(menus), x, y, k) && x in kids[h := ids]
        ensures InOrder(kids[h := ids][x], menus)
      {
        assert x in kids;
      }
    }
  }

  /** The step just below `y` on the way up from `x`. */
  lemma {:induction false} AboveThroughChild(p: Parents, x: Id, y: Id, k: nat) returns (c: Id)
    requires k > 0 && Above(p, x, y, k)
    ensures Above(p, x, c, k - 1) && c in p && PlaceOf(p, c) == Some(y)
    decreases k
  {
    if k == 1 {
      c := x;
    } else {
      c := AboveThroughChild(p, p[x], y, k - 1);
    }
  }

  lemma SortedFromChildren(kids: map<Id, seq<Id>>, menus: Table, h: Id)
    requires KidsListed(kids, ParentsOf(menus), menus.Keys) && h in kids && InOrder(kids[h], menus)
    requires forall c :: c in kids[h] ==> SortedUnder(kids, menus, c)
    ensures SortedUnder(kids, menus, h)
  {
    var p := ParentsOf(menus);
    forall x, k: nat | Above(p, x, h, k) && x in kids ensures InOrder(kids[x], menus) {
      if k > 0 {
        var c := AboveThroughChild(p, x, h, k);
        assert Lists(kids[h], p, menus.Keys, Some(h));
        TimesIn(kids[h], c);
      }
    }
  }

  // ----- Building it -----

  class MenuInfo {
    const menu: Menu
    var children: seq<MenuInfo>

    constructor (menu: Menu)
      ensures this.menu == menu && children == []
    {
      this.menu := menu;
      children := [];
    }
  }

  function Ids(nodes: seq<MenuInfo>): (ids: seq<Id>)
    ensures |ids| == |nodes| && forall i :: 0 <= i < |nodes| ==> ids[i] == nodes[i].menu.id
  {
    seq(|nodes|, i requires 0 <= i < |nodes| => nodes[i].menu.id)
  }

  /** The listed nodes are those of the map. */
  ghost predicate AllFrom(nodes: seq<MenuInfo>, nodeMap: map<Id, MenuInfo>) {
    forall i :: 0 <= i < |nodes| ==> nodes[i].menu.id in nodeMap && nodeMap[nodes[i].menu.id] == nodes[i]
  }

  ghost predicate Holds(nodeMap: map<Id, MenuInfo>, menus: Table) {
    nodeMap.Keys == menus.Keys && forall id :: id in nodeMap ==> nodeMap[id].menu == menus[id] && menus[id].id == id
  }

  /** Children are nodes of the map. */
  ghost predicate Closed(nodeMap: map<Id, MenuInfo>)
    reads nodeMap.Values
  {
    forall h :: h in nodeMap ==> AllFrom(nodeMap[h].children, nodeMap)
  }

  function KidsOf(nodeMap: map<Id, MenuInfo>): map<Id, seq<Id>>
    reads nodeMap.Values
  {
    map h | h in nodeMap :: Ids(nodeMap[h].children)
  }

  function ForestOf(roots: seq<MenuInfo>, nodeMap: map<Id, MenuInfo>): Forest
    reads nodeMap.Values
  {
    Forest(Ids(roots), KidsOf(nodeMap))
  }

  /** One node per id; when an id occurs in several rows, the last row wins. */
  method MakeNodes(rows: seq<Menu>) returns (nodeMap: map<Id, MenuInfo>)
    ensures Holds(nodeMap, ByLastId(rows))
    ensures forall id :: id in nodeMap ==> fresh(nodeMap[id]) && nodeMap[id].children == []
  {
    nodeMap := map[];
    for i := 0 to |rows|
      invariant Holds(nodeMap, ByLastId(rows[..i]))
      invariant forall id :: id in nodeMap ==> fresh(nodeMap[id]) && nodeMap[id].children == []
    {
      var node := new MenuInfo(rows[i]);
      nodeMap := nodeMap[rows[i].id := node];
      assert rows[..i+1][..i] == rows[..i];
    }
    assert rows[..|rows|] == rows;
  }

  /** Gives a node another list of children; nothing else changes. */
  method SetChildren(ghost nodeMap: map<Id, MenuInfo>, node: MenuInfo, children: seq<MenuInfo>)
    requires node.menu.id in nodeMap && nodeMap[node.menu.id] == node
    requires Closed(nodeMap) && AllFrom(children, nodeMap)
    requires forall id :: id in nodeMap ==> nodeMap[id].menu.id == id
    modifies node
    ensures Closed(nodeMap) && KidsOf(nodeMap) == old(KidsOf(nodeMap))[node.menu.id := Ids(children)]
    ensures node.children == children
  {
    ghost var before := KidsOf(nodeMap);
    node.children := children;
    assert forall h :: h in nodeMap && h != node.menu.id ==> KidsOf(nodeMap)[h] == before[h];
  }

  /** Appends one node to its parent's children, or to the roots. */
  method Attach(nodeMap: map<Id, MenuInfo>, roots: seq<MenuInfo>, node: MenuInfo,
                ghost menus: Table, ghost done: set<Id>)
    returns (r: seq<MenuInfo>)
    requires Holds(nodeMap, menus) && node.menu.id in nodeMap && nodeMap[node.menu.id] == node
    requires node.menu.id !in done && Closed(nodeMap) && AllFrom(roots, nodeMap)
    requires Lists(Ids(roots), ParentsOf(menus), done, None) && KidsListed(KidsOf(nodeMap), ParentsOf(menus), done)
    modifies nodeMap.Values
    ensures Closed(nodeMap) && AllFrom(r, nodeMap)
    ensures Lists(Ids(r), ParentsOf(menus), done + {node.menu.id}, None)
    ensures KidsListed(KidsOf(nodeMap), ParentsOf(menus), done + {node.menu.id})
  {
    hide Lists;
    hide KidsListed;
    hide Closed;
    AttachKeepsListed(Ids(roots), KidsOf(nodeMap), ParentsOf(menus), done, node.menu.id);
    assert Ids(roots + [node]) == Ids(roots) + [node.menu.id];
    if node.menu.parentId == 0 {
      r := roots + [node];
    } else if node.menu.parentId in nodeMap {
      r := roots;
      var parent := nodeMap[node.menu.parentId];
      AppendFrom(nodeMap, parent, node);
      SetChildren(nodeMap, parent, parent.children + [node]);
    } else {
      r := roots + [node];
    }
  }

  lemma AppendFrom(nodeMap: map<Id, MenuInfo>, parent: MenuInfo, node: MenuInfo)
    requires Closed(nodeMap) && parent.menu.id in nodeMap && nodeMap[parent.menu.id] == parent
    requires node.menu.id in nodeMap && nodeMap[node.menu.id] == node
    ensures AllFrom(parent.children + [node], nodeMap)
    ensures Ids(parent.children + [node]) == KidsOf(nodeMap)[parent.menu.id] + [node.menu.id]
  {
  }

  lemma Pick(ids: set<Id>)
    requires ids != {}
    ensures exists id :: id in ids
  {
    assert (forall id :: id !in ids) ==> ids == {};
  }

  lemma NothingListed(nodeMap: map<Id, MenuInfo>, menus: Table)
    requires Holds(nodeMap, menus) && forall id :: id in nodeMap ==> nodeMap[id].children == []
    ensures Closed(nodeMap) && Lists(Ids([]), ParentsOf(menus), {}, None)
    ensures KidsListed(KidsOf(nodeMap), ParentsOf(menus), {})
  {
  }

  /** Links every node, in whatever order the map gives them. */
  method Link(nodeMap: map<Id, MenuInfo>, ghost menus: Table) returns (roots: seq<MenuInfo>)
    requires Holds(nodeMap, menus) && forall id :: id in nodeMap ==> nodeMap[id].children == []
    modifies nodeMap.Values
    ensures Closed(nodeMap) && AllFrom(roots, nodeMap)
    ensures Lists(Ids(roots), ParentsOf(menus), menus.Keys, None)
    ensures KidsListed(KidsOf(nodeMap), ParentsOf(menus), menus.Keys)
  {
    hide Lists;
    hide KidsListed;
    hide Closed;
    roots := [];
    var todo := nodeMap.Keys;
    ghost var done := {};
    NothingListed(nodeMap, menus);
    while todo != {}
      invariant todo + done == nodeMap.Keys && todo !! done
      invariant Closed(nodeMap) && AllFrom(roots, nodeMap)
      invariant Lists(Ids(roots), ParentsOf(menus), done, None) && KidsListed(KidsOf(nodeMap), ParentsOf(menus), done)
      decreases todo
    {
      Pick(todo);
      var id :| id in todo;
      roots := Attach(nodeMap, roots, nodeMap[id], menus, done);
      todo, done := todo - {id}, done + {id};
    }
    assert done == menus.Keys;
  }

  // ----- Sorting it -----

  predicate Sorted(nodes: seq<MenuInfo>) {
    forall i, j :: 0 <= i < j < |nodes| ==> nodes[i].menu.sortOrder <= nodes[j].menu.sortOrder
  }

  /** Puts a node behind every node whose order is not greater. */
  function Insert(nodes: seq<MenuInfo>, n: MenuInfo): seq<MenuInfo> {
    if nodes == [] || n.menu.sortOrder < nodes[0].menu.sortOrder then [n] + nodes
    else [nodes[0]] + Insert(nodes[1..], n)
  }

  function StableSort(nodes: seq<MenuInfo>): seq<MenuInfo> {
    if nodes == [] then [] else Insert(StableSort(nodes[..|nodes|-1]), nodes[|nodes|-1])
  }

  lemma {:induction false} InsertKeepsFrom(nodes: seq<MenuInfo>, n: MenuInfo, nodeMap: map<Id, MenuInfo>)
    requires AllFrom(nodes, nodeMap) && n.menu.id in nodeMap && nodeMap[n.menu.id] == n
    ensures AllFrom(Insert(nodes, n), nodeMap)
  {
    if nodes == [] || n.menu.sortOrder < nodes[0].menu.sortOrder {
    } else {
      InsertKeepsFrom(nodes[1..], n, nodeMap);
    }
  }

  lemma {:induction false} InsertKeepsSorted(nodes: seq<MenuInfo>, n: MenuInfo)
    requires Sorted(nodes)
    ensures Sorted(Insert(nodes, n)) && Insert(nodes, n) != []
    ensures Insert(nodes, n)[0] == n || (nodes != [] && Insert(nodes, n)[0] == nodes[0])
  {
    if nodes == [] || n.menu.sortOrder < nodes[0].menu.sortOrder {
    } else {
      InsertKeepsSorted(nodes[1..], n);
    }
  }

  lemma {:induction false} InsertTimes(nodes: seq<MenuInfo>, n: MenuInfo, c: Id)
    ensures Times(Ids(Insert(nodes, n)), c) == Times(Ids(nodes), c) + (if n.menu.id == c then 1 else 0)
  {
    if nodes == [] || n.menu.sortOrder < nodes[0].menu.sortOrder {
      assert Ids([n] + nodes)[1..] == Ids(nodes);
    } else {
      InsertTimes(nodes[1..], n, c);
      assert Ids(nodes)[1..] == Ids(nodes[1..]);
      assert Ids(Insert(nodes, n))[1..] == Ids(Insert(nodes[1..], n));
    }
  }

  /** The nodes with one sort order, as they stand. */
  function OfOrder(nodes: seq<MenuInfo>, order: int): seq<MenuInfo> {
    if nodes == [] then []
    else (if nodes[0].menu.sortOrder == order then [nodes[0]] else []) + OfOrder(nodes[1..], order)
  }

  lemma {:induction false} NoneOfSmallerOrder(nodes: seq<MenuInfo>, order: int)
    requires Sorted(nodes) && (nodes != [] ==> order < nodes[0].menu.sortOrder)
    ensures OfOrder(nodes, order) == []
  {
    if nodes == [] {
    } else {
      NoneOfSmallerOrder(nodes[1..], order);
    }
  }

  lemma {:induction false} OfOrderConcat(a: seq<MenuInfo>, b: seq<MenuInfo>, order: int)
    ensures OfOrder(a + b, order) == OfOrder(a, order) + OfOrder(b, order)
  {
    if a == [] {
      assert a + b == b;
    } else {
      assert (a + b)[1..] == a[1..] + b;
      OfOrderConcat(a[1..], b, order);
    }
  }

  lemma InsertedLater(nodes: seq<MenuInfo>, n: MenuInfo, order: int)
    requires nodes != [] && n.menu.sortOrder >= nodes[0].menu.sortOrder
    requires OfOrder(Insert(nodes[1..], n), order) == OfOrder(nodes[1..], order) + OfOrder([n], order)
    ensures OfOrder(Insert(nodes, n), order) == OfOrder(nodes, order) + OfOrder([n], order)
  {
    hide OfOrder;
    var (head, rest) := ([nodes[0]], nodes[1..]);
    assert nodes == head + rest;
    OfOrderConcat(head, rest, order);
    OfOrderConcat(head, Insert(rest, n), order);
    var (a, b, c) := (OfOrder(head, order), OfOrder(rest, order), OfOrder([n], order));
    assert a + (b + c) == (a + b) + c;
  }

  /** A node is inserted behind all others of its order. */
  lemma {:induction false} InsertIsStable(nodes: seq<MenuInfo>, n: MenuInfo, order: int)
    requires Sorted(nodes)
    ensures OfOrder(Insert(nodes, n), order) == OfOrder(nodes, order) + OfOrder([n], order)
  {
    if nodes == [] {
    } else if n.menu.sortOrder < nodes[0].menu.sortOrder {
      OfOrderConcat([n], nodes, order);
      InsertedFirst(nodes, n, order);
    } else {
      InsertIsStable(nodes[1..], n, order);
      InsertedLater(nodes, n, order);
    }
  }

  lemma InsertedFirst(nodes: seq<MenuInfo>, n: MenuInfo, order: int)
    requires Sorted(nodes) && nodes != [] && n.menu.sortOrder < nodes[0].menu.sortOrder
    ensures OfOrder([n], order) == [] || OfOrder(nodes, order) == []
  {
    NoneOfSmallerOrder(nodes, n.menu.sortOrder);
  }

  /** Sorting a list of nodes of the map orders it, neither adds, drops nor repeats a node, and leaves
      those of equal order as they stood. */
  lemma {:induction false} StableSortEffect(nodes: seq<MenuInfo>, nodeMap: map<Id, MenuInfo>)
    requires AllFrom(nodes, nodeMap)
    ensures Sorted(StableSort(nodes)) && AllFrom(StableSort(nodes), nodeMap)
    ensures forall c :: Times(Ids(StableSort(nodes)), c) == Times(Ids(nodes), c)
    ensures forall order :: OfOrder(StableSort(nodes), order) == OfOrder(nodes, order)
  {
    if nodes == [] {
    } else {
      var (init, last) := (nodes[..|nodes|-1], nodes[|nodes|-1]);
      StableSortEffect(init, nodeMap);
      InsertKeepsSorted(StableSort(init), last);
      InsertKeepsFrom(StableSort(init), last, nodeMap);
      assert Ids(nodes) == Ids(init) + [last.menu.id];
      forall c ensures Times(Ids(StableSort(nodes)), c) == Times(Ids(nodes), c) {
        InsertTimes(StableSort(init), last, c);
        TimesConcat(Ids(init), [last.menu.id], c);
      }
      assert nodes == init + [last];
      forall order ensures OfOrder(StableSort(nodes), order) == OfOrder(nodes, order) {
        InsertIsStable(StableSort(init), last, order);
        OfOrderConcat(init, [last], order);
      }
    }
  }

  lemma SortedOnIds(nodes: seq<MenuInfo>, nodeMap: map<Id, MenuInfo>, menus: Table)
    requires AllFrom(nodes, nodeMap) && Holds(nodeMap, menus)
    ensures Sorted(nodes) ==> InOrder(Ids(nodes), menus)
  {
  }

  lemma SortKeepsIds(nodes: seq<MenuInfo>, nodeMap: map<Id, MenuInfo>, p: Parents, place: Option<Id>, d: nat)
    requires AllFrom(nodes, nodeMap)
    ensures Lists(Ids(nodes), p, p.Keys, place) ==> Lists(Ids(StableSort(nodes)), p, p.Keys, place)
    ensures (forall c :: c in Ids(nodes) ==> RootedAt(p, c, d)) ==>
              forall c :: c in Ids(StableSort(nodes)) ==> RootedAt(p, c, d)
  {
    StableSortEffect(nodes, nodeMap);
    forall c | c in Ids(StableSort(nodes)) ensures c in Ids(nodes) {
      TimesIn(Ids(StableSort(nodes)), c);
      TimesIn(Ids(nodes), c);
    }
  }

  /** Sorts a list of siblings, and the lists of everything below them. It ends, although the rows
      may hold cycles: what it meets is rooted, and a rooted row is less deep than there are rows. */
  method SortNodes(nodes: seq<MenuInfo>, ghost nodeMap: map<Id, MenuInfo>, ghost menus: Table, ghost d: nat)
    returns (sorted: seq<MenuInfo>)
    requires Holds(nodeMap, menus) && Closed(nodeMap) && KidsListed(KidsOf(nodeMap), ParentsOf(menus), menus.Keys)
    requires AllFrom(nodes, nodeMap) && d <= |menus|
    requires forall c :: c in Ids(nodes) ==> RootedAt(ParentsOf(menus), c, d)
    modifies nodeMap.Values
    ensures sorted == StableSort(nodes) && AllFrom(sorted, nodeMap) && InOrder(Ids(sorted), menus)
    ensures Closed(nodeMap) && KidsListed(KidsOf(nodeMap), ParentsOf(menus), menus.Keys)
    ensures StaysSorted(old(KidsOf(nodeMap)), KidsOf(nodeMap), menus)
    ensures forall c :: c in Ids(sorted) ==> SortedUnder(KidsOf(nodeMap), menus, c)
    decreases |menus| - d, 1
  {
    hide Closed;
    hide KidsListed;
    hide KidsOf;
    hide SortedUnder;
    sorted := StableSort(nodes);
    StableSortEffect(nodes, nodeMap);
    SortedOnIds(sorted, nodeMap, menus);
    SortKeepsIds(nodes, nodeMap, ParentsOf(menus), None, d);
    for i := 0 to |sorted|
      invariant Closed(nodeMap) && KidsListed(KidsOf(nodeMap), ParentsOf(menus), menus.Keys)
      invariant StaysSorted(old(KidsOf(nodeMap)), KidsOf(nodeMap), menus)
      invariant forall j :: 0 <= j < i ==> SortedUnder(KidsOf(nodeMap), menus, Ids(sorted)[j])
    {
      assert Ids(sorted)[i] in Ids(sorted);
      SortOne(sorted[i], nodeMap, menus, d);
    }
  }

  method SortOne(n: MenuInfo, ghost nodeMap: map<Id, MenuInfo>, ghost menus: Table, ghost d: nat)
    requires Holds(nodeMap, menus) && Closed(nodeMap) && KidsListed(KidsOf(nodeMap), ParentsOf(menus), menus.Keys)
    requires n.menu.id in nodeMap && nodeMap[n.menu.id] == n && RootedAt(ParentsOf(menus), n.menu.id, d)
    modifies nodeMap.Values
    ensures Closed(nodeMap) && KidsListed(KidsOf(nodeMap), ParentsOf(menus), menus.Keys)
    ensures StaysSorted(old(KidsOf(nodeMap)), KidsOf(nodeMap), menus)
    ensures SortedUnder(KidsOf(nodeMap), menus, n.menu.id)
    decreases |menus| - d, 0
  {
    hide Closed;
    hide KidsListed;
    hide SortedUnder;
    DepthIsBounded(ParentsOf(menus), n.menu.id, d);
    assert ParentsOf(menus).Keys == menus.Keys;
    ChildrenOf(n, nodeMap, menus, d);
    var kids := SortNodes(n.children, nodeMap, menus, d + 1);
    ghost var before := KidsOf(nodeMap);
    SetChildren(nodeMap, n, kids);
    SetKidsEffect(before, menus, n.menu.id, Ids(kids));
  }

  lemma ChildrenOf(n: MenuInfo, nodeMap: map<Id, MenuInfo>, menus: Table, d: nat)
    requires Holds(nodeMap, menus) && Closed(nodeMap) && KidsListed(KidsOf(nodeMap), ParentsOf(menus), menus.Keys)
    requires n.menu.id in nodeMap && nodeMap[n.menu.id] == n && RootedAt(ParentsOf(menus), n.menu.id, d)
    ensures AllFrom(n.children, nodeMap)
    ensures forall c :: c in Ids(n.children) ==> RootedAt(ParentsOf(menus), c, d + 1)
    ensures Lists(Ids(StableSort(n.children)), ParentsOf(menus), menus.Keys, Some(n.menu.id))
  {
    var p := ParentsOf(menus);
    assert p.Keys == menus.Keys;
    assert Lists(KidsOf(nodeMap)[n.menu.id], p, menus.Keys, Some(n.menu.id));
    KidsAreDeeper(KidsOf(nodeMap), p, n.menu.id, d);
    SortKeepsIds(n.children, nodeMap, p, Some(n.menu.id), d + 1);
  }

  lemma SetKidsEffect(kids: map<Id, seq<Id>>, menus: Table, h: Id, ids: seq<Id>)
    requires KidsListed(kids, ParentsOf(menus), menus.Keys) && h in menus
    requires InOrder(ids, menus) && Lists(ids, ParentsOf(menus), menus.Keys, Some(h))
    requires forall c :: c in ids ==> SortedUnder(kids, menus, c)
    ensures KidsListed(kids[h := ids], ParentsOf(menus), menus.Keys)
    ensures StaysSorted(kids, kids[h := ids], menus) && SortedUnder(kids[h := ids], menus, h)
  {
    ReplacingKeepsSorted(kids, menus, h, ids);
    SortedFromChildren(kids[h := ids], menus, h);
  }

  lemma {:induction false} RootedIsAboveRoot(p: Parents, x: Id, d: nat) returns (r: Id)
    requires RootedAt(p, x, d)
    ensures r in p && IsRoot(p, r) && Above(p, x, r, d)
    decreases d
  {
    if d == 0 {
      r := x;
    } else {
      r := RootedIsAboveRoot(p, p[x], d - 1);
    }
  }

  /** When every root is sorted below, so is everything that one can reach. */
  lemma SortedIsWellBuilt(f: Forest, menus: Table)
    requires KidsListed(f.kids, ParentsOf(menus), menus.Keys) && Lists(f.roots, ParentsOf(menus), menus.Keys, None)
    requires InOrder(f.roots, menus) && forall c :: c in f.roots ==> SortedUnder(f.kids, menus, c)
    ensures WellBuilt(f, menus)
  {
    var p := ParentsOf(menus);
    assert p.Keys == menus.Keys;
    forall h | h in menus && Rooted(p, h) ensures InOrder(f.kids[h], menus) {
      var d: nat :| RootedAt(p, h, d);
      var r := RootedIsAboveRoot(p, h, d);
      TimesIn(f.roots, r);
    }
  }

  lemma RootsAreShallow(roots: seq<Id>, menus: Table)
    requires Lists(roots, ParentsOf(menus), menus.Keys, None)
    ensures forall c :: c in roots ==> RootedAt(ParentsOf(menus), c, 0)
  {
    forall c | c in roots ensures RootedAt(ParentsOf(menus), c, 0) {
      TimesIn(roots, c);
    }
  }

  /** The whole of it: one node per row, linked and sorted. */
  method BuildTree(rows: seq<Menu>) returns (roots: seq<MenuInfo>, nodeMap: map<Id, MenuInfo>)
    ensures Holds(nodeMap, ByLastId(rows)) && AllFrom(roots, nodeMap)
    ensures forall id :: id in nodeMap ==> fresh(nodeMap[id])
    ensures WellBuilt(ForestOf(roots, nodeMap), ByLastId(rows))
  {
    hide Closed;
    hide KidsListed;
    hide WellBuilt;
    hide KidsOf;
    hide InOrder;
    hide Lists;
    nodeMap := MakeNodes(rows);
    ghost var menus := ByLastId(rows);
    roots := Link(nodeMap, menus);
    RootsAreShallow(Ids(roots), menus);
    SortKeepsIds(roots, nodeMap, ParentsOf(menus), None, 0);
    assert ParentsOf(menus).Keys == menus.Keys;
    roots := SortNodes(roots, nodeMap, menus, 0);
    SortedIsWellBuilt(ForestOf(roots, nodeMap), menus);
  }
}
