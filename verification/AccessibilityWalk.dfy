/** The bounded walks over an application's accessibility tree. Elements are told apart by `handle`. */
module AccessibilityWalk {
  import opened Wrappers
  import opened Sequences
  import opened Numerals

  const MAX_DEPTH := 24
  const MAX_MENU_DEPTH := 8

  /** The roles that the walks tell apart: `AXMenuBar`, `AXMenu`, `AXMenuItem`, `AXMenuBarItem`, and any other. */
  datatype Role = MenuBar | Menu | MenuItem | MenuBarItem | OtherRole(name: string)

  datatype Element = Element(handle: nat, role: Role, title: Option<string>, children: seq<Element>)

  datatype Node = Node(ref: string, element: Element, depth: nat)

  datatype Visited = Visited(element: Element, depth: nat)

  function Ref(i: nat): string {
    "@a" + Decimal(i)
  }

  /** What a budget leaves of a complete walk. */
  function Budget<T>(all: seq<T>, limit: int): seq<T> {
    if limit <= 0 then [] else if |all| <= limit then all else all[..limit]
  }

  lemma BudgetAppend<T>(first: seq<T>, second: seq<T>, limit: int)
    ensures Budget(Budget(first, limit) + second, limit) == Budget(first + second, limit)
  {
  }

  lemma BudgetSpent<T>(first: seq<T>, second: seq<T>, limit: int)
    requires |Budget(first, limit)| >= limit
    ensures Budget(first + second, limit) == Budget(first, limit)
  {
  }

  lemma BudgetSkips<T>(first: seq<T>, second: seq<T>, limit: int)
    requires first == Budget(first, limit) && (|first| >= limit || second == [])
    ensures first == Budget(first + second, limit)
  {
    assert first + [] == first;
  }

  // ---------------------------------------------------------------------------
  // The walk

  /** The complete walk: pre-order, cut below the maximal depth and at excluded menu bars. */
  function Preorder(e: Element, depth: nat, includeMenu: bool): seq<Visited>
    decreases e, 1
  {
    if depth > MAX_DEPTH || (e.role.MenuBar? && !includeMenu) then []
    else [Visited(e, depth)] + PreorderAll(e.children, depth + 1, includeMenu)
  }

  function PreorderAll(es: seq<Element>, depth: nat, includeMenu: bool): seq<Visited>
    decreases es, 0
  {
    if es == [] then [] else Preorder(es[0], depth, includeMenu) + PreorderAll(es[1..], depth, includeMenu)
  }

  lemma {:induction false} PreorderAllSnoc(es: seq<Element>, i: nat, depth: nat, includeMenu: bool)
    requires i < |es|
    ensures PreorderAll(es[..i + 1], depth, includeMenu)
            == PreorderAll(es[..i], depth, includeMenu) + Preorder(es[i], depth, includeMenu)
    decreases i
  {
    if i == 0 {
      assert es[..1] == [es[0]] && es[..1][1..] == [];
    } else {
      PreorderAllSnoc(es[1..], i - 1, depth, includeMenu);
      assert es[..i + 1][1..] == es[1..][..i] && es[..i][1..] == es[1..][..i - 1];
    }
  }

  /** One more child of a walk under a budget. */
  lemma VisitedChild(here: seq<Visited>, es: seq<Element>, i: nat, depth: nat, includeMenu: bool, limit: int)
    requires i < |es|
    ensures Budget(Budget(here + PreorderAll(es[..i], depth, includeMenu), limit)
                   + Preorder(es[i], depth, includeMenu), limit)
            == Budget(here + PreorderAll(es[..i + 1], depth, includeMenu), limit)
  {
    var done, child := PreorderAll(es[..i], depth, includeMenu), Preorder(es[i], depth, includeMenu);
    BudgetAppend(here + done, child, limit);
    PreorderAllSnoc(es, i, depth, includeMenu);
    assert (here + done) + child == here + (done + child);
  }

  /** The published windows, or the main or focused one, or the application element itself. */
  function Roots(windows: seq<Element>, main: Option<Element>, focused: Option<Element>, app: Element): seq<Element> {
    if windows != [] then windows
    else if main.Some? then [main.value]
    else if focused.Some? then [focused.value]
    else [app]
  }

  /** The nodes of a walk, each under the name of its position. */
  function Numbered(visited: seq<Visited>, name: nat -> string): seq<Node> {
    if visited == [] then []
    else
      var last := |visited| - 1;
      Numbered(visited[..last], name) + [Node(name(last), visited[last].element, visited[last].depth)]
  }

  lemma {:induction false} NumberedAt(visited: seq<Visited>, name: nat -> string, i: nat)
    requires i < |visited|
    ensures |Numbered(visited, name)| == |visited|
    ensures Numbered(visited, name)[i] == Node(name(i), visited[i].element, visited[i].depth)
  {
    var last := |visited| - 1;
    if last == 0 {
    } else {
      NumberedAt(visited[..last], name, if i < last then i else 0);
    }
  }

  /** Extending a walk by one element's subtree. */
  lemma PreorderUnfolds(before: seq<Visited>, here: seq<Visited>, after: seq<Visited>, e: Element, depth: nat,
                        includeMenu: bool, limit: int)
    requires depth <= MAX_DEPTH && (!e.role.MenuBar? || includeMenu)
    requires here == before + [Visited(e, depth)]
    requires after == Budget(here + PreorderAll(e.children, depth + 1, includeMenu), limit)
    ensures after == Budget(before + Preorder(e, depth, includeMenu), limit)
  {
    var below := PreorderAll(e.children, depth + 1, includeMenu);
    AppendAssociates(before, [Visited(e, depth)], below);
    assert Preorder(e, depth, includeMenu) == [Visited(e, depth)] + below;
  }

  lemma NothingToVisit(seen: seq<Visited>, e: Element, depth: nat, includeMenu: bool, limit: int)
    requires seen == Budget(seen, limit)
    requires |seen| >= limit || depth > MAX_DEPTH || (e.role.MenuBar? && !includeMenu)
    ensures seen == Budget(seen + Preorder(e, depth, includeMenu), limit)
  {
    BudgetSkips(seen, Preorder(e, depth, includeMenu), limit);
  }

  class Walker {
    const limit: int
    const includeMenu: bool
    var nodes: seq<Node>
    var index: nat
    ghost var seen: seq<Visited>

    /** The nodes are those visited so far, referred to by their position. */
    ghost predicate Valid()
      reads this
    {
      index == |seen| == |nodes| && nodes == Numbered(seen, Ref)
    }

    constructor (limit: int, includeMenu: bool)
      ensures Valid() && seen == [] && this.limit == limit && this.includeMenu == includeMenu
    {
      this.limit, this.includeMenu := limit, includeMenu;
      nodes, index, seen := [], 0, [];
    }

    method Visit(e: Element, depth: nat)
      requires Valid() && seen == Budget(seen, limit)
      modifies this
      ensures Valid() && seen == Budget(old(seen) + Preorder(e, depth, includeMenu), limit)
      decreases e
    {
      if |nodes| >= limit || depth > MAX_DEPTH || (e.role.MenuBar? && !includeMenu) {
        NothingToVisit(seen, e, depth, includeMenu, limit);
      } else {
        ghost var before := seen;
        Append(e, depth);
        ghost var here := seen;
        VisitAll(e.children, depth + 1);
        PreorderUnfolds(before, here, seen, e, depth, includeMenu, limit);
      }
    }

    method VisitAll(es: seq<Element>, depth: nat)
      requires Valid() && seen == Budget(seen, limit)
      modifies this
      ensures Valid() && seen == Budget(old(seen) + PreorderAll(es, depth, includeMenu), limit)
      decreases es
    {
      ghost var before := seen;
      assert before + PreorderAll(es[..0], depth, includeMenu) == before;
      for i := 0 to |es|
        invariant Valid()
        invariant seen == Budget(before + PreorderAll(es[..i], depth, includeMenu), limit)
      {
        Visit(es[i], depth);
        VisitedChild(before, es, i, depth, includeMenu, limit);
      }
      assert es[..|es|] == es;
    }

    method Append(e: Element, depth: nat)
      requires Valid() && |nodes| < limit
      modifies this
      ensures Valid() && seen == old(seen) + [Visited(e, depth)] && seen == Budget(seen, limit)
    {
      assert (seen + [Visited(e, depth)])[..|seen|] == seen;
      nodes := nodes + [Node(Ref(index), e, depth)];
      index := index + 1;
      seen := seen + [Visited(e, depth)];
    }
  }

  /** The nodes of a walk are the complete walk cut off by the budget, numbered in order. */
  method Walk(windows: seq<Element>, main: Option<Element>, focused: Option<Element>, app: Element,
              limit: int, includeMenu: bool) returns (nodes: seq<Node>)
    ensures nodes
            == Numbered(Budget(PreorderAll(Roots(windows, main, focused, app), 0, includeMenu), limit), Ref)
  {
    var walker := new Walker(limit, includeMenu);
    walker.VisitAll(Roots(windows, main, focused, app), 0);
    ghost var all := PreorderAll(Roots(windows, main, focused, app), 0, includeMenu);
    assert [] + all == all;
    nodes := walker.nodes;
  }

  /** The first node with this reference. */
  function Find(nodes: seq<Node>, ref: string): Option<Node> {
    if nodes == [] then None else if nodes[0].ref == ref then Some(nodes[0]) else Find(nodes[1..], ref)
  }

  lemma RefsAreDistinct(i: nat, j: nat)
    requires Ref(i) == Ref(j)
    ensures i == j
  {
    assert Ref(i)[2..] == Decimal(i) && Ref(j)[2..] == Decimal(j);
    DecimalInjective(i, j);
  }

  lemma {:induction false} FindsFirst(nodes: seq<Node>, i: nat)
    requires i < |nodes| && forall j :: 0 <= j < i ==> nodes[j].ref != nodes[i].ref
    ensures Find(nodes, nodes[i].ref) == Some(nodes[i])
  {
    if i == 0 {
    } else {
      assert nodes[0].ref != nodes[i].ref;
      FindsFirst(nodes[1..], i - 1);
    }
  }

  /** Looking up the reference of a position finds the element at that position. */
  lemma FindNumbered(visited: seq<Visited>, i: nat)
    requires i < |visited|
    ensures Find(Numbered(visited, Ref), Ref(i)) == Some(Node(Ref(i), visited[i].element, visited[i].depth))
  {
    var nodes := Numbered(visited, Ref);
    NumberedAt(visited, Ref, i);
    forall j | 0 <= j < i ensures nodes[j].ref != nodes[i].ref {
      NumberedAt(visited, Ref, j);
      if Ref(j) == Ref(i) {
        RefsAreDistinct(j, i);
      }
    }
    FindsFirst(nodes, i);
  }

  /** A reference below two budgets names the same element at both, and it is the element at that place of the
      complete walk. */
  lemma RefsAreStable(all: seq<Visited>, limit: int, other: int, i: nat)
    requires i < |Budget(all, limit)| && i < |Budget(all, other)|
    ensures Find(Numbered(Budget(all, limit), Ref), Ref(i)) == Find(Numbered(Budget(all, other), Ref), Ref(i))
            == Some(Node(Ref(i), all[i].element, all[i].depth))
  {
    FindNumbered(Budget(all, limit), i);
    FindNumbered(Budget(all, other), i);
  }

  lemma {:induction false} NumberedPrefix(visited: seq<Visited>, name: nat -> string, n: nat)
    requires n <= |visited|
    ensures Numbered(visited[..n], name) <= Numbered(visited, name)
  {
    if n < |visited| {
      NumberedPrefix(visited[..|visited| - 1], name, n);
      assert visited[..|visited| - 1][..n] == visited[..n];
    } else {
      assert visited[..n] == visited;
    }
  }

  /** A larger budget only adds nodes at the end. */
  lemma SmallerBudgetIsPrefix(all: seq<Visited>, limit: int, larger: int)
    requires limit <= larger
    ensures Numbered(Budget(all, limit), Ref) <= Numbered(Budget(all, larger), Ref)
  {
    var long := Budget(all, larger);
    assert Budget(all, limit) == long[..|Budget(all, limit)|];
    NumberedPrefix(long, Ref, |Budget(all, limit)|);
  }

  // ---------------------------------------------------------------------------
  // Menu entries

  datatype Entry = Entry(path: seq<string>, element: Element)

  predicate IsItem(e: Element) {
    (e.role.MenuItem? || e.role.MenuBarItem?) && e.title.Some? && e.title.value != ""
  }

  predicate HasMenu(es: seq<Element>) {
    exists i :: 0 <= i < |es| && es[i].role.Menu?
  }

  /** All leaf items below an element, without a budget. */
  function MenuBelow(e: Element, path: seq<string>, depth: nat): seq<Entry>
    decreases e, 1
  {
    if depth > MAX_MENU_DEPTH then [] else MenuChildren(e.children, path, depth)
  }

  function MenuChildren(es: seq<Element>, path: seq<string>, depth: nat): seq<Entry>
    decreases es, 0
  {
    if es == [] then [] else MenuChild(es[0], path, depth) + MenuChildren(es[1..], path, depth)
  }

  function MenuChild(e: Element, path: seq<string>, depth: nat): seq<Entry>
    decreases e, 2
  {
    if e.role.Menu? then MenuBelow(e, path, depth + 1)
    else if !IsItem(e) then []
    else if !HasMenu(e.children) then [Entry(path + [e.title.value], e)]
    else SubMenus(e.children, path + [e.title.value], depth + 1)
  }

  function SubMenus(es: seq<Element>, path: seq<string>, depth: nat): seq<Entry>
    decreases es, 0
  {
    if es == [] then []
    else (if es[0].role.Menu? then MenuBelow(es[0], path, depth) else []) + SubMenus(es[1..], path, depth)
  }

  lemma {:induction false} MenuChildrenSnoc(es: seq<Element>, i: nat, path: seq<string>, depth: nat)
    requires i < |es|
    ensures MenuChildren(es[..i + 1], path, depth) == MenuChildren(es[..i], path, depth) + MenuChild(es[i], path, depth)
    decreases i
  {
    if i == 0 {
      assert es[..1] == [es[0]] && es[..1][1..] == [];
    } else {
      MenuChildrenSnoc(es[1..], i - 1, path, depth);
      assert es[..i + 1][1..] == es[1..][..i] && es[..i][1..] == es[1..][..i - 1];
    }
  }

  lemma {:induction false} MenuChildrenSplit(es: seq<Element>, i: nat, path: seq<string>, depth: nat)
    requires i <= |es|
    ensures MenuChildren(es, path, depth) == MenuChildren(es[..i], path, depth) + MenuChildren(es[i..], path, depth)
    decreases i
  {
    if i == 0 {
    } else {
      MenuChildrenSplit(es[1..], i - 1, path, depth);
      assert es[..i][1..] == es[1..][..i - 1] && es[1..][i - 1..] == es[i..];
    }
  }

  lemma {:induction false} SubMenusSnoc(es: seq<Element>, i: nat, path: seq<string>, depth: nat)
    requires i < |es|
    ensures SubMenus(es[..i + 1], path, depth)
            == SubMenus(es[..i], path, depth) + (if es[i].role.Menu? then MenuBelow(es[i], path, depth) else [])
    decreases i
  {
    if i == 0 {
      assert es[..1] == [es[0]] && es[..1][1..] == [];
    } else {
      SubMenusSnoc(es[1..], i - 1, path, depth);
      assert es[..i + 1][1..] == es[1..][..i] && es[..i][1..] == es[1..][..i - 1];
    }
  }

  class MenuReader {
    const limit: int
    var entries: seq<Entry>

    constructor (limit: int)
      ensures entries == [] && this.limit == limit
    {
      this.limit := limit;
      entries := [];
    }

    method Visit(e: Element, path: seq<string>, depth: nat)
      requires entries == Budget(entries, limit)
      modifies this
      ensures entries == Budget(old(entries) + MenuBelow(e, path, depth), limit)
      decreases e, 1
    {
      if |entries| >= limit || depth > MAX_MENU_DEPTH {
        assert entries + [] == entries;
        return;
      }
      ghost var before := entries;
      assert before + MenuChildren(e.children[..0], path, depth) == before;
      for i := 0 to |e.children|
        invariant entries == Budget(before + MenuChildren(e.children[..i], path, depth), limit)
      {
        ghost var done := before + MenuChildren(e.children[..i], path, depth);
        if |entries| >= limit {
          MenuChildrenSplit(e.children, i, path, depth);
          BudgetSpent(done, MenuChildren(e.children[i..], path, depth), limit);
          assert done + MenuChildren(e.children[i..], path, depth) == before + MenuBelow(e, path, depth);
          return;
        }
        VisitChild(e.children[i], path, depth);
        BudgetAppend(done, MenuChild(e.children[i], path, depth), limit);
        MenuChildrenSnoc(e.children, i, path, depth);
        assert done + MenuChild(e.children[i], path, depth)
               == before + MenuChildren(e.children[..i + 1], path, depth);
      }
      assert e.children[..|e.children|] == e.children;
    }

    method VisitChild(e: Element, path: seq<string>, depth: nat)
      requires entries == Budget(entries, limit) && |entries| < limit
      modifies this
      ensures entries == Budget(old(entries) + MenuChild(e, path, depth), limit)
      decreases e, 2
    {
      ghost var before := entries;
      if e.role.Menu? {
        Visit(e, path, depth + 1);
      } else if IsItem(e) {
        var here := path + [e.title.value];
        if !HasMenu(e.children) {
          entries := entries + [Entry(here, e)];
        } else {
          assert before + SubMenus(e.children[..0], here, depth + 1) == before;
          for i := 0 to |e.children|
            invariant entries == Budget(before + SubMenus(e.children[..i], here, depth + 1), limit)
          {
            ghost var done := before + SubMenus(e.children[..i], here, depth + 1);
            SubMenusSnoc(e.children, i, here, depth + 1);
            if e.children[i].role.Menu? {
              Visit(e.children[i], here, depth + 1);
              BudgetAppend(done, MenuBelow(e.children[i], here, depth + 1), limit);
              assert done + MenuBelow(e.children[i], here, depth + 1)
                     == before + SubMenus(e.children[..i + 1], here, depth + 1);
            } else {
              assert done == before + SubMenus(e.children[..i + 1], here, depth + 1);
            }
          }
          assert e.children[..|e.children|] == e.children;
        }
      } else {
        assert entries + [] == entries;
      }
    }
  }

  /** The menu listing is the complete list of leaf items cut off by the budget. */
  method MenuEntries(bar: Option<Element>, limit: int) returns (entries: seq<Entry>)
    ensures entries == if bar.None? then [] else Budget(MenuBelow(bar.value, [], 0), limit)
  {
    if bar.None? {
      return [];
    }
    var reader := new MenuReader(limit);
    reader.Visit(bar.value, [], 0);
    assert [] + MenuBelow(bar.value, [], 0) == MenuBelow(bar.value, [], 0);
    return reader.entries;
  }
}
