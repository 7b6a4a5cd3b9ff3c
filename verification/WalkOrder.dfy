/** The order of the two accessibility listings, told by places in the tree: an address is the positions of the
elements on the way to one, from the top. Neither traversal is mentioned in what a listing has to be. */
module WalkOrder {
  import opened Sequences
  import opened AccessibilityWalk

  type Address = seq<nat>

  predicate IsAddress(es: seq<Element>, a: Address)
    decreases |a|
  {
    a == [] || (a[0] < |es| && IsAddress(es[a[0]].children, a[1..]))
  }

  /** The elements on the way, with the one at the address last. */
  function Way(es: seq<Element>, a: Address): (way: seq<Element>)
    requires IsAddress(es, a)
    ensures |way| == |a|
    decreases |a|
  {
    if a == [] then [] else [es[a[0]]] + Way(es[a[0]].children, a[1..])
  }

  /** Reading order: an element comes before what is below it, and everything below it before its later siblings. */
  predicate Precedes(a: Address, b: Address) {
    b != [] && (a == [] || a[0] < b[0] || (a[0] == b[0] && Precedes(a[1..], b[1..])))
  }

  predicate Ascending(at: seq<Address>) {
    forall i, j :: 0 <= i < j < |at| ==> Precedes(at[i], at[j])
  }

  ghost predicate IsPlace(es: seq<Element>, accept: seq<Element> -> bool, a: Address) {
    a != [] && IsAddress(es, a) && accept(Way(es, a))
  }

  /** At each of the addresses is an element whose way is accepted, and what is said of its way. */
  ghost predicate AreListed<T>(es: seq<Element>, accept: seq<Element> -> bool, says: (seq<Element>, T) -> bool,
                               listed: seq<T>, at: seq<Address>) {
    && |at| == |listed|
    && forall i :: 0 <= i < |at| ==> IsPlace(es, accept, at[i]) && says(Way(es, at[i]), listed[i])
  }

  /** No element whose way is accepted is left out. */
  ghost predicate AreAll(es: seq<Element>, accept: seq<Element> -> bool, at: seq<Address>) {
    forall a: Address :: IsPlace(es, accept, a) ==> a in at
  }

  /** What is listed are the elements whose ways are accepted, each once and in reading order, and of each what is to be
      said of its way. */
  ghost predicate IsListing<T>(es: seq<Element>, accept: seq<Element> -> bool, says: (seq<Element>, T) -> bool,
                               listed: seq<T>, at: seq<Address>) {
    Ascending(at) && AreListed(es, accept, says, listed, at) && AreAll(es, accept, at)
  }

  // ---------------------------------------------------------------------------
  // Addresses below an element and of later siblings

  function Below(at: seq<Address>): (below: seq<Address>)
    ensures |below| == |at| && forall i :: 0 <= i < |at| ==> below[i] == [0] + at[i]
  {
    if at == [] then [] else [[0] + at[0]] + Below(at[1..])
  }

  function Moved(a: Address): Address {
    if a == [] then [] else [a[0] + 1] + a[1..]
  }

  function Later(at: seq<Address>): (later: seq<Address>)
    ensures |later| == |at| && forall i :: 0 <= i < |at| ==> later[i] == Moved(at[i])
  {
    if at == [] then [] else [Moved(at[0])] + Later(at[1..])
  }

  predicate NoneIsEmpty(at: seq<Address>) {
    forall i :: 0 <= i < |at| ==> at[i] != []
  }

  lemma BelowPrecedes(a: Address, b: Address)
    ensures Precedes([0] + a, [0] + b) <==> Precedes(a, b)
  {
    assert ([0] + a)[1..] == a && ([0] + b)[1..] == b;
  }

  lemma MovedPrecedes(a: Address, b: Address)
    requires a != []
    ensures Precedes(Moved(a), Moved(b)) <==> Precedes(a, b)
  {
    assert Moved(a)[1..] == a[1..];
    assert b != [] ==> Moved(b)[1..] == b[1..];
  }

  lemma BelowAscends(at: seq<Address>)
    requires Ascending(at)
    ensures Ascending(Below(at))
  {
    forall i, j | 0 <= i < j < |at| ensures Precedes(Below(at)[i], Below(at)[j]) {
      BelowPrecedes(at[i], at[j]);
    }
  }

  lemma LaterPrecedes(at: seq<Address>, i: nat, j: nat)
    requires i < |at| && j < |at| && at[i] != [] && Precedes(at[i], at[j])
    ensures Precedes(Later(at)[i], Later(at)[j])
  {
    MovedPrecedes(at[i], at[j]);
  }

  lemma LaterAscends(at: seq<Address>)
    requires Ascending(at) && NoneIsEmpty(at)
    ensures Ascending(Later(at))
  {
    forall i, j | 0 <= i < j < |at| ensures Precedes(Later(at)[i], Later(at)[j]) {
      LaterPrecedes(at, i, j);
    }
  }

  lemma AppendAscends(first: seq<Address>, second: seq<Address>)
    requires Ascending(first) && Ascending(second)
    requires forall a, b :: a in first && b in second ==> Precedes(a, b)
    ensures Ascending(first + second)
  {
  }

  lemma WayBelow(e: Element, a: Address)
    ensures IsAddress([e], [0] + a) <==> IsAddress(e.children, a)
    ensures IsAddress(e.children, a) ==> Way([e], [0] + a) == [e] + Way(e.children, a)
  {
    assert ([0] + a)[1..] == a;
  }

  lemma WayMoved(es: seq<Element>, a: Address)
    requires es != [] && a != []
    ensures IsAddress(es, Moved(a)) <==> IsAddress(es[1..], a)
    ensures IsAddress(es[1..], a) ==> Way(es, Moved(a)) == Way(es[1..], a)
  {
    assert Moved(a)[1..] == a[1..];
  }

  lemma WayFirst(es: seq<Element>, a: Address)
    requires es != [] && a != [] && a[0] == 0
    ensures IsAddress(es, a) <==> IsAddress([es[0]], a)
    ensures IsAddress(es, a) ==> Way(es, a) == Way([es[0]], a)
  {
  }

  lemma BackBelow(a: Address)
    requires a != [] && a[0] == 0
    ensures a == [0] + a[1..]
  {
  }

  lemma BackMoved(a: Address) returns (b: Address)
    requires a != [] && a[0] > 0
    ensures b != [] && a == Moved(b)
  {
    b := [a[0] - 1] + a[1..];
  }

  lemma InBelow(at: seq<Address>, a: Address)
    requires a in at
    ensures [0] + a in Below(at)
  {
    var i :| 0 <= i < |at| && at[i] == a;
    assert Below(at)[i] == [0] + a;
  }

  lemma InLater(at: seq<Address>, a: Address)
    requires a in at
    ensures Moved(a) in Later(at)
  {
    var i :| 0 <= i < |at| && at[i] == a;
    assert Later(at)[i] == Moved(a);
  }

  // ---------------------------------------------------------------------------
  // Listings are put together

  lemma NoElements<T>(accept: seq<Element> -> bool, says: (seq<Element>, T) -> bool)
    ensures IsListing([], accept, says, [], [])
  {
  }

  /** An element that leads nowhere. */
  lemma DeadEnd<T>(e: Element, accept: seq<Element> -> bool, says: (seq<Element>, T) -> bool)
    requires forall way :: !accept([e] + way)
    ensures IsListing([e], accept, says, [], [])
  {
    forall a: Address ensures !IsPlace([e], accept, a) {
      if a != [] && IsAddress([e], a) {
        BackBelow(a);
        WayBelow(e, a[1..]);
      }
    }
  }

  lemma PlaceBelow(e: Element, accept: seq<Element> -> bool, inner: seq<Element> -> bool, a: Address)
    requires a != [] && forall way :: way != [] ==> inner(way) == accept([e] + way)
    ensures IsPlace([e], accept, [0] + a) <==> IsPlace(e.children, inner, a)
  {
    WayBelow(e, a);
  }

  /** Ways below an element, with the element in front. */
  ghost predicate Extends<T(!new)>(e: Element, accept: seq<Element> -> bool, says: (seq<Element>, T) -> bool,
                                   inner: seq<Element> -> bool, tells: (seq<Element>, T) -> bool) {
    && (forall way :: way != [] ==> inner(way) == accept([e] + way))
    && (forall way, t :: way != [] && tells(way, t) ==> says([e] + way, t))
  }

  lemma ListedBelow<T(!new)>(e: Element, accept: seq<Element> -> bool, says: (seq<Element>, T) -> bool,
                             inner: seq<Element> -> bool, tells: (seq<Element>, T) -> bool, listed: seq<T>,
                             at: seq<Address>)
    requires AreListed(e.children, inner, tells, listed, at) && Extends(e, accept, says, inner, tells)
    ensures AreListed([e], accept, says, listed, Below(at))
  {
    forall i | 0 <= i < |at| ensures IsPlace([e], accept, Below(at)[i]) && says(Way([e], Below(at)[i]), listed[i]) {
      PlaceBelow(e, accept, inner, at[i]);
      WayBelow(e, at[i]);
    }
  }

  lemma WayToItself(e: Element)
    ensures IsAddress([e], [0]) && Way([e], [0]) == [e]
  {
    assert Way([e], [0]) == [e] + Way(e.children, [0][1..]);
  }

  /** An accepted way ends at the element or goes on below it. */
  lemma HereOrBelow(e: Element, accept: seq<Element> -> bool, inner: seq<Element> -> bool, at: seq<Address>, a: Address)
    requires AreAll(e.children, inner, at) && (forall way :: way != [] ==> inner(way) == accept([e] + way))
    requires IsPlace([e], accept, a)
    ensures a in Below(at) || (a == [0] && accept([e]))
  {
    BackBelow(a);
    WayToItself(e);
    if a[1..] != [] {
      PlaceBelow(e, accept, inner, a[1..]);
      InBelow(at, a[1..]);
    }
  }

  /** What is below an element is listed from its children. */
  lemma OnlyBelow<T(!new)>(e: Element, accept: seq<Element> -> bool, says: (seq<Element>, T) -> bool,
                           inner: seq<Element> -> bool, tells: (seq<Element>, T) -> bool, listed: seq<T>,
                           at: seq<Address>)
    requires IsListing(e.children, inner, tells, listed, at) && !accept([e]) && Extends(e, accept, says, inner, tells)
    ensures IsListing([e], accept, says, listed, Below(at))
  {
    BelowAscends(at);
    ListedBelow(e, accept, says, inner, tells, listed, at);
    forall a: Address | IsPlace([e], accept, a) ensures a in Below(at) {
      HereOrBelow(e, accept, inner, at, a);
    }
  }

  lemma ItselfBefore(a: Address)
    requires a != []
    ensures Precedes([0], [0] + a)
  {
    assert ([0] + a)[1..] == a;
  }

  lemma LeastFirst(a: Address, at: seq<Address>)
    requires Ascending(at) && forall i :: 0 <= i < |at| ==> Precedes(a, at[i])
    ensures Ascending([a] + at)
  {
  }

  lemma ItselfFirst(at: seq<Address>)
    requires Ascending(at) && NoneIsEmpty(at)
    ensures Ascending([[0]] + Below(at))
  {
    BelowAscends(at);
    forall i | 0 <= i < |at| ensures Precedes([0], Below(at)[i]) {
      ItselfBefore(at[i]);
    }
    LeastFirst([0], Below(at));
  }

  lemma OneMoreListed<T>(es: seq<Element>, accept: seq<Element> -> bool, says: (seq<Element>, T) -> bool, itself: T,
                         a: Address, listed: seq<T>, at: seq<Address>)
    requires IsPlace(es, accept, a) && says(Way(es, a), itself) && AreListed(es, accept, says, listed, at)
    ensures AreListed(es, accept, says, [itself] + listed, [a] + at)
  {
  }

  /** An element and what is below it. */
  lemma ItselfAndBelow<T(!new)>(e: Element, accept: seq<Element> -> bool, says: (seq<Element>, T) -> bool,
                                inner: seq<Element> -> bool, tells: (seq<Element>, T) -> bool, itself: T,
                                listed: seq<T>, at: seq<Address>)
    requires IsListing(e.children, inner, tells, listed, at) && Extends(e, accept, says, inner, tells)
    requires accept([e]) && says([e], itself)
    ensures IsListing([e], accept, says, [itself] + listed, [[0]] + Below(at))
  {
    ItselfFirst(at);
    ListedBelow(e, accept, says, inner, tells, listed, at);
    WayToItself(e);
    OneMoreListed([e], accept, says, itself, [0], listed, Below(at));
    forall a: Address | IsPlace([e], accept, a) ensures a in [[0]] + Below(at) {
      HereOrBelow(e, accept, inner, at, a);
    }
  }

  lemma PlaceMoved(es: seq<Element>, accept: seq<Element> -> bool, a: Address)
    requires es != [] && a != []
    ensures IsPlace(es, accept, Moved(a)) <==> IsPlace(es[1..], accept, a)
  {
    WayMoved(es, a);
  }

  lemma PlaceFirst(es: seq<Element>, accept: seq<Element> -> bool, a: Address)
    requires es != [] && a != [] && a[0] == 0
    ensures IsPlace(es, accept, a) <==> IsPlace([es[0]], accept, a)
  {
    WayFirst(es, a);
  }

  lemma FirstThenLater(e: Element, accept: seq<Element> -> bool, first: seq<Address>, second: seq<Address>)
    requires Ascending(first) && Ascending(second)
    requires forall i :: 0 <= i < |first| ==> IsPlace([e], accept, first[i])
    requires NoneIsEmpty(second)
    ensures Ascending(first + Later(second))
  {
    LaterAscends(second);
    forall a, b | a in first && b in Later(second) ensures Precedes(a, b) {
      assert a[0] == 0 && b[0] > 0;
    }
    AppendAscends(first, Later(second));
  }

  lemma FirstListed<T>(es: seq<Element>, accept: seq<Element> -> bool, says: (seq<Element>, T) -> bool, first: seq<T>,
                       at: seq<Address>)
    requires es != [] && AreListed([es[0]], accept, says, first, at)
    ensures AreListed(es, accept, says, first, at)
  {
    forall i | 0 <= i < |at| ensures IsPlace(es, accept, at[i]) && says(Way(es, at[i]), first[i]) {
      assert IsPlace([es[0]], accept, at[i]);
      WayFirst(es, at[i]);
    }
  }

  lemma LaterListed<T>(es: seq<Element>, accept: seq<Element> -> bool, says: (seq<Element>, T) -> bool, second: seq<T>,
                       at: seq<Address>)
    requires es != [] && AreListed(es[1..], accept, says, second, at)
    ensures AreListed(es, accept, says, second, Later(at))
  {
    forall i | 0 <= i < |at|
      ensures IsPlace(es, accept, Later(at)[i]) && says(Way(es, Later(at)[i]), second[i]) {
      assert IsPlace(es[1..], accept, at[i]);
      WayMoved(es, at[i]);
    }
  }

  lemma BothListed<T>(es: seq<Element>, accept: seq<Element> -> bool, says: (seq<Element>, T) -> bool, first: seq<T>,
                      at: seq<Address>, second: seq<T>, later: seq<Address>)
    requires AreListed(es, accept, says, first, at) && AreListed(es, accept, says, second, later)
    ensures AreListed(es, accept, says, first + second, at + later)
  {
  }

  lemma FirstOrLater(es: seq<Element>, accept: seq<Element> -> bool, at: seq<Address>, later: seq<Address>, a: Address)
    requires es != [] && AreAll([es[0]], accept, at) && AreAll(es[1..], accept, later) && IsPlace(es, accept, a)
    ensures a in at || a in Later(later)
  {
    if a[0] == 0 {
      PlaceFirst(es, accept, a);
    } else {
      var b := BackMoved(a);
      PlaceMoved(es, accept, b);
      InLater(later, b);
    }
  }

  /** An element and its later siblings. */
  lemma ThenSiblings<T>(es: seq<Element>, accept: seq<Element> -> bool, says: (seq<Element>, T) -> bool,
                        first: seq<T>, at: seq<Address>, second: seq<T>, later: seq<Address>)
    requires es != [] && IsListing([es[0]], accept, says, first, at)
    requires IsListing(es[1..], accept, says, second, later)
    ensures IsListing(es, accept, says, first + second, at + Later(later))
  {
    FirstThenLater(es[0], accept, at, later);
    FirstListed(es, accept, says, first, at);
    LaterListed(es, accept, says, second, later);
    BothListed(es, accept, says, first, at, second, Later(later));
    forall a: Address | IsPlace(es, accept, a) ensures a in at + Later(later) {
      FirstOrLater(es, accept, at, later, a);
    }
  }

  // ---------------------------------------------------------------------------
  // The walk

  /** At most 25 elements on the way, and no menu bar among them unless menus are wanted. */
  predicate IsVisible(way: seq<Element>, depth: nat, includeMenu: bool) {
    && depth + |way| <= 25
    && (includeMenu || forall i :: 0 <= i < |way| ==> !way[i].role.MenuBar?)
  }

  predicate IsVisit(way: seq<Element>, depth: nat, visited: Visited) {
    way != [] && visited == Visited(way[|way| - 1], depth + |way| - 1)
  }

  ghost predicate IsWalk(es: seq<Element>, depth: nat, includeMenu: bool, visited: seq<Visited>, at: seq<Address>) {
    IsListing(es, way => IsVisible(way, depth, includeMenu), (way, v) => IsVisit(way, depth, v), visited, at)
  }

  lemma VisibleBelow(e: Element, way: seq<Element>, depth: nat, includeMenu: bool)
    requires !e.role.MenuBar? || includeMenu
    ensures IsVisible(way, depth + 1, includeMenu) <==> IsVisible([e] + way, depth, includeMenu)
  {
    assert forall i :: 0 <= i < |way| ==> ([e] + way)[i + 1] == way[i];
  }

  lemma {:induction false} ElementIsWalked(e: Element, depth: nat, includeMenu: bool) returns (at: seq<Address>)
    ensures IsWalk([e], depth, includeMenu, Preorder(e, depth, includeMenu), at)
    decreases e, 1
  {
    var accept := (way: seq<Element>) => IsVisible(way, depth, includeMenu);
    var says := (way: seq<Element>, v: Visited) => IsVisit(way, depth, v);
    if depth > MAX_DEPTH || (e.role.MenuBar? && !includeMenu) {
      forall way ensures !accept([e] + way) {
        assert ([e] + way)[0] == e;
      }
      DeadEnd(e, accept, says);
      at := [];
    } else {
      var below := AllAreWalked(e.children, depth + 1, includeMenu);
      forall way ensures IsVisible(way, depth + 1, includeMenu) == accept([e] + way) {
        VisibleBelow(e, way, depth, includeMenu);
      }
      ItselfAndBelow(e, accept, says, way => IsVisible(way, depth + 1, includeMenu),
                     (way, v) => IsVisit(way, depth + 1, v), Visited(e, depth),
                     PreorderAll(e.children, depth + 1, includeMenu), below);
      at := [[0]] + Below(below);
    }
  }

  lemma {:induction false} AllAreWalked(es: seq<Element>, depth: nat, includeMenu: bool) returns (at: seq<Address>)
    ensures IsWalk(es, depth, includeMenu, PreorderAll(es, depth, includeMenu), at)
    decreases es, 0
  {
    var accept := (way: seq<Element>) => IsVisible(way, depth, includeMenu);
    var says := (way: seq<Element>, v: Visited) => IsVisit(way, depth, v);
    if es == [] {
      NoElements(accept, says);
      at := [];
    } else {
      var first := ElementIsWalked(es[0], depth, includeMenu);
      var later := AllAreWalked(es[1..], depth, includeMenu);
      ThenSiblings(es, accept, says, Preorder(es[0], depth, includeMenu), first,
                   PreorderAll(es[1..], depth, includeMenu), later);
      at := first + Later(later);
    }
  }

  /** The complete walk visits exactly the visible elements, each once, an element before what is below it and that
      before its later siblings, and reports how many elements are above each. */
  lemma WalkIsInOrder(roots: seq<Element>, includeMenu: bool)
    ensures exists at: seq<Address> :: IsWalk(roots, 0, includeMenu, PreorderAll(roots, 0, includeMenu), at)
  {
    var at := AllAreWalked(roots, 0, includeMenu);
  }

  // ---------------------------------------------------------------------------
  // Menu entries

  /** The titles of the items on the way. Menus have no part in a path. */
  function Titles(way: seq<Element>): seq<string> {
    if way == [] then []
    else
      (if way[0].role.Menu? || way[0].title.None? then [] else [way[0].title.value]) + Titles(way[1..])
  }

  function Menus(way: seq<Element>): nat {
    if way == [] then 0 else (if way[0].role.Menu? then 1 else 0) + Menus(way[1..])
  }

  /** Each element on the way opens on the next: a menu on anything, a titled item on one of its menus. */
  predicate Opens(way: seq<Element>) {
    forall i :: 0 <= i < |way| - 1 ==> way[i].role.Menu? || (IsItem(way[i]) && way[i + 1].role.Menu?)
  }

  /** The way ends at a titled item without a menu, and passes at most eight menus. */
  predicate IsLeafWay(way: seq<Element>, depth: nat) {
    && way != [] && IsItem(way[|way| - 1]) && !HasMenu(way[|way| - 1].children)
    && Opens(way) && depth + Menus(way) <= 8
  }

  predicate IsEntry(way: seq<Element>, path: seq<string>, entry: Entry) {
    way != [] && entry == Entry(path + Titles(way), way[|way| - 1])
  }

  predicate StartsAtMenu(way: seq<Element>) {
    way != [] && way[0].role.Menu?
  }

  ghost predicate IsMenuListing(es: seq<Element>, path: seq<string>, depth: nat, entries: seq<Entry>,
                                at: seq<Address>) {
    IsListing(es, way => IsLeafWay(way, depth), (way, entry) => IsEntry(way, path, entry), entries, at)
  }

  ghost predicate IsSubMenuListing(es: seq<Element>, path: seq<string>, depth: nat, entries: seq<Entry>,
                                   at: seq<Address>) {
    IsListing(es, way => StartsAtMenu(way) && IsLeafWay(way, depth), (way, entry) => IsEntry(way, path, entry),
              entries, at)
  }

  lemma Behind(e: Element, way: seq<Element>)
    requires way != []
    ensures ([e] + way)[1..] == way && ([e] + way)[|way|] == way[|way| - 1]
    ensures Opens([e] + way) <==> Opens(way) && (e.role.Menu? || (IsItem(e) && way[0].role.Menu?))
  {
    var all := [e] + way;
    assert forall i :: 0 <= i < |way| ==> all[i + 1] == way[i];
    if Opens(way) && (e.role.Menu? || (IsItem(e) && way[0].role.Menu?)) {
      forall i | 0 <= i < |all| - 1 ensures all[i].role.Menu? || (IsItem(all[i]) && all[i + 1].role.Menu?) {
        if i > 0 {
          assert way[i - 1] == all[i] && way[i] == all[i + 1];
        }
      }
    }
    if Opens(all) {
      forall i | 0 <= i < |way| - 1 ensures way[i].role.Menu? || (IsItem(way[i]) && way[i + 1].role.Menu?) {
        assert all[i + 1] == way[i] && all[i + 2] == way[i + 1];
      }
      assert all[0] == e && all[1] == way[0];
    }
  }

  lemma CountsBehind(e: Element, way: seq<Element>)
    ensures Menus([e] + way) == (if e.role.Menu? then 1 else 0) + Menus(way)
    ensures Titles([e] + way) == (if e.role.Menu? || e.title.None? then [] else [e.title.value]) + Titles(way)
  {
    assert ([e] + way)[1..] == way;
  }

  /** A leaf below a menu. */
  lemma BehindMenu(e: Element, way: seq<Element>, path: seq<string>, depth: nat, entry: Entry)
    requires way != [] && e.role.Menu?
    ensures IsLeafWay([e] + way, depth) <==> IsLeafWay(way, depth + 1)
    ensures IsEntry([e] + way, path, entry) <==> IsEntry(way, path, entry)
  {
    Behind(e, way);
    CountsBehind(e, way);
    AppendNothing(Titles(way));
  }

  /** A leaf below an item with menus. */
  lemma BehindItem(e: Element, way: seq<Element>, depth: nat)
    requires way != [] && !e.role.Menu? && IsItem(e)
    ensures IsLeafWay([e] + way, depth) <==> StartsAtMenu(way) && IsLeafWay(way, depth)
  {
    Behind(e, way);
    CountsBehind(e, way);
  }

  lemma EntryBehindItem(e: Element, way: seq<Element>, path: seq<string>, entry: Entry)
    requires way != [] && !e.role.Menu? && IsItem(e)
    ensures IsEntry([e] + way, path, entry) <==> IsEntry(way, path + [e.title.value], entry)
  {
    Behind(e, way);
    CountsBehind(e, way);
    AppendAssociates(path, [e.title.value], Titles(way));
  }

  /** Nothing is below an element that is neither. */
  lemma BehindOther(e: Element, way: seq<Element>, depth: nat)
    requires !e.role.Menu? && !IsItem(e)
    ensures !IsLeafWay([e] + way, depth)
  {
    if way != [] {
      Behind(e, way);
    }
  }

  lemma SamePlace(e: Element, accept: seq<Element> -> bool, other: seq<Element> -> bool, a: Address)
    requires forall way :: accept([e] + way) == other([e] + way)
    ensures IsPlace([e], accept, a) <==> IsPlace([e], other, a)
  {
    if a != [] && IsAddress([e], a) {
      BackBelow(a);
      WayBelow(e, a[1..]);
    }
  }

  lemma SameListing<T>(e: Element, accept: seq<Element> -> bool, other: seq<Element> -> bool,
                       says: (seq<Element>, T) -> bool, listed: seq<T>, at: seq<Address>)
    requires IsListing([e], accept, says, listed, at) && forall way :: accept([e] + way) == other([e] + way)
    ensures IsListing([e], other, says, listed, at)
  {
    forall a: Address ensures IsPlace([e], accept, a) <==> IsPlace([e], other, a) {
      SamePlace(e, accept, other, a);
    }
  }

  lemma NoMenuBelow(e: Element, path: seq<string>, depth: nat)
    requires !HasMenu(e.children)
    ensures IsSubMenuListing(e.children, path, depth, [], [])
  {
  }

  lemma MenuExtends(e: Element, path: seq<string>, depth: nat)
    requires e.role.Menu?
    ensures Extends(e, way => IsLeafWay(way, depth), (way, entry) => IsEntry(way, path, entry),
                    way => IsLeafWay(way, depth + 1), (way, entry) => IsEntry(way, path, entry))
    ensures !IsLeafWay([e], depth)
  {
    forall way | way != [] ensures IsLeafWay([e] + way, depth) <==> IsLeafWay(way, depth + 1) {
      BehindMenu(e, way, path, depth, Entry([], e));
    }
    forall way, entry | way != [] && IsEntry(way, path, entry) ensures IsEntry([e] + way, path, entry) {
      BehindMenu(e, way, path, depth, entry);
    }
  }

  lemma TooDeep(e: Element, way: seq<Element>, depth: nat)
    requires e.role.Menu? && depth + 1 > MAX_MENU_DEPTH
    ensures !IsLeafWay([e] + way, depth)
  {
    if way != [] {
      BehindMenu(e, way, [], depth, Entry([], e));
    }
  }

  lemma {:induction false} MenuIsListed(e: Element, path: seq<string>, depth: nat) returns (at: seq<Address>)
    requires e.role.Menu?
    ensures IsMenuListing([e], path, depth, MenuBelow(e, path, depth + 1), at)
    decreases e, 1
  {
    var accept := (way: seq<Element>) => IsLeafWay(way, depth);
    var says := (way: seq<Element>, entry: Entry) => IsEntry(way, path, entry);
    if depth + 1 > MAX_MENU_DEPTH {
      forall way ensures !accept([e] + way) {
        TooDeep(e, way, depth);
      }
      DeadEnd(e, accept, says);
      at := [];
    } else {
      var below := ChildrenAreListed(e.children, path, depth + 1);
      MenuExtends(e, path, depth);
      OnlyBelow(e, accept, says, way => IsLeafWay(way, depth + 1), (way, entry) => IsEntry(way, path, entry),
                MenuChildren(e.children, path, depth + 1), below);
      at := Below(below);
    }
  }

  lemma ItemExtends(e: Element, path: seq<string>, depth: nat)
    requires !e.role.Menu? && IsItem(e)
    ensures Extends(e, way => IsLeafWay(way, depth), (way, entry) => IsEntry(way, path, entry),
                    way => StartsAtMenu(way) && IsLeafWay(way, depth),
                    (way, entry) => IsEntry(way, path + [e.title.value], entry))
  {
    forall way | way != []
      ensures IsLeafWay([e] + way, depth) <==> StartsAtMenu(way) && IsLeafWay(way, depth) {
      BehindItem(e, way, depth);
    }
    forall way, entry | way != [] && IsEntry(way, path + [e.title.value], entry)
      ensures IsEntry([e] + way, path, entry) {
      EntryBehindItem(e, way, path, entry);
    }
  }

  lemma ItemAlone(e: Element, path: seq<string>, depth: nat)
    requires !e.role.Menu? && IsItem(e) && depth <= MAX_MENU_DEPTH
    ensures IsLeafWay([e], depth) <==> !HasMenu(e.children)
    ensures IsEntry([e], path, Entry(path + [e.title.value], e))
  {
    assert [e][1..] == [] && Menus([]) == 0 && Titles([]) == [];
    AppendNothing([e.title.value]);
  }

  lemma {:induction false} ItemIsListed(e: Element, path: seq<string>, depth: nat) returns (at: seq<Address>)
    requires !e.role.Menu? && IsItem(e) && depth <= MAX_MENU_DEPTH
    ensures IsMenuListing([e], path, depth, MenuChild(e, path, depth), at)
    decreases e, 1
  {
    var here := path + [e.title.value];
    var accept := (way: seq<Element>) => IsLeafWay(way, depth);
    var says := (way: seq<Element>, entry: Entry) => IsEntry(way, path, entry);
    var inner := (way: seq<Element>) => StartsAtMenu(way) && IsLeafWay(way, depth);
    var tells := (way: seq<Element>, entry: Entry) => IsEntry(way, here, entry);
    ItemExtends(e, path, depth);
    ItemAlone(e, path, depth);
    if HasMenu(e.children) {
      var below := SubMenusAreListed(e.children, here, depth);
      OnlyBelow(e, accept, says, inner, tells, SubMenus(e.children, here, depth + 1), below);
      at := Below(below);
    } else {
      NoMenuBelow(e, here, depth);
      ItselfAndBelow(e, accept, says, inner, tells, Entry(here, e), [], []);
      AppendNothing([Entry(here, e)]);
      at := [[0]] + Below([]);
    }
  }

  lemma {:induction false} ChildIsListed(e: Element, path: seq<string>, depth: nat) returns (at: seq<Address>)
    requires depth <= MAX_MENU_DEPTH
    ensures IsMenuListing([e], path, depth, MenuChild(e, path, depth), at)
    decreases e, 2
  {
    if e.role.Menu? {
      at := MenuIsListed(e, path, depth);
    } else if IsItem(e) {
      at := ItemIsListed(e, path, depth);
    } else {
      var accept := (way: seq<Element>) => IsLeafWay(way, depth);
      forall way ensures !accept([e] + way) {
        BehindOther(e, way, depth);
      }
      DeadEnd(e, accept, (way: seq<Element>, entry: Entry) => IsEntry(way, path, entry));
      at := [];
    }
  }

  lemma {:induction false} ChildrenAreListed(es: seq<Element>, path: seq<string>, depth: nat)
    returns (at: seq<Address>)
    requires depth <= MAX_MENU_DEPTH
    ensures IsMenuListing(es, path, depth, MenuChildren(es, path, depth), at)
    decreases es, 0
  {
    var accept := (way: seq<Element>) => IsLeafWay(way, depth);
    var says := (way: seq<Element>, entry: Entry) => IsEntry(way, path, entry);
    if es == [] {
      NoElements(accept, says);
      at := [];
    } else {
      var first := ChildIsListed(es[0], path, depth);
      var later := ChildrenAreListed(es[1..], path, depth);
      ThenSiblings(es, accept, says, MenuChild(es[0], path, depth), first, MenuChildren(es[1..], path, depth), later);
      at := first + Later(later);
    }
  }

  lemma {:induction false} SubMenuIsListed(e: Element, path: seq<string>, depth: nat) returns (at: seq<Address>)
    requires depth <= MAX_MENU_DEPTH
    ensures IsSubMenuListing([e], path, depth, if e.role.Menu? then MenuBelow(e, path, depth + 1) else [], at)
    decreases e, 2
  {
    var accept := (way: seq<Element>) => StartsAtMenu(way) && IsLeafWay(way, depth);
    var says := (way: seq<Element>, entry: Entry) => IsEntry(way, path, entry);
    if e.role.Menu? {
      at := MenuIsListed(e, path, depth);
      SameListing(e, way => IsLeafWay(way, depth), accept, says, MenuBelow(e, path, depth + 1), at);
    } else {
      DeadEnd(e, accept, says);
      at := [];
    }
  }

  lemma {:induction false} SubMenusAreListed(es: seq<Element>, path: seq<string>, depth: nat)
    returns (at: seq<Address>)
    requires depth <= MAX_MENU_DEPTH
    ensures IsSubMenuListing(es, path, depth, SubMenus(es, path, depth + 1), at)
    decreases es, 0
  {
    var accept := (way: seq<Element>) => StartsAtMenu(way) && IsLeafWay(way, depth);
    var says := (way: seq<Element>, entry: Entry) => IsEntry(way, path, entry);
    if es == [] {
      NoElements(accept, says);
      at := [];
    } else {
      var first := SubMenuIsListed(es[0], path, depth);
      var later := SubMenusAreListed(es[1..], path, depth);
      ThenSiblings(es, accept, says, if es[0].role.Menu? then MenuBelow(es[0], path, depth + 1) else [], first,
                   SubMenus(es[1..], path, depth + 1), later);
      at := first + Later(later);
    }
  }

  /** The complete menu listing has exactly the titled items without a menu that are reached from the bar through at
      most eight menus, in reading order, and the path of each is the titles of the items on the way, its own last. */
  lemma MenuIsInOrder(bar: Element)
    ensures exists at: seq<Address> :: IsMenuListing(bar.children, [], 0, MenuBelow(bar, [], 0), at)
  {
    var at := ChildrenAreListed(bar.children, [], 0);
    assert MenuBelow(bar, [], 0) == MenuChildren(bar.children, [], 0);
    assert IsMenuListing(bar.children, [], 0, MenuBelow(bar, [], 0), at);
  }

  lemma {:induction false} PathEndsInTitle(way: seq<Element>)
    requires way != [] && IsItem(way[|way| - 1])
    ensures Titles(way) != [] && Titles(way)[|Titles(way)| - 1] == way[|way| - 1].title.value
  {
    var rest := way[1..];
    if rest == [] {
      assert Titles(rest) == [] && Titles(way) == [way[0].title.value] + Titles(rest);
    } else {
      assert rest[|rest| - 1] == way[|way| - 1];
      PathEndsInTitle(rest);
    }
  }
}
