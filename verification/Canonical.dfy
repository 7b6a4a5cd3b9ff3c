/** The canonical JSON text that is used as associated data.

`stable` is shown to be a normal form: two values have the same text exactly when they differ in nothing but the
order of object keys. */
module Canonical {
  import opened Wrappers
  import opened Numerals
  import opened Ordering
  import opened JsonText

  function Names(fields: seq<Field>): seq<string> {
    if fields == [] then [] else [fields[0].name] + Names(fields[1..])
  }

  function Lookup(fields: seq<Field>, name: string): (json: Json)
    ensures name in Names(fields) ==> exists i :: 0 <= i < |fields| && fields[i].name == name && fields[i].json == json
  {
    if fields == [] then Null
    else if fields[0].name == name then fields[0].json
    else Lookup(fields[1..], name)
  }

  /** The properties of these names, in the order of the names. */
  function Pick(fields: seq<Field>, names: seq<string>): seq<Field> {
    if names == [] then [] else [Field(names[0], Lookup(fields, names[0]))] + Pick(fields, names[1..])
  }

  /** Array indices: the names that objects enumerate first, by number. */
  predicate IsIndex(name: string) {
    IsPlain(name) && Denoted(name) < 4294967295
  }

  function InsertIndex(name: string, names: seq<string>): seq<string>
    requires IsIndex(name)
  {
    if names == [] || !IsIndex(names[0]) || Denoted(name) <= Denoted(names[0]) then [name] + names
    else [names[0]] + InsertIndex(name, names[1..])
  }

  /** The enumeration order of an object whose properties are created in the order of `names`. */
  function Enumerate(names: seq<string>): seq<string> {
    if names == [] then []
    else
      var last := names[|names| - 1];
      var earlier := Enumerate(names[..|names| - 1]);
      if IsIndex(last) then InsertIndex(last, earlier) else earlier + [last]
  }

  function Canonical(v: Json): Json
    decreases v, 1
  {
    match v
    case List(items) => List(CanonicalItems(items))
    case Object(fields) =>
      var values := CanonicalFields(fields);
      Object(Pick(values, Enumerate(Sort(Names(values)))))
    case _ => v
  }

  function CanonicalItems(items: seq<Json>): seq<Json>
    decreases items, 0
  {
    if items == [] then [] else [Canonical(items[0])] + CanonicalItems(items[1..])
  }

  function CanonicalFields(fields: seq<Field>): seq<Field>
    decreases fields, 0
  {
    if fields == [] then []
    else [Field(fields[0].name, Canonical(fields[0].json))] + CanonicalFields(fields[1..])
  }

  function Stable(v: Json): string {
    Write(Canonical(v), "")
  }

  predicate DistinctNames(names: seq<string>) {
    forall i, j :: 0 <= i < j < |names| ==> names[i] != names[j]
  }

  /** Within an object no name occurs twice. */
  predicate WellFormed(v: Json)
    decreases v, 1
  {
    match v
    case List(items) => forall i :: 0 <= i < |items| ==> WellFormed(items[i])
    case Object(fields) =>
      DistinctNames(Names(fields)) && forall i :: 0 <= i < |fields| ==> WellFormed(fields[i].json)
    case _ => true
  }

  /** The same value up to the order of object keys, at every depth. */
  predicate Similar(v: Json, w: Json)
    decreases v, 1
  {
    match (v, w)
    case (List(items), List(others)) =>
      |items| == |others| && forall i :: 0 <= i < |items| ==> Similar(items[i], others[i])
    case (Object(fields), Object(others)) =>
      multiset(Names(fields)) == multiset(Names(others)) && SimilarFields(fields, others)
    case _ => v == w
  }

  /** Under the name of each field the others have a similar value. */
  predicate SimilarFields(fields: seq<Field>, others: seq<Field>)
    decreases fields, 0
  {
    forall i :: 0 <= i < |fields| ==> Similar(fields[i].json, Lookup(others, fields[i].name))
  }

  lemma {:induction false} NamesAt(fields: seq<Field>)
    ensures |Names(fields)| == |fields| && forall i :: 0 <= i < |fields| ==> Names(fields)[i] == fields[i].name
  {
    if fields == [] {
    } else {
      NamesAt(fields[1..]);
    }
  }

  lemma {:induction false} CanonicalFieldsAt(fields: seq<Field>)
    ensures Names(CanonicalFields(fields)) == Names(fields) && |CanonicalFields(fields)| == |fields|
    ensures forall i :: 0 <= i < |fields| ==>
              CanonicalFields(fields)[i] == Field(fields[i].name, Canonical(fields[i].json))
  {
    if fields == [] {
    } else {
      CanonicalFieldsAt(fields[1..]);
    }
  }

  lemma {:induction false} CanonicalItemsAt(items: seq<Json>)
    ensures |CanonicalItems(items)| == |items|
    ensures forall i :: 0 <= i < |items| ==> CanonicalItems(items)[i] == Canonical(items[i])
  {
    if items == [] {
    } else {
      CanonicalItemsAt(items[1..]);
    }
  }

  lemma {:induction false} CanonicalLookup(fields: seq<Field>, name: string)
    ensures Lookup(CanonicalFields(fields), name) == Canonical(Lookup(fields, name))
  {
    if fields == [] {
    } else {
      CanonicalLookup(fields[1..], name);
    }
  }

  lemma {:induction false} PickAt(fields: seq<Field>, names: seq<string>)
    ensures |Pick(fields, names)| == |names| && Names(Pick(fields, names)) == names
    ensures forall i :: 0 <= i < |names| ==> Pick(fields, names)[i] == Field(names[i], Lookup(fields, names[i]))
  {
    if names == [] {
    } else {
      PickAt(fields, names[1..]);
    }
  }

  lemma {:induction false} PickLookup(fields: seq<Field>, names: seq<string>, name: string)
    requires name in names
    ensures Lookup(Pick(fields, names), name) == Lookup(fields, name)
  {
    if names[0] == name {
    } else {
      PickLookup(fields, names[1..], name);
    }
  }

  lemma {:induction false} LookupAt(fields: seq<Field>, i: nat)
    requires i < |fields| && DistinctNames(Names(fields))
    ensures Lookup(fields, fields[i].name) == fields[i].json
  {
    NamesAt(fields);
    if i == 0 {
    } else {
      assert Names(fields)[0] != Names(fields)[i];
      forall j, k | 0 <= j < k < |fields[1..]| ensures Names(fields[1..])[j] != Names(fields[1..])[k] {
        assert Names(fields)[j + 1] != Names(fields)[k + 1];
      }
      LookupAt(fields[1..], i - 1);
    }
  }

  lemma {:induction false} InsertIndexPermutes(name: string, names: seq<string>)
    requires IsIndex(name)
    ensures multiset(InsertIndex(name, names)) == multiset(names) + multiset{name}
  {
    if names == [] {
    } else {
      assert names == [names[0]] + names[1..];
      InsertIndexPermutes(name, names[1..]);
    }
  }

  lemma {:induction false} EnumeratePermutes(names: seq<string>)
    ensures multiset(Enumerate(names)) == multiset(names)
  {
    if names == [] {
    } else {
      var init := names[..|names| - 1];
      assert names == init + [names[|names| - 1]];
      EnumeratePermutes(init);
      if IsIndex(names[|names| - 1]) {
        InsertIndexPermutes(names[|names| - 1], Enumerate(init));
      }
    }
  }

  /** The order in which a canonical object lists its names. */
  function Order(names: seq<string>): seq<string> {
    Enumerate(Sort(names))
  }

  lemma OrderDependsOnMultiset(names: seq<string>, others: seq<string>)
    ensures Order(names) == Order(others) <==> multiset(names) == multiset(others)
    ensures multiset(Order(names)) == multiset(names)
  {
    SortDependsOnMultiset(names, others);
    SortPermutes(names);
    SortPermutes(others);
    EnumeratePermutes(Sort(names));
    EnumeratePermutes(Sort(others));
  }

  lemma CanonicalObject(fields: seq<Field>)
    ensures Canonical(Object(fields)).Object?
    ensures Canonical(Object(fields)).fields == Pick(CanonicalFields(fields), Order(Names(fields)))
  {
    CanonicalFieldsAt(fields);
  }

  // ---------------------------------------------------------------------------
  // Stable text is a normal form

  lemma MemberName(fields: seq<Field>, name: string) returns (i: nat)
    requires name in multiset(Names(fields))
    ensures i < |fields| && fields[i].name == name
  {
    NamesAt(fields);
    i :| 0 <= i < |Names(fields)| && Names(fields)[i] == name;
  }

  lemma LookupMember(fields: seq<Field>, name: string) returns (i: nat)
    requires DistinctNames(Names(fields)) && name in multiset(Names(fields))
    ensures i < |fields| && fields[i] == Field(name, Lookup(fields, name))
  {
    i := MemberName(fields, name);
    LookupAt(fields, i);
  }

  predicate SameValue(fields: seq<Field>, others: seq<Field>, name: string) {
    Canonical(Lookup(fields, name)) == Canonical(Lookup(others, name))
  }

  lemma {:induction false} PicksAgree(fields: seq<Field>, others: seq<Field>, names: seq<string>)
    ensures Pick(CanonicalFields(fields), names) == Pick(CanonicalFields(others), names) <==>
            forall name :: name in names ==> SameValue(fields, others, name)
  {
    if names == [] {
    } else {
      var left, right := Pick(CanonicalFields(fields), names), Pick(CanonicalFields(others), names);
      CanonicalLookup(fields, names[0]);
      CanonicalLookup(others, names[0]);
      PicksAgree(fields, others, names[1..]);
      assert forall name :: name in names <==> name == names[0] || name in names[1..];
      assert left[0] == right[0] <==> SameValue(fields, others, names[0]);
      assert left[1..] == Pick(CanonicalFields(fields), names[1..]);
      assert right[1..] == Pick(CanonicalFields(others), names[1..]);
      assert left == [left[0]] + left[1..] && right == [right[0]] + right[1..];
    }
  }

  /** Canonical objects agree exactly when they have the same names with the same canonical values. */
  lemma ObjectsAgree(fields: seq<Field>, others: seq<Field>)
    ensures Canonical(Object(fields)) == Canonical(Object(others)) <==>
            && multiset(Names(fields)) == multiset(Names(others))
            && forall name :: name in Order(Names(fields)) ==> SameValue(fields, others, name)
  {
    var names, other := Order(Names(fields)), Order(Names(others));
    CanonicalObject(fields);
    CanonicalObject(others);
    OrderDependsOnMultiset(Names(fields), Names(others));
    PickAt(CanonicalFields(fields), names);
    PickAt(CanonicalFields(others), other);
    PicksAgree(fields, others, names);
  }

  lemma OrderHasNames(fields: seq<Field>, name: string)
    ensures name in Order(Names(fields)) <==> name in multiset(Names(fields))
  {
    OrderDependsOnMultiset(Names(fields), Names(fields));
    assert name in Order(Names(fields)) <==> name in multiset(Order(Names(fields)));
  }

  /** What holds of the names in order holds of the name of every field. */
  lemma EveryName(fields: seq<Field>, holds: string -> bool)
    ensures (forall name :: name in Order(Names(fields)) ==> holds(name))
            <==> forall i :: 0 <= i < |fields| ==> holds(fields[i].name)
  {
    NamesAt(fields);
    forall i | 0 <= i < |fields| ensures fields[i].name in Order(Names(fields)) {
      OrderHasNames(fields, fields[i].name);
      assert Names(fields)[i] in multiset(Names(fields));
    }
    forall name | name in Order(Names(fields)) ensures exists i :: 0 <= i < |fields| && fields[i].name == name {
      OrderHasNames(fields, name);
      var i := MemberName(fields, name);
    }
  }

  /** Under each name both have the same canonical value. */
  predicate SameValues(fields: seq<Field>, others: seq<Field>) {
    forall i :: 0 <= i < |fields| ==> SameValue(fields, others, fields[i].name)
  }

  lemma SimilarFieldsIff(fields: seq<Field>, others: seq<Field>)
    requires forall i :: 0 <= i < |fields| ==>
               (Similar(fields[i].json, Lookup(others, fields[i].name)) <==>
                SameValue(fields, others, fields[i].name))
    ensures SimilarFields(fields, others) <==> SameValues(fields, others)
  {
  }

  lemma ObjectsAgreeByField(fields: seq<Field>, others: seq<Field>)
    ensures Canonical(Object(fields)) == Canonical(Object(others))
            <==> multiset(Names(fields)) == multiset(Names(others)) && SameValues(fields, others)
  {
    ObjectsAgree(fields, others);
    EveryName(fields, name => SameValue(fields, others, name));
  }

  lemma FieldwiseSimilar(fields: seq<Field>, others: seq<Field>)
    requires multiset(Names(fields)) == multiset(Names(others)) ==>
               (SimilarFields(fields, others) <==> SameValues(fields, others))
    ensures Similar(Object(fields), Object(others)) <==> Canonical(Object(fields)) == Canonical(Object(others))
  {
    ObjectsAgreeByField(fields, others);
  }

  lemma ListsAgree(items: seq<Json>, others: seq<Json>)
    ensures Canonical(List(items)) == Canonical(List(others)) <==>
            |items| == |others| && forall i :: 0 <= i < |items| ==> Canonical(items[i]) == Canonical(others[i])
  {
    CanonicalItemsAt(items);
    CanonicalItemsAt(others);
    var left, right := CanonicalItems(items), CanonicalItems(others);
    if |items| == |others| && forall i :: 0 <= i < |items| ==> Canonical(items[i]) == Canonical(others[i]) {
      assert left == right;
    }
  }

  /** Two values have the same canonical form exactly when they differ in nothing but the order of keys. */
  lemma {:induction false} CanonicalIffSimilar(v: Json, w: Json)
    requires WellFormed(v) && WellFormed(w)
    ensures Similar(v, w) <==> Canonical(v) == Canonical(w)
    decreases v, 0
  {
    if v.List? && w.List? {
      forall i | 0 <= i < |v.items| && i < |w.items|
        ensures Similar(v.items[i], w.items[i]) <==> Canonical(v.items[i]) == Canonical(w.items[i]) {
        CanonicalIffSimilar(v.items[i], w.items[i]);
      }
      ListsAgree(v.items, w.items);
    } else if v.Object? && w.Object? {
      if multiset(Names(v.fields)) == multiset(Names(w.fields)) {
        forall i | 0 <= i < |v.fields|
          ensures Similar(v.fields[i].json, Lookup(w.fields, v.fields[i].name))
                  <==> SameValue(v.fields, w.fields, v.fields[i].name) {
          NamesAt(v.fields);
          assert Names(v.fields)[i] in multiset(Names(v.fields));
          LookupAt(v.fields, i);
          var j := LookupMember(w.fields, v.fields[i].name);
          CanonicalIffSimilar(v.fields[i].json, w.fields[j].json);
        }
        SimilarFieldsIff(v.fields, w.fields);
      }
      FieldwiseSimilar(v.fields, w.fields);
    }
  }

  /** The text is equal exactly for values that differ in nothing but the order of keys. */
  lemma StableIffSimilar(v: Json, w: Json)
    requires WellFormed(v) && WellFormed(w)
    ensures Stable(v) == Stable(w) <==> Similar(v, w)
  {
    CanonicalIffSimilar(v, w);
    if Stable(v) == Stable(w) {
      TextDetermines(Canonical(v), "", Canonical(w), "");
    }
  }

  lemma TwoOccurrences(names: seq<string>, i: nat, j: nat)
    requires i < j < |names| && names[i] == names[j]
    ensures multiset(names)[names[i]] >= 2
  {
    assert names == names[..j] + [names[j]] + names[j + 1..];
    assert names[i] in names[..j];
  }

  lemma {:induction false} OneOccurrence(names: seq<string>, name: string)
    requires DistinctNames(names)
    ensures multiset(names)[name] <= 1
  {
    if names == [] {
    } else {
      assert names == [names[0]] + names[1..];
      OneOccurrence(names[1..], name);
      if name == names[0] {
        assert name !in names[1..];
      }
    }
  }

  lemma DistinctIsMultiset(names: seq<string>, others: seq<string>)
    requires DistinctNames(names) && multiset(names) == multiset(others)
    ensures DistinctNames(others)
  {
    forall i, j | 0 <= i < j < |others| ensures others[i] != others[j] {
      if others[i] == others[j] {
        TwoOccurrences(others, i, j);
        OneOccurrence(names, others[i]);
      }
    }
  }

  /** The field of a canonical object under the name of a field of the original. */
  lemma CanonicalField(fields: seq<Field>, i: nat)
    requires DistinctNames(Names(fields)) && i < |fields|
    ensures Lookup(Pick(CanonicalFields(fields), Order(Names(fields))), fields[i].name) == Canonical(fields[i].json)
  {
    var names := Order(Names(fields));
    NamesAt(fields);
    OrderHasNames(fields, fields[i].name);
    assert Names(fields)[i] in multiset(Names(fields));
    PickLookup(CanonicalFields(fields), names, fields[i].name);
    CanonicalLookup(fields, fields[i].name);
    LookupAt(fields, i);
  }

  /** Each field of a canonical object comes from one of the original. */
  lemma OriginalField(fields: seq<Field>, p: nat) returns (i: nat)
    requires DistinctNames(Names(fields)) && p < |Order(Names(fields))|
    ensures |Pick(CanonicalFields(fields), Order(Names(fields)))| == |Order(Names(fields))|
    ensures i < |fields|
    ensures Pick(CanonicalFields(fields), Order(Names(fields)))[p].json == Canonical(fields[i].json)
  {
    var names := Order(Names(fields));
    PickAt(CanonicalFields(fields), names);
    OrderHasNames(fields, names[p]);
    i := LookupMember(fields, names[p]);
    CanonicalLookup(fields, names[p]);
  }

  lemma CanonicalNames(fields: seq<Field>)
    requires DistinctNames(Names(fields))
    ensures var picked := Pick(CanonicalFields(fields), Order(Names(fields)));
            && DistinctNames(Names(picked)) && multiset(Names(picked)) == multiset(Names(fields))
            && |picked| == |Order(Names(fields))|
  {
    PickAt(CanonicalFields(fields), Order(Names(fields)));
    OrderDependsOnMultiset(Names(fields), Names(fields));
    DistinctIsMultiset(Names(fields), Order(Names(fields)));
  }

  lemma {:induction false} CanonicalIsSimilar(v: Json)
    requires WellFormed(v)
    ensures WellFormed(Canonical(v)) && Similar(v, Canonical(v))
    decreases v
  {
    match v
    case List(items) =>
      CanonicalItemsAt(items);
      forall i | 0 <= i < |items| ensures WellFormed(Canonical(items[i])) && Similar(items[i], Canonical(items[i])) {
        CanonicalIsSimilar(items[i]);
      }
    case Object(fields) =>
      var picked := Pick(CanonicalFields(fields), Order(Names(fields)));
      CanonicalObject(fields);
      CanonicalNames(fields);
      forall i | 0 <= i < |fields| ensures Similar(fields[i].json, Lookup(picked, fields[i].name)) {
        CanonicalField(fields, i);
        CanonicalIsSimilar(fields[i].json);
      }
      forall p | 0 <= p < |picked| ensures WellFormed(picked[p].json) {
        var i := OriginalField(fields, p);
        CanonicalIsSimilar(fields[i].json);
      }
    case _ =>
  }

  /** Canonicalising a value twice is canonicalising it once. */
  lemma CanonicalIsIdempotent(v: Json)
    requires WellFormed(v)
    ensures Canonical(Canonical(v)) == Canonical(v)
  {
    CanonicalIsSimilar(v);
    CanonicalIffSimilar(v, Canonical(v));
  }

  // ---------------------------------------------------------------------------
  // The order of keys

  /** Indices come first, by number; the other names follow in dictionary order. */
  predicate Precedes(a: string, b: string) {
    if IsIndex(a) then IsIndex(b) ==> Denoted(a) <= Denoted(b) else !IsIndex(b) && AtMost(a, b)
  }

  predicate InOrder(names: seq<string>) {
    forall i, j :: 0 <= i < j < |names| ==> Precedes(names[i], names[j])
  }

  lemma PrecedesTotal(a: string, b: string)
    ensures Precedes(a, b) || Precedes(b, a)
    ensures Precedes(a, b) && Precedes(b, a) ==> a == b
  {
    AtMostTotal(a, b);
    if IsIndex(a) && IsIndex(b) {
      PlainIsDigits(a);
      PlainIsDigits(b);
    } else if AtMost(a, b) && AtMost(b, a) {
      AtMostAntisymmetric(a, b);
    }
  }

  lemma PrecedesTransitive(a: string, b: string, c: string)
    requires Precedes(a, b) && Precedes(b, c)
    ensures Precedes(a, c)
  {
    if AtMost(a, b) && AtMost(b, c) {
      AtMostTransitive(a, b, c);
    }
  }

  lemma InOrderTail(names: seq<string>)
    requires names != [] && InOrder(names)
    ensures InOrder(names[1..]) && forall name :: name in names[1..] ==> Precedes(names[0], name)
  {
  }

  lemma InOrderHead(name: string, names: seq<string>)
    requires InOrder(names) && forall other :: other in names ==> Precedes(name, other)
    ensures InOrder([name] + names)
  {
  }

  lemma {:induction false} InsertIndexKeepsOrder(name: string, names: seq<string>)
    requires IsIndex(name) && InOrder(names)
    ensures InOrder(InsertIndex(name, names))
  {
    if names == [] || !IsIndex(names[0]) || Denoted(name) <= Denoted(names[0]) {
      forall other | other in names ensures Precedes(name, other) {
        var i :| 0 <= i < |names| && names[i] == other;
        if i > 0 {
          PrecedesTransitive(name, names[0], other);
        }
      }
      InOrderHead(name, names);
    } else {
      var rest := InsertIndex(name, names[1..]);
      InOrderTail(names);
      InsertIndexKeepsOrder(name, names[1..]);
      InsertIndexPermutes(name, names[1..]);
      forall other | other in rest ensures Precedes(names[0], other) {
        assert other in multiset(rest);
      }
      InOrderHead(names[0], rest);
    }
  }

  lemma InOrderSnoc(names: seq<string>, name: string)
    requires InOrder(names) && forall other :: other in names ==> Precedes(other, name)
    ensures InOrder(names + [name])
  {
  }

  /** Creating the properties in dictionary order leaves them in the order of `Precedes`. */
  lemma {:induction false} EnumerateOrders(names: seq<string>)
    requires SortedNames(names)
    ensures InOrder(Enumerate(names))
  {
    if names == [] {
    } else {
      var front, last := names[..|names| - 1], names[|names| - 1];
      EnumerateOrders(front);
      if IsIndex(last) {
        InsertIndexKeepsOrder(last, Enumerate(front));
      } else {
        EnumeratePermutes(front);
        forall other | other in Enumerate(front) ensures Precedes(other, last) {
          assert other in multiset(front);
          var i :| 0 <= i < |front| && front[i] == other;
          assert AtMost(names[i], names[|front|]);
        }
        InOrderSnoc(Enumerate(front), last);
      }
    }
  }

  lemma LeastIsFirst(names: seq<string>, name: string)
    requires InOrder(names) && name in multiset(names)
    ensures Precedes(names[0], name)
  {
    PrecedesTotal(name, name);
    var i :| 0 <= i < |names| && names[i] == name;
  }

  lemma OneFewer(names: seq<string>)
    requires names != [] && InOrder(names)
    ensures names == [names[0]] + names[1..] && multiset(names[1..]) == multiset(names) - multiset{names[0]}
    ensures InOrder(names[1..])
  {
    assert names == [names[0]] + names[1..];
  }

  /** A multiset of names has one listing in order. */
  lemma {:induction false} InOrderIsUnique(left: seq<string>, right: seq<string>)
    requires InOrder(left) && InOrder(right) && multiset(left) == multiset(right)
    ensures left == right
  {
    if left == [] || right == [] {
      assert |multiset(left)| == |multiset(right)|;
    } else {
      LeastIsFirst(left, right[0]);
      LeastIsFirst(right, left[0]);
      PrecedesTotal(left[0], right[0]);
      OneFewer(left);
      OneFewer(right);
      InOrderIsUnique(left[1..], right[1..]);
    }
  }

  /** A canonical object lists its names in the one way that has the indices first, by number, and the other names
      behind them in dictionary order. */
  lemma OrderIff(names: seq<string>, listed: seq<string>)
    ensures listed == Order(names) <==> multiset(listed) == multiset(names) && InOrder(listed)
  {
    OrderDependsOnMultiset(names, names);
    SortSorts(names);
    EnumerateOrders(Sort(names));
    if multiset(listed) == multiset(names) && InOrder(listed) {
      InOrderIsUnique(listed, Order(names));
    }
  }

  /** At every depth, objects list their names in order. */
  predicate IsOrdered(v: Json)
    decreases v
  {
    match v
    case List(items) => forall i :: 0 <= i < |items| ==> IsOrdered(items[i])
    case Object(fields) => InOrder(Names(fields)) && forall i :: 0 <= i < |fields| ==> IsOrdered(fields[i].json)
    case _ => true
  }

  lemma {:induction false} CanonicalIsOrdered(v: Json)
    requires WellFormed(v)
    ensures IsOrdered(Canonical(v))
    decreases v
  {
    match v
    case List(items) =>
      CanonicalItemsAt(items);
      forall i | 0 <= i < |items| ensures IsOrdered(Canonical(items[i])) {
        CanonicalIsOrdered(items[i]);
      }
    case Object(fields) =>
      var picked := Pick(CanonicalFields(fields), Order(Names(fields)));
      CanonicalObject(fields);
      OrderIff(Names(fields), Order(Names(fields)));
      PickAt(CanonicalFields(fields), Order(Names(fields)));
      forall p | 0 <= p < |picked| ensures IsOrdered(picked[p].json) {
        var i := OriginalField(fields, p);
        CanonicalIsOrdered(fields[i].json);
      }
    case _ =>
  }

  lemma PicksItself(fields: seq<Field>)
    requires DistinctNames(Names(fields))
    ensures Pick(fields, Names(fields)) == fields
  {
    NamesAt(fields);
    PickAt(fields, Names(fields));
    forall i | 0 <= i < |fields| ensures Pick(fields, Names(fields))[i] == fields[i] {
      LookupAt(fields, i);
    }
  }

  lemma {:induction false} OrderedIsCanonical(v: Json)
    requires WellFormed(v) && IsOrdered(v)
    ensures Canonical(v) == v
    decreases v
  {
    match v
    case List(items) =>
      CanonicalItemsAt(items);
      forall i | 0 <= i < |items| ensures Canonical(items[i]) == items[i] {
        OrderedIsCanonical(items[i]);
      }
      assert CanonicalItems(items) == items;
    case Object(fields) =>
      CanonicalFieldsAt(fields);
      forall i | 0 <= i < |fields| ensures Canonical(fields[i].json) == fields[i].json {
        OrderedIsCanonical(fields[i].json);
      }
      assert CanonicalFields(fields) == fields;
      CanonicalObject(fields);
      OrderIff(Names(fields), Names(fields));
      PicksItself(fields);
    case _ =>
  }

  /** The canonical form is the one value that differs in nothing but the order of keys and has them in order. */
  lemma CanonicalIff(v: Json, w: Json)
    requires WellFormed(v) && WellFormed(w)
    ensures w == Canonical(v) <==> Similar(v, w) && IsOrdered(w)
  {
    CanonicalIsSimilar(v);
    CanonicalIsOrdered(v);
    CanonicalIffSimilar(v, w);
    if IsOrdered(w) {
      OrderedIsCanonical(w);
    }
  }

  /** Reading the text gives the value back, its keys put in order, and nothing is left over. */
  lemma StableIsReadBack(v: Json)
    requires WellFormed(v)
    ensures exists w :: ReadValue(Stable(v)) == Some((w, "")) && Similar(v, w) && IsOrdered(w)
  {
    ValueReads(Canonical(v), "");
    CanonicalIsSimilar(v);
    CanonicalIsOrdered(v);
  }

  /** The indices are the decimal texts of the numbers up to 2^32 - 2. */
  lemma IndexIff(name: string)
    ensures IsIndex(name) <==> exists n: nat :: n < 4294967295 && name == Digits(n)
  {
    if IsIndex(name) {
      PlainIff(name, Denoted(name));
    }
    if n: nat :| n < 4294967295 && name == Digits(n) {
      PlainIff(name, n);
    }
  }
}
