/** The order of strings, sorting by it, and joining with newlines. */
module Ordering {
  import opened Texts

  /** `a` does not come after `b` in dictionary order. */
  predicate AtMost(a: string, b: string) {
    a == "" || (b != "" && (a[0] < b[0] || (a[0] == b[0] && AtMost(a[1..], b[1..]))))
  }

  /** The first difference decides, and a beginning comes before what it begins. */
  predicate DecidedAt(a: string, b: string, n: nat) {
    n <= |a| && n <= |b| && a[..n] == b[..n] && (n == |a| || (n < |b| && a[n] < b[n]))
  }

  lemma DecidedLater(a: string, b: string, n: nat)
    requires a != "" && b != "" && a[0] == b[0]
    ensures DecidedAt(a, b, n + 1) <==> DecidedAt(a[1..], b[1..], n)
  {
    if n + 1 <= |a| && n + 1 <= |b| {
      assert a[..n + 1] == [a[0]] + a[1..][..n] && b[..n + 1] == [b[0]] + b[1..][..n];
      assert a[1..][..n] == a[..n + 1][1..] && b[1..][..n] == b[..n + 1][1..];
    }
  }

  lemma {:induction false} AtMostIffDecided(a: string, b: string)
    ensures AtMost(a, b) <==> exists n: nat :: DecidedAt(a, b, n)
  {
    if a == "" || b == "" || a[0] != b[0] {
      assert AtMost(a, b) ==> DecidedAt(a, b, 0);
      assert forall n: nat :: DecidedAt(a, b, n) && n > 0 ==> a[..n][0] == b[..n][0];
    } else {
      AtMostIffDecided(a[1..], b[1..]);
      if n: nat :| DecidedAt(a[1..], b[1..], n) {
        DecidedLater(a, b, n);
      }
      if n: nat :| DecidedAt(a, b, n) {
        assert n > 0;
        DecidedLater(a, b, n - 1);
      }
    }
  }

  lemma {:induction false} AtMostTotal(a: string, b: string)
    ensures AtMost(a, b) || AtMost(b, a)
  {
    if a == "" || b == "" {
    } else {
      AtMostTotal(a[1..], b[1..]);
    }
  }

  lemma {:induction false} AtMostAntisymmetric(a: string, b: string)
    requires AtMost(a, b) && AtMost(b, a)
    ensures a == b
  {
    if a == "" {
    } else {
      AtMostAntisymmetric(a[1..], b[1..]);
      assert a == [a[0]] + a[1..] && b == [b[0]] + b[1..];
    }
  }

  lemma {:induction false} AtMostTransitive(a: string, b: string, c: string)
    requires AtMost(a, b) && AtMost(b, c)
    ensures AtMost(a, c)
  {
    if a == "" || !(a[0] == b[0] == c[0]) {
    } else {
      AtMostTransitive(a[1..], b[1..], c[1..]);
    }
  }

  predicate SortedNames(names: seq<string>) {
    forall i, j :: 0 <= i < j < |names| ==> AtMost(names[i], names[j])
  }

  function Insert(name: string, names: seq<string>): seq<string> {
    if names == [] then [name]
    else if AtMost(name, names[0]) then [name] + names
    else [names[0]] + Insert(name, names[1..])
  }

  function Sort(names: seq<string>): seq<string> {
    if names == [] then [] else Insert(names[0], Sort(names[1..]))
  }

  lemma {:induction false} InsertPermutes(name: string, names: seq<string>)
    ensures multiset(Insert(name, names)) == multiset(names) + multiset{name}
  {
    if names == [] {
    } else {
      assert names == [names[0]] + names[1..];
      InsertPermutes(name, names[1..]);
    }
  }

  lemma {:induction false} InsertKeepsSorted(name: string, names: seq<string>)
    requires SortedNames(names)
    ensures SortedNames(Insert(name, names))
  {
    if names == [] {
    } else if AtMost(name, names[0]) {
      var all := [name] + names;
      forall i, j | 0 <= i < j < |all| ensures AtMost(all[i], all[j]) {
        if i == 0 && j > 1 {
          AtMostTransitive(name, names[0], names[j - 1]);
        }
      }
    } else {
      AtMostTotal(name, names[0]);
      var rest := Insert(name, names[1..]);
      InsertKeepsSorted(name, names[1..]);
      InsertPermutes(name, names[1..]);
      forall j | 0 <= j < |rest| ensures AtMost(names[0], rest[j]) {
        assert rest[j] in multiset(rest);
        assert rest[j] == name || rest[j] in names[1..];
      }
      var all := [names[0]] + rest;
      forall i, j | 0 <= i < j < |all| ensures AtMost(all[i], all[j]) {
        if i > 0 {
          assert AtMost(rest[i - 1], rest[j - 1]);
        }
      }
    }
  }

  lemma {:induction false} SortPermutes(names: seq<string>)
    ensures multiset(Sort(names)) == multiset(names)
  {
    if names == [] {
    } else {
      assert names == [names[0]] + names[1..];
      SortPermutes(names[1..]);
      InsertPermutes(names[0], Sort(names[1..]));
    }
  }

  lemma {:induction false} SortSorts(names: seq<string>)
    ensures SortedNames(Sort(names))
  {
    if names == [] {
    } else {
      SortSorts(names[1..]);
      InsertKeepsSorted(names[0], Sort(names[1..]));
    }
  }

  lemma TailOf(names: seq<string>)
    requires names != []
    ensures names == [names[0]] + names[1..] && multiset(names[1..]) == multiset(names) - multiset{names[0]}
    ensures SortedNames(names) ==> SortedNames(names[1..])
  {
    assert names == [names[0]] + names[1..];
  }

  lemma HeadIsLeast(names: seq<string>, name: string)
    requires SortedNames(names) && name in multiset(names)
    ensures AtMost(names[0], name)
  {
    AtMostTotal(name, name);
    var i :| 0 <= i < |names| && names[i] == name;
  }

  /** A multiset of names has one sorted listing. */
  lemma {:induction false} SortedIsUnique(left: seq<string>, right: seq<string>)
    requires SortedNames(left) && SortedNames(right) && multiset(left) == multiset(right)
    ensures left == right
  {
    if left == [] || right == [] {
      assert |multiset(left)| == |multiset(right)|;
    } else {
      HeadIsLeast(left, right[0]);
      HeadIsLeast(right, left[0]);
      AtMostAntisymmetric(left[0], right[0]);
      TailOf(left);
      TailOf(right);
      SortedIsUnique(left[1..], right[1..]);
    }
  }

  lemma SortDependsOnMultiset(left: seq<string>, right: seq<string>)
    ensures Sort(left) == Sort(right) <==> multiset(left) == multiset(right)
  {
    SortPermutes(left);
    SortPermutes(right);
    SortSorts(left);
    SortSorts(right);
    if multiset(left) == multiset(right) {
      SortedIsUnique(Sort(left), Sort(right));
    }
  }

  function JoinLines(names: seq<string>): string {
    if names == [] then "" else if |names| == 1 then names[0] else names[0] + "\n" + JoinLines(names[1..])
  }

  predicate NotNewline(c: char) {
    c != '\n'
  }

  predicate OneLine(name: string) {
    Only(name, NotNewline)
  }

  predicate OneLiners(names: seq<string>) {
    forall i :: 0 <= i < |names| ==> OneLine(names[i])
  }

  /** What follows the first name: nothing, or a newline and the other names. */
  function Remainder(names: seq<string>): string
    requires names != []
  {
    if |names| == 1 then "" else "\n" + JoinLines(names[1..])
  }

  lemma JoinUnfolds(names: seq<string>)
    requires names != []
    ensures JoinLines(names) == names[0] + Remainder(names) && EndsThere(Remainder(names), NotNewline)
    ensures Remainder(names) == "" <==> |names| == 1
    ensures |names| > 1 ==> Remainder(names)[1..] == JoinLines(names[1..])
  {
  }

  /** Joined lines determine the list, up to the difference between no name and one empty name. */
  lemma {:induction false} JoinIsInjective(left: seq<string>, right: seq<string>)
    requires OneLiners(left) && OneLiners(right) && (left == [] <==> right == [])
    requires JoinLines(left) == JoinLines(right)
    ensures left == right
  {
    if left == [] {
    } else {
      JoinUnfolds(left);
      JoinUnfolds(right);
      SplitsOnce(left[0], Remainder(left), right[0], Remainder(right), NotNewline);
      assert left == [left[0]] + left[1..] && right == [right[0]] + right[1..];
      if |left| > 1 {
        JoinIsInjective(left[1..], right[1..]);
      }
    }
  }
}
