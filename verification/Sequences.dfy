/** How sequences come apart. */
module Sequences {
  lemma HeadAndTail<T>(s: seq<T>)
    requires s != []
    ensures s == [s[0]] + s[1..]
  {
  }

  lemma FrontAndLast<T>(s: seq<T>)
    requires s != []
    ensures s == s[..|s| - 1] + [s[|s| - 1]]
  {
  }

  lemma FrontOfSnoc<T>(s: seq<T>, x: T)
    ensures (s + [x])[..|s + [x]| - 1] == s && (s + [x])[|s + [x]| - 1] == x
  {
  }

  lemma AppendNothing<T>(s: seq<T>)
    ensures s + [] == s && [] + s == s
  {
  }

  lemma AppendLast<T>(s: seq<T>, t: seq<T>)
    requires t != []
    ensures s + t == (s + t[..|t| - 1]) + [t[|t| - 1]]
  {
  }

  lemma AppendAssociates<T>(s: seq<T>, t: seq<T>, u: seq<T>)
    ensures (s + t) + u == s + (t + u)
  {
  }

  lemma TailOfAppend<T>(s: seq<T>, t: seq<T>)
    requires s != []
    ensures (s + t)[0] == s[0] && (s + t)[1..] == s[1..] + t
  {
  }

  /** `part` is `whole` without some of its elements: `at` says where each of the others stands. */
  predicate IsSelection<T(==)>(part: seq<T>, whole: seq<T>, at: seq<nat>) {
    && |at| == |part|
    && (forall i :: 0 <= i < |at| ==> at[i] < |whole| && part[i] == whole[at[i]])
    && (forall i, j :: 0 <= i < j < |at| ==> at[i] < at[j])
  }

  function Shifted(at: seq<nat>): (shifted: seq<nat>)
    ensures |shifted| == |at| && forall i :: 0 <= i < |at| ==> shifted[i] == at[i] + 1
  {
    if at == [] then [] else [at[0] + 1] + Shifted(at[1..])
  }

  lemma SelectionLater<T>(part: seq<T>, whole: seq<T>, at: seq<nat>)
    requires whole != [] && IsSelection(part, whole[1..], at)
    ensures IsSelection(part, whole, Shifted(at))
    ensures IsSelection([whole[0]] + part, whole, [0] + Shifted(at))
  {
    assert forall i :: 0 <= i < |at| ==> whole[1..][at[i]] == whole[at[i] + 1];
  }
}
