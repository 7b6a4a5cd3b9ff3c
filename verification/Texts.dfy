/** Where two readings of one text can part. */
module Texts {
  predicate Only(text: string, inside: char -> bool) {
    forall i :: 0 <= i < |text| ==> inside(text[i])
  }

  predicate EndsThere(rest: string, inside: char -> bool) {
    rest == "" || !inside(rest[0])
  }

  lemma LongerPasses(a: string, s: string, b: string, t: string, inside: char -> bool)
    requires a + s == b + t && Only(a, inside) && |b| < |a|
    ensures !EndsThere(t, inside)
  {
    assert (a + s)[|b|] == a[|b|] && (b + t)[|b|] == t[0];
  }

  lemma SameLength(a: string, s: string, b: string, t: string)
    requires a + s == b + t && |a| == |b|
    ensures a == b && s == t
  {
    assert a == (a + s)[..|a|] && b == (b + t)[..|b|];
    assert s == (a + s)[|a|..] && t == (b + t)[|b|..];
  }

  /** A text has one longest beginning of characters of a kind. */
  lemma SplitsOnce(a: string, s: string, b: string, t: string, inside: char -> bool)
    requires a + s == b + t && Only(a, inside) && Only(b, inside) && EndsThere(s, inside) && EndsThere(t, inside)
    ensures a == b && s == t
  {
    if |b| < |a| {
      LongerPasses(a, s, b, t, inside);
    } else if |a| < |b| {
      LongerPasses(b, t, a, s, inside);
    }
    SameLength(a, s, b, t);
  }
}
