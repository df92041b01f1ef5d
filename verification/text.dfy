/** The string comparisons the resolver performs: ordinal equality and prefix,
    their ordinal case-insensitive counterparts, and `LastIndexOf(char)`. */
module Text {
  import opened Wrappers

  /** The case fold behind `StringComparison.OrdinalIgnoreCase`, restricted to
      ASCII letters: both operands are compared upper-cased. */
  function Upper(c: char): (u: char)
    ensures 'a' <= c <= 'z' ==> 'A' <= u <= 'Z'
    ensures !('a' <= c <= 'z') ==> u == c
    ensures Upper(u) == u
  {
    if 'a' <= c <= 'z' then (c as int - 'a' as int + 'A' as int) as char else c
  }

  /** The string upper-cased letter by letter: the length never changes, no
      lower-case ASCII letter survives, and every other character stays put. */
  function Fold(s: string): (f: string)
    ensures |f| == |s|
    ensures forall i :: 0 <= i < |f| ==> !('a' <= f[i] <= 'z')
    ensures forall i :: 0 <= i < |s| && !('a' <= s[i] <= 'z') ==> f[i] == s[i]
  {
    seq(|s|, i requires 0 <= i < |s| => Upper(s[i]))
  }

  /** `string.Equals(a, b, StringComparison.OrdinalIgnoreCase)` on non-null strings. */
  predicate EqualsIgnoreCase(a: string, b: string)
  {
    Fold(a) == Fold(b)
  }

  /** `s.StartsWith(prefix, StringComparison.OrdinalIgnoreCase)`. */
  predicate StartsWithIgnoreCase(s: string, prefix: string)
  {
    Fold(prefix) <= Fold(s)
  }

  /** Equality ignoring case compares the strings character by character:
      same length, and each pair of characters equal once upper-cased. */
  lemma EqualsIgnoreCaseCharwise(a: string, b: string)
    ensures EqualsIgnoreCase(a, b) <==>
              |a| == |b| && forall i :: 0 <= i < |a| ==> Upper(a[i]) == Upper(b[i])
  {
    assert forall i :: 0 <= i < |a| ==> Fold(a)[i] == Upper(a[i]);
    assert forall i :: 0 <= i < |b| ==> Fold(b)[i] == Upper(b[i]);
    if |a| == |b| && forall i :: 0 <= i < |a| ==> Upper(a[i]) == Upper(b[i]) {
      assert forall i :: 0 <= i < |a| ==> Fold(a)[i] == Fold(b)[i];
    }
  }

  /** Equality ignoring case is an equivalence, and folding a string keeps it
      in its own class: the fold is idempotent. */
  lemma EqualsIgnoreCaseIsEquivalence(a: string, b: string, c: string)
    ensures EqualsIgnoreCase(a, a)
    ensures EqualsIgnoreCase(a, b) ==> EqualsIgnoreCase(b, a)
    ensures EqualsIgnoreCase(a, b) && EqualsIgnoreCase(b, c) ==> EqualsIgnoreCase(a, c)
    ensures Fold(Fold(a)) == Fold(a) && EqualsIgnoreCase(a, Fold(a))
  {
    assert forall i :: 0 <= i < |a| ==> Fold(Fold(a))[i] == Fold(a)[i];
  }

  /** A byte-for-byte prefix is a prefix ignoring case as well. */
  lemma {:induction false} PrefixImpliesStartsWithIgnoreCase(s: string, prefix: string)
    requires prefix <= s
    ensures StartsWithIgnoreCase(s, prefix)
  {
    var fs, fp := Fold(s), Fold(prefix);
    assert forall i :: 0 <= i < |fp| ==> fp[i] == Upper(prefix[i]) == Upper(s[i]) == fs[i];
  }

  /** Case-insensitive prefix in terms of the leading slice of `s`: the form in
      which .NET performs the comparison. */
  lemma StartsWithIgnoreCaseBySlice(s: string, prefix: string)
    ensures StartsWithIgnoreCase(s, prefix) <==>
              |prefix| <= |s| && EqualsIgnoreCase(s[..|prefix|], prefix)
  {
    if StartsWithIgnoreCase(s, prefix) {
      assert Fold(s[..|prefix|]) == Fold(s)[..|prefix|];
    }
    if |prefix| <= |s| && EqualsIgnoreCase(s[..|prefix|], prefix) {
      assert Fold(s[..|prefix|]) == Fold(s)[..|prefix|];
    }
  }

  /** `s.LastIndexOf(c)`, with `None` for the source's -1. */
  function LastIndexOf(s: string, c: char): (r: Option<nat>)
    ensures r.None? <==> c !in s
    ensures r.Some? ==> r.value < |s| && s[r.value] == c
    ensures r.Some? ==> forall j :: r.value < j < |s| ==> s[j] != c
  {
    if |s| == 0 then None
    else if s[|s| - 1] == c then Some(|s| - 1)
    else
      var r := LastIndexOf(s[..|s| - 1], c);
      assert s == s[..|s| - 1] + [s[|s| - 1]];
      r
  }
}
