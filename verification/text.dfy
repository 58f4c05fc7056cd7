/** String helpers that mirror the few Python `str` operations the bridges use. */
module Text {
  import opened Wrappers

  /** Python's `str.lower`, restricted to the ASCII letters A-Z. */
  function LowerChar(c: char): char
  {
    if 'A' <= c <= 'Z' then (c as int + 32) as char else c
  }

  predicate IsLower(s: string)
  {
    forall i :: 0 <= i < |s| ==> !('A' <= s[i] <= 'Z')
  }

  function Lower(s: string): (r: string)
    ensures |r| == |s|
    ensures IsLower(r)
    ensures IsLower(s) ==> r == s
  {
    seq(|s|, i requires 0 <= i < |s| => LowerChar(s[i]))
  }

  /** Lowering twice is lowering once. */
  lemma LowerIdempotent(s: string)
    ensures Lower(Lower(s)) == Lower(s)
  {
  }

  /** Python's `s.startswith(prefix)`. */
  predicate StartsWith(s: string, prefix: string)
  {
    prefix <= s
  }

  /** The first index of `s` holding a character of `cs`: `s.find(c)` when
      `cs == {c}`, and the earliest of several finds otherwise. */
  function FindAny(s: string, cs: set<char>): (r: Option<nat>)
    ensures r.None? <==> forall i :: 0 <= i < |s| ==> s[i] !in cs
    ensures r.Some? ==> r.value < |s| && s[r.value] in cs
    ensures r.Some? ==> forall i :: 0 <= i < r.value ==> s[i] !in cs
  {
    if |s| == 0 then None
    else if s[0] in cs then Some(0)
    else match FindAny(s[1..], cs)
      case None => None
      case Some(k) => Some(k + 1)
  }

  /** The last index of `s` holding `c`: Python's `s.rfind(c)`. */
  function FindLast(s: string, c: char): (r: Option<nat>)
    ensures r.None? <==> c !in s
    ensures r.Some? ==> r.value < |s| && s[r.value] == c
    ensures r.Some? ==> forall i :: r.value < i < |s| ==> s[i] != c
  {
    if |s| == 0 then None
    else if s[|s| - 1] == c then Some(|s| - 1)
    else FindLast(s[..|s| - 1], c)
  }

  /** The first match of a concatenation is found in the left part when it
      has one, and otherwise is the right part's match shifted by `|a|`. */
  lemma FindAnyAppend(a: string, b: string, cs: set<char>)
    ensures FindAny(a + b, cs) ==
      match FindAny(a, cs)
      case Some(i) => Some(i)
      case None => match FindAny(b, cs)
        case Some(j) => Some(|a| + j)
        case None => None
  {
    var ab := a + b;
    match FindAny(a, cs)
    case Some(i) =>
      assert ab[i] == a[i];
      assert forall k :: 0 <= k < i ==> ab[k] == a[k];
    case None =>
      assert forall k :: 0 <= k < |a| ==> ab[k] == a[k];
      assert forall k :: 0 <= k < |b| ==> ab[|a| + k] == b[k];
      match FindAny(b, cs)
      case Some(j) =>
      case None =>
        assert forall k :: |a| <= k < |ab| ==> ab[k] == b[k - |a|];
  }

  /** Python's `s.lstrip(chars)` where `chars` is every character up to `hi`. */
  function LStripUpTo(s: string, hi: char): (r: string)
    ensures |r| <= |s| && r == s[|s| - |r|..]
    ensures |r| > 0 ==> r[0] > hi
    ensures |s| > 0 && s[0] > hi ==> r == s
  {
    if |s| > 0 && s[0] <= hi then LStripUpTo(s[1..], hi) else s
  }

  /** `s` with every character of `cs` deleted: repeated `s.replace(c, "")`. */
  function RemoveAll(s: string, cs: set<char>): (r: string)
    ensures forall i :: 0 <= i < |r| ==> r[i] !in cs
    ensures (forall i :: 0 <= i < |s| ==> s[i] !in cs) ==> r == s
  {
    if |s| == 0 then ""
    else if s[0] in cs then RemoveAll(s[1..], cs)
    else [s[0]] + RemoveAll(s[1..], cs)
  }

  lemma {:induction false} RemoveAllAppend(a: string, b: string, cs: set<char>)
    ensures RemoveAll(a + b, cs) == RemoveAll(a, cs) + RemoveAll(b, cs)
  {
    if |a| == 0 {
      assert a + b == b;
    } else {
      assert (a + b)[1..] == a[1..] + b;
      RemoveAllAppend(a[1..], b, cs);
    }
  }
}
