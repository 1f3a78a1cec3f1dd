/** The string helpers of vsftpd (str.c) that the modelled code calls, on values. */
module Strings {

  datatype Option<+T> = None | Some(value: T)

  /** t stands in s at index i. */
  predicate OccursAt(s: string, t: string, i: nat) {
    i + |t| <= |s| && s[i..i + |t|] == t
  }

  /** str_locate_text: the first occurrence of t in s; an empty t is never found. */
  function LocateText(s: string, t: string): (r: Option<nat>)
    ensures r.Some? ==> t != "" && OccursAt(s, t, r.value)
    ensures r.Some? ==> forall i: nat | i < r.value :: !OccursAt(s, t, i)
    ensures r.None? && t != "" ==> forall i: nat :: !OccursAt(s, t, i)
  {
    if t == "" || |t| > |s| then None
    else if t <= s then Some(0)
    else
      var r := LocateText(s[1..], t);
      assert forall i: nat | i > 0 :: OccursAt(s, t, i) ==> OccursAt(s[1..], t, i - 1);
      if r.Some? then Some(r.value + 1) else None
  }

  /** str_split_text: cut s at the first occurrence of t; the right part is empty when t is absent. */
  function SplitText(s: string, t: string): (r: (string, string))
    ensures |r.0| + |r.1| <= |s|
  {
    match LocateText(s, t)
    case None => (s, "")
    case Some(k) => (s[..k], s[k + |t|..])
  }

  /** str_split_char */
  function SplitChar(s: string, c: char): (r: (string, string))
    ensures c !in r.0
    ensures c in s ==> s == r.0 + [c] + r.1
    ensures c !in s ==> r == (s, "")
  {
    SplitCharFacts(s, c);
    SplitText(s, [c])
  }

  lemma SplitCharFacts(s: string, c: char)
    ensures var r := SplitText(s, [c]);
      && c !in r.0
      && (c in s ==> s == r.0 + [c] + r.1)
      && (c !in s ==> r == (s, ""))
  {
    assert forall i: nat | i < |s| && s[i] == c :: OccursAt(s, [c], i);
    var r := LocateText(s, [c]);
    if r.Some? {
      var k := r.value;
      assert s[k..k + 1] == [c];
      assert s[k] == c;
      assert s == s[..k] + [c] + s[k + 1..];
    }
  }

  /** The two halves around the first separator are determined by the text. */
  lemma SplitCharAt(a: string, c: char, b: string)
    requires c !in a
    ensures SplitChar(a + [c] + b, c) == (a, b)
  {
    var s := a + [c] + b;
    var r := SplitChar(s, c);
    assert s[|a|] == c;
    assert s[..|a|] == a && s[..|r.0|] == r.0;
    assert s[|a| + 1..] == b && s[|r.0| + 1..] == r.1;
  }
}
