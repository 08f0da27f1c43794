/** The parts of Go's `strings` package that the operator relies on. */
module Text {

  predicate Contains(s: string, t: string) {
    exists i | 0 <= i <= |s| :: t <= s[i..]
  }

  /** Replaces the occurrences of `pat`, scanning from the left and skipping over each one found. */
  function ReplaceAll(s: string, pat: string, sub: string): string
    requires pat != ""
    decreases |s|
  {
    if s == "" then ""
    else if pat <= s then sub + ReplaceAll(s[|pat|..], pat, sub)
    else [s[0]] + ReplaceAll(s[1..], pat, sub)
  }

  function TrimLeft(s: string, c: char): (r: string)
    ensures r != "" ==> r[0] != c
  {
    if s != "" && s[0] == c then TrimLeft(s[1..], c) else s
  }

  function TrimRight(s: string, c: char): (r: string)
    ensures r != "" ==> r[|r| - 1] != c
    ensures r <= s
  {
    if s != "" && s[|s| - 1] == c then TrimRight(s[..|s| - 1], c) else s
  }

  function Trim(s: string, c: char): (r: string)
    ensures r != "" ==> r[0] != c && r[|r| - 1] != c
  {
    TrimRight(TrimLeft(s, c), c)
  }

  function TrimPrefix(s: string, p: string): string {
    if p <= s then s[|p|..] else s
  }

  /** Text without the first character of `pat` is copied through. */
  lemma {:induction false} ReplacePassesThrough(a: string, x: string, pat: string, sub: string)
    requires pat != "" && pat[0] !in a
    ensures ReplaceAll(a + x, pat, sub) == a + ReplaceAll(x, pat, sub)
  {
    if a == "" {
      assert a + x == x;
    } else {
      assert (a + x)[0] == a[0];
      assert (a + x)[1..] == a[1..] + x;
      ReplacePassesThrough(a[1..], x, pat, sub);
      assert a == [a[0]] + a[1..];
    }
  }

  lemma {:induction false} ReplaceAbsent(s: string, pat: string, sub: string)
    requires pat != "" && !Contains(s, pat)
    ensures ReplaceAll(s, pat, sub) == s
  {
    if s != "" {
      assert s[0..] == s;
      forall i | 0 <= i <= |s| - 1 ensures !(pat <= s[1..][i..]) {
        assert s[1..][i..] == s[i + 1..];
      }
      ReplaceAbsent(s[1..], pat, sub);
    }
  }

  lemma ContainsParts(s: string, t: string) returns (a: string, c: string)
    requires Contains(s, t)
    ensures s == a + t + c
  {
    var i :| 0 <= i <= |s| && t <= s[i..];
    a, c := s[..i], s[i + |t|..];
    assert s[i..] == t + c;
  }

  lemma Regroup(a: string, b: string, c: string)
    ensures a + b + c == a + (b + c)
  {}

  lemma DropConcat(a: string, b: string, i: nat)
    requires |a| <= i <= |a + b|
    ensures (a + b)[i..] == b[i - |a|..]
  {}
}
