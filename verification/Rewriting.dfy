/** Repeated replacement of delimited words, and the one-pass substitution it stands for. */
module Rewriting {
  import opened Basics
  import opened Text

  datatype Rule = Rule(pattern: string, replacement: string)

  /** Rules under arbitrary names. */
  type Rules = map<string, Rule>

  /** A word that opens with its only '$' and closes with its only '}'. */
  predicate Delimited(p: string) {
    && |p| >= 2 && p[0] == '$' && p[|p| - 1] == '}'
    && '$' !in p[1..] && '}' !in p[..|p| - 1]
  }

  predicate WellShaped(rules: Rules) {
    && (forall k <- rules :: Delimited(rules[k].pattern))
    && (forall k <- rules :: '$' !in rules[k].replacement && '}' !in rules[k].replacement)
    && (forall k <- rules, l <- rules :: k != l ==> rules[k].pattern != rules[l].pattern)
  }

  predicate IsOrderOf(order: seq<string>, rules: Rules) {
    Distinct(order) && Elements(order) == rules.Keys
  }

  /** The rules applied one after the other, each to the whole text. */
  function ApplyInOrder(order: seq<string>, rules: Rules, s: string): string
    requires Elements(order) <= rules.Keys && WellShaped(rules)
  {
    if order == [] then s
    else
      var before, k := order[..|order| - 1], order[|order| - 1];
      assert k in Elements(order) && Elements(before) <= Elements(order);
      ReplaceAll(ApplyInOrder(before, rules, s), rules[k].pattern, rules[k].replacement)
  }

  /** Reference meaning: one left-to-right pass that knows all the rules at once. */
  ghost function Simultaneous(rules: Rules, s: string): string
    decreases |s|
    requires WellShaped(rules)
  {
    if s == "" then ""
    else if k :| k in rules && rules[k].pattern <= s then
      rules[k].replacement + Simultaneous(rules, s[|rules[k].pattern|..])
    else [s[0]] + Simultaneous(rules, s[1..])
  }

  /** The rules under the names in `order`. */
  function Only(order: seq<string>, rules: Rules): Rules {
    map k | k in order && k in rules :: rules[k]
  }

  /** No replacement occurs inside the pattern of another rule. */
  predicate CrossFree(rules: Rules) {
    forall k <- rules, l <- rules :: k != l ==> !Contains(rules[l].pattern, rules[k].replacement)
  }

  /** No replacement occurs inside any pattern, its own rule's included. */
  predicate SelfAndCrossFree(rules: Rules) {
    forall k <- rules, l <- rules :: !Contains(rules[l].pattern, rules[k].replacement)
  }

  // ---- The one-pass substitution ----

  lemma OneWordPerPosition(p: string, q: string, s: string)
    requires Delimited(p) && Delimited(q) && p <= s && q <= s
    ensures p == q
  {
    assert forall i | 0 <= i < |p| - 1 :: s[i] == p[..|p| - 1][i] != '}';
    assert forall i | 0 <= i < |q| - 1 :: s[i] == q[..|q| - 1][i] != '}';
    assert s[|p| - 1] == '}' && s[|q| - 1] == '}';
  }

  lemma SimultaneousAtPattern(rules: Rules, k: string, s: string)
    requires WellShaped(rules) && k in rules && rules[k].pattern <= s
    ensures Simultaneous(rules, s) == rules[k].replacement + Simultaneous(rules, s[|rules[k].pattern|..])
  {
    forall l | l in rules && rules[l].pattern <= s ensures l == k {
      OneWordPerPosition(rules[k].pattern, rules[l].pattern, s);
    }
  }

  lemma SimultaneousCopies(rules: Rules, s: string)
    requires WellShaped(rules) && s != "" && s[0] != '$'
    ensures Simultaneous(rules, s) == [s[0]] + Simultaneous(rules, s[1..])
  {
  }

  lemma {:induction false} SimultaneousPassesThrough(rules: Rules, a: string, x: string)
    requires WellShaped(rules) && '$' !in a
    ensures Simultaneous(rules, a + x) == a + Simultaneous(rules, x)
  {
    hide Simultaneous, WellShaped;
    if a == "" {
      assert a + x == x;
    } else {
      assert (a + x)[0] == a[0] && (a + x)[1..] == a[1..] + x;
      SimultaneousCopies(rules, a + x);
      SimultaneousPassesThrough(rules, a[1..], x);
      Regroup([a[0]], a[1..], Simultaneous(rules, x));
      assert a == [a[0]] + a[1..];
    }
  }

  /** A delimited word that starts no pattern is copied through. */
  lemma SimultaneousAtOtherWord(rules: Rules, p: string, s: string)
    requires WellShaped(rules) && Delimited(p) && p <= s
    requires forall k <- rules :: !(rules[k].pattern <= s)
    ensures Simultaneous(rules, s) == p + Simultaneous(rules, s[|p|..])
  {
    var tail, rest := p[1..], s[|p|..];
    assert Simultaneous(rules, s) == [s[0]] + Simultaneous(rules, s[1..]);
    assert s[1..] == tail + rest && p == [s[0]] + tail;
    SimultaneousPassesThrough(rules, tail, rest);
    Regroup([s[0]], tail, Simultaneous(rules, rest));
  }

  lemma {:induction false} NoRules(s: string)
    ensures Simultaneous(map[], s) == s
  {
    if s != "" {
      NoRules(s[1..]);
    }
  }

  /** A tail of a delimited word cannot reach into a replacement it does not hold as a whole. */
  lemma TailHoldsReplacement(p: string, j: nat, a: string, x: string)
    requires Delimited(p) && j < |p| && p[j..] <= a + x && '}' !in a
    ensures Contains(p, a)
  {
    var w := p[j..];
    assert w[|w| - 1] == (a + x)[|w| - 1] == '}';
    assert |a| <= |w| - 1;
    assert a <= w;
  }

  /** A tail of `p` at the head of the output was already at the head of the input. */
  lemma {:induction false} TailWasThere(rules: Rules, p: string, j: nat, s: string)
    requires WellShaped(rules) && Delimited(p)
    requires forall k <- rules :: !Contains(p, rules[k].replacement)
    requires j <= |p| && p[j..] <= Simultaneous(rules, s)
    ensures p[j..] <= s
    decreases |s|
  {
    var w := p[j..];
    if j < |p| {
      if k :| k in rules && rules[k].pattern <= s {
        SimultaneousAtPattern(rules, k, s);
        TailHoldsReplacement(p, j, rules[k].replacement, Simultaneous(rules, s[|rules[k].pattern|..]));
        assert false;
      } else {
        assert w[1..] == p[j + 1..];
        assert Simultaneous(rules, s)[1..] == Simultaneous(rules, s[1..]);
        TailWasThere(rules, p, j + 1, s[1..]);
        assert w == [w[0]] + w[1..] && s == [s[0]] + s[1..];
      }
    }
  }

  lemma HeadWasThere(rules: Rules, p: string, s: string)
    requires WellShaped(rules) && Delimited(p)
    requires forall k <- rules :: !Contains(p, rules[k].replacement)
    ensures p <= Simultaneous(rules, s) ==> p <= s
  {
    assert p[0..] == p;
    if p <= Simultaneous(rules, s) {
      TailWasThere(rules, p, 0, s);
    }
  }

  // ---- Order independence ----

  /** `more` is `rules` with a rule for `r.pattern` added, whose pattern holds no replacement. */
  predicate AddsRule(rules: Rules, q: string, r: Rule, more: Rules) {
    && q !in rules && more == rules[q := r]
    && WellShaped(rules) && WellShaped(more)
    && Delimited(r.pattern)
    && forall k <- rules :: !Contains(r.pattern, rules[k].replacement)
  }

  lemma AbsorbAtOldRule(rules: Rules, q: string, r: Rule, more: Rules, k: string, s: string)
    requires AddsRule(rules, q, r, more) && k in rules && rules[k].pattern <= s
    requires var rest := s[|rules[k].pattern|..];
      ReplaceAll(Simultaneous(rules, rest), r.pattern, r.replacement) == Simultaneous(more, rest)
    ensures ReplaceAll(Simultaneous(rules, s), r.pattern, r.replacement) == Simultaneous(more, s)
  {
    var rest := s[|rules[k].pattern|..];
    SimultaneousAtPattern(rules, k, s);
    assert more[k] == rules[k];
    SimultaneousAtPattern(more, k, s);
    ReplacePassesThrough(rules[k].replacement, Simultaneous(rules, rest), r.pattern, r.replacement);
  }

  lemma AbsorbAtNewRule(rules: Rules, q: string, r: Rule, more: Rules, s: string)
    requires AddsRule(rules, q, r, more) && r.pattern <= s
    requires forall k <- rules :: !(rules[k].pattern <= s)
    requires var rest := s[|r.pattern|..];
      ReplaceAll(Simultaneous(rules, rest), r.pattern, r.replacement) == Simultaneous(more, rest)
    ensures ReplaceAll(Simultaneous(rules, s), r.pattern, r.replacement) == Simultaneous(more, s)
  {
    var p, rest := r.pattern, s[|r.pattern|..];
    assert more[q] == r;
    SimultaneousAtPattern(more, q, s);
    SimultaneousAtOtherWord(rules, p, s);
    var out := Simultaneous(rules, s);
    assert out[|p|..] == Simultaneous(rules, rest);
  }

  lemma AbsorbElsewhere(rules: Rules, q: string, r: Rule, more: Rules, s: string)
    requires AddsRule(rules, q, r, more) && s != "" && !(r.pattern <= s)
    requires forall k <- rules :: !(rules[k].pattern <= s)
    requires ReplaceAll(Simultaneous(rules, s[1..]), r.pattern, r.replacement) == Simultaneous(more, s[1..])
    ensures ReplaceAll(Simultaneous(rules, s), r.pattern, r.replacement) == Simultaneous(more, s)
  {
    HeadWasThere(rules, r.pattern, s);
    assert Simultaneous(rules, s)[1..] == Simultaneous(rules, s[1..]);
  }

  /** Applying one more rule to the whole text adds it to the simultaneous substitution. */
  lemma {:induction false} AbsorbOne(rules: Rules, q: string, r: Rule, more: Rules, s: string)
    requires AddsRule(rules, q, r, more)
    ensures ReplaceAll(Simultaneous(rules, s), r.pattern, r.replacement) == Simultaneous(more, s)
    decreases |s|
  {
    if s == "" {
    } else if k :| k in rules && rules[k].pattern <= s {
      AbsorbOne(rules, q, r, more, s[|rules[k].pattern|..]);
      AbsorbAtOldRule(rules, q, r, more, k, s);
    } else if r.pattern <= s {
      AbsorbOne(rules, q, r, more, s[|r.pattern|..]);
      AbsorbAtNewRule(rules, q, r, more, s);
    } else {
      AbsorbOne(rules, q, r, more, s[1..]);
      AbsorbElsewhere(rules, q, r, more, s);
    }
  }

  lemma OnlyIsWellShaped(order: seq<string>, rules: Rules)
    requires WellShaped(rules)
    ensures WellShaped(Only(order, rules))
  {
    var some := Only(order, rules);
    assert forall k <- some :: k in rules && some[k] == rules[k];
  }

  lemma OneMoreRule(before: seq<string>, q: string, rules: Rules)
    requires WellShaped(rules) && CrossFree(rules)
    requires q in rules && q !in before
    ensures AddsRule(Only(before, rules), q, rules[q], Only(before + [q], rules))
  {
    OnlyIsWellShaped(before, rules);
    OnlyIsWellShaped(before + [q], rules);
    var some := Only(before, rules);
    assert Only(before + [q], rules) == some[q := rules[q]];
    forall k | k in some ensures !Contains(rules[q].pattern, some[k].replacement) {
      assert k != q && some[k] == rules[k];
    }
  }

  lemma {:induction false} AnyOrderIsSimultaneous(order: seq<string>, rules: Rules, s: string)
    requires WellShaped(rules) && CrossFree(rules)
    requires Distinct(order) && Elements(order) <= rules.Keys
    ensures WellShaped(Only(order, rules))
    ensures ApplyInOrder(order, rules, s) == Simultaneous(Only(order, rules), s)
  {
    hide Simultaneous, WellShaped, CrossFree, AddsRule;
    OnlyIsWellShaped(order, rules);
    if order == [] {
      assert Only(order, rules) == map[];
      NoRules(s);
    } else {
      var n := |order| - 1;
      var before, q := order[..n], order[n];
      assert q in Elements(order) && Elements(before) <= Elements(order);
      OnlyIsWellShaped(before, rules);
      AnyOrderIsSimultaneous(before, rules, s);
      assert order == before + [q];
      OneMoreRule(before, q, rules);
      AbsorbOne(Only(before, rules), q, rules[q], Only(order, rules), s);
    }
  }

  lemma FullOrderIsSimultaneous(order: seq<string>, rules: Rules, s: string)
    requires WellShaped(rules) && CrossFree(rules) && IsOrderOf(order, rules)
    ensures ApplyInOrder(order, rules, s) == Simultaneous(rules, s)
  {
    AnyOrderIsSimultaneous(order, rules, s);
    forall k | k in rules ensures k in order {
      assert k in Elements(order);
    }
    assert Only(order, rules) == rules;
  }

  // ---- Nothing left over ----

  lemma NoPatternStartsInReplacement(rules: Rules, q: string, k: string, x: string, i: nat)
    requires WellShaped(rules) && q in rules && k in rules && i < |rules[k].replacement|
    ensures !(rules[q].pattern <= (rules[k].replacement + x)[i..])
  {
    assert (rules[k].replacement + x)[i..][0] == rules[k].replacement[i];
  }

  lemma HeadHoldsNoPattern(rules: Rules, q: string, s: string)
    requires WellShaped(rules) && SelfAndCrossFree(rules) && q in rules
    requires s == "" || forall k <- rules :: !(rules[k].pattern <= s)
    ensures !(rules[q].pattern <= Simultaneous(rules, s))
  {
    HeadWasThere(rules, rules[q].pattern, s);
  }

  lemma {:induction false} OutputHoldsNoPattern(rules: Rules, q: string, s: string, i: nat)
    requires WellShaped(rules) && SelfAndCrossFree(rules) && q in rules
    requires i <= |Simultaneous(rules, s)|
    ensures !(rules[q].pattern <= Simultaneous(rules, s)[i..])
    decreases |s|
  {
    hide WellShaped, SelfAndCrossFree, Contains;
    if s != "" && exists k :: k in rules && rules[k].pattern <= s {
      var k :| k in rules && rules[k].pattern <= s;
      SimultaneousAtPattern(rules, k, s);
      var a, rest := rules[k].replacement, s[|rules[k].pattern|..];
      if i < |a| {
        NoPatternStartsInReplacement(rules, q, k, Simultaneous(rules, rest), i);
      } else {
        DropConcat(a, Simultaneous(rules, rest), i);
        PatternNotEmpty(rules, k);
        OutputHoldsNoPattern(rules, q, rest, i - |a|);
      }
    } else if i == 0 {
      assert Simultaneous(rules, s)[0..] == Simultaneous(rules, s);
      HeadHoldsNoPattern(rules, q, s);
    } else {
      DropConcat([s[0]], Simultaneous(rules, s[1..]), i);
      OutputHoldsNoPattern(rules, q, s[1..], i - 1);
    }
  }

  lemma PatternNotEmpty(rules: Rules, k: string)
    requires WellShaped(rules) && k in rules
    ensures rules[k].pattern != ""
  {
  }

  lemma OutputIsClean(order: seq<string>, rules: Rules, s: string, k: string)
    requires WellShaped(rules) && SelfAndCrossFree(rules) && IsOrderOf(order, rules) && k in rules
    ensures !Contains(ApplyInOrder(order, rules, s), rules[k].pattern)
  {
    FullOrderIsSimultaneous(order, rules, s);
    forall i | 0 <= i <= |Simultaneous(rules, s)|
      ensures !(rules[k].pattern <= Simultaneous(rules, s)[i..])
    {
      OutputHoldsNoPattern(rules, k, s, i);
    }
  }

  lemma {:induction false} NothingLeftToApply(order: seq<string>, rules: Rules, s: string)
    requires WellShaped(rules) && Elements(order) <= rules.Keys
    requires forall k <- rules :: !Contains(s, rules[k].pattern)
    ensures ApplyInOrder(order, rules, s) == s
  {
    if order != [] {
      var before, k := order[..|order| - 1], order[|order| - 1];
      assert k in Elements(order) && Elements(before) <= Elements(order);
      NothingLeftToApply(before, rules, s);
      ReplaceAbsent(s, rules[k].pattern, rules[k].replacement);
    }
  }

  // ---- Where the conditions fail, a text shows it ----

  /** The text `x + p + z` built around an occurrence of the replacement of `p` in the word `w`:
      replacing `p` turns the text into `w`, and no other word occurs in it. */
  lemma WordAroundWord(w: string, p: string, a: string) returns (t: string)
    requires Delimited(w) && Delimited(p) && '$' !in a && '}' !in a && Contains(w, a)
    ensures ReplaceAll(t, p, a) == w
    ensures forall q | Delimited(q) && q != p :: !Contains(t, q)
  {
    var x, z := SplitInside(w, a);
    t := x + p + z;
    assert '$' !in z by {
      assert w[1..] == x[1..] + a + z;
    }
    forall q | Delimited(q) && q != p ensures !Contains(t, q) {
      OnlyWordAround(x, p, z, q);
    }
    ReplaceInside(x, p, z, a);
  }

  lemma ReplaceInside(x: string, p: string, z: string, a: string)
    requires x != "" && '}' !in x && '$' !in x[1..] && '$' !in z && Delimited(p)
    ensures ReplaceAll(x + p + z, p, a) == x + a + z
  {
    WordNotAtFront(x, p, z, p);
    var tail := p + z;
    assert (x + p + z)[1..] == x[1..] + tail;
    ReplacePassesThrough(x[1..], tail, p, a);
    assert tail[|p|..] == z;
    assert z + "" == z;
    ReplacePassesThrough(z, "", p, a);
    assert ReplaceAll(tail, p, a) == a + z;
    assert x == [x[0]] + x[1..];
    assert [x[0]] + (x[1..] + (a + z)) == x + a + z;
  }

  lemma SplitInside(w: string, a: string) returns (x: string, z: string)
    requires Delimited(w) && '$' !in a && '}' !in a && Contains(w, a)
    ensures w == x + a + z && x != "" && x[0] == '$'
    ensures '}' !in x && '$' !in x[1..]
  {
    if a == "" {
      x, z := w[..1], w[1..];
    } else {
      x, z := ContainsParts(w, a);
      assert w[|x|] == a[0] && a[0] in a;
      assert w[|x| + |a| - 1] == a[|a| - 1] && a[|a| - 1] in a;
    }
    assert x <= w[..|w| - 1];
    assert x[1..] <= w[1..];
  }

  /** A word does not start at the head of text that opens a second word before closing one. */
  lemma WordNotAtFront(x: string, p: string, z: string, q: string)
    requires x != "" && '}' !in x && Delimited(p) && Delimited(q)
    ensures !(q <= x + p + z)
  {
    var t := x + p + z;
    assert t[|x|] == '$';
    assert forall i | 0 <= i < |x| :: t[i] == x[i] != '}';
    assert forall i | 1 <= i < |q| :: q[i] == q[1..][i - 1] != '$';
  }

  lemma OnlyWordAround(x: string, p: string, z: string, q: string)
    requires x != "" && '}' !in x && '$' !in x[1..] && '$' !in z && Delimited(p) && Delimited(q) && q != p
    ensures !Contains(x + p + z, q)
  {
    var t := x + p + z;
    forall i | 0 <= i <= |t| ensures !(q <= t[i..]) {
      if i == 0 {
        assert t[0..] == t;
        WordNotAtFront(x, p, z, q);
      } else if i == |x| {
        assert t[i..] == p + z;
        if q <= p + z {
          OneWordPerPosition(p, q, p + z);
          assert false;
        }
      } else if i < |t| {
        assert t[1..] == x[1..] + p + z;
        assert t[i] != '$' by {
          if i < |x| {
            assert t[i] == x[1..][i - 1];
          } else if i < |x| + |p| {
            assert t[i] == p[1..][i - |x| - 1];
          } else {
            assert t[i] == z[i - |x| - |p|];
          }
        }
        assert t[i..][0] == t[i];
      }
    }
  }

  lemma {:induction false} SomeOrder(keys: set<string>) returns (order: seq<string>)
    ensures Distinct(order) && Elements(order) == keys
  {
    if keys == {} {
      order := [];
    } else {
      var k :| k in keys;
      var rest := SomeOrder(keys - {k});
      assert forall l <- rest :: l in Elements(rest);
      order := rest + [k];
      assert Elements(order) == Elements(rest) + {k};
    }
  }

  lemma ApplyLast(before: seq<string>, k: string, rules: Rules, s: string)
    requires WellShaped(rules) && Elements(before) <= rules.Keys && k in rules
    ensures Elements(before + [k]) == Elements(before) + {k}
    ensures ApplyInOrder(before + [k], rules, s)
         == ReplaceAll(ApplyInOrder(before, rules, s), rules[k].pattern, rules[k].replacement)
  {
    assert (before + [k])[..|before|] == before;
    assert Elements(before + [k]) == Elements(before) + {k};
  }

  /** Rules whose patterns do not occur in the text leave it alone. */
  lemma {:induction false} OtherRulesDoNothing(order: seq<string>, rules: Rules, s: string)
    requires WellShaped(rules) && Elements(order) <= rules.Keys
    requires forall k <- order :: k in rules && !Contains(s, rules[k].pattern)
    ensures ApplyInOrder(order, rules, s) == s
  {
    if order != [] {
      var before, k := order[..|order| - 1], order[|order| - 1];
      assert k in Elements(order) && Elements(before) <= Elements(order);
      OtherRulesDoNothing(before, rules, s);
      ReplaceAbsent(s, rules[k].pattern, rules[k].replacement);
    }
  }

  lemma WordHoldsOnlyItself(w: string, q: string)
    requires Delimited(w) && Delimited(q) && q != w
    ensures !Contains(w, q)
  {
    forall i | 0 <= i <= |w| ensures !(q <= w[i..]) {
      if i == 0 {
        assert w[0..] == w;
        if q <= w {
          OneWordPerPosition(q, w, w);
          assert false;
        }
      } else if i < |w| {
        assert w[i..][0] == w[1..][i - 1];
      }
    }
  }

  lemma ReplaceWord(w: string, a: string)
    requires Delimited(w)
    ensures ReplaceAll(w, w, a) == a
  {
    assert w[|w|..] == "";
    assert a + "" == a;
  }

  /** An order of all the rules but those of `last`, to be run before them. */
  lemma OrderOfOthers(rules: Rules, last: seq<string>) returns (rest: seq<string>)
    requires Distinct(last) && Elements(last) <= rules.Keys
    ensures IsOrderOf(rest + last, rules)
    ensures Elements(rest) == rules.Keys - Elements(last)
  {
    rest := SomeOrder(rules.Keys - Elements(last));
    forall k | k in rest ensures k !in last {
      assert k in Elements(rest);
      assert k !in Elements(last);
    }
    var order := rest + last;
    forall i, j | 0 <= i < j < |order| ensures order[i] != order[j] {
      if i < |rest| <= j {
        assert order[i] in rest && order[j] in last;
      }
    }
    assert Elements(order) == Elements(rest) + Elements(last);
  }

  /** Rules other than `k`, run first, leave a text alone that holds no word but the pattern of `k`. */
  lemma OthersFirst(rest: seq<string>, k: string, rules: Rules, s: string)
    requires WellShaped(rules) && k in rules
    requires Elements(rest) <= rules.Keys - {k}
    requires forall q | Delimited(q) && q != rules[k].pattern :: !Contains(s, q)
    ensures ApplyInOrder(rest, rules, s) == s
  {
    forall m | m in rest ensures m in rules && !Contains(s, rules[m].pattern) {
      assert m in Elements(rest);
    }
    OtherRulesDoNothing(rest, rules, s);
  }

  /** When `rules[k]` inserts a piece of the pattern of another rule `l`, applying `k` before or
      after `l` gives different results. */
  lemma CrossingShows(rules: Rules, k: string, l: string)
    returns (s: string, rest: seq<string>)
    requires WellShaped(rules) && k in rules && l in rules && k != l
    requires Contains(rules[l].pattern, rules[k].replacement)
    ensures IsOrderOf(rest + [k, l], rules) && IsOrderOf(rest + [l, k], rules)
    ensures ApplyInOrder(rest + [k, l], rules, s) == rules[l].replacement
    ensures ApplyInOrder(rest + [l, k], rules, s) == rules[l].pattern
  {
    s := WordAroundWord(rules[l].pattern, rules[k].pattern, rules[k].replacement);
    assert Elements([k, l]) == Elements([l, k]) == {k, l};
    rest := OrderOfOthers(rules, [k, l]);
    assert Elements(rest + [l, k]) == Elements(rest + [k, l]);
    assert Distinct(rest + [l, k]) by {
      forall i | 0 <= i < |rest| ensures rest[i] != k && rest[i] != l {
        assert rest[i] in Elements(rest);
      }
      assert Distinct(rest) by {
        assert forall i | 0 <= i < |rest| :: (rest + [k, l])[i] == rest[i];
      }
    }
    OthersFirst(rest, k, rules, s);
    ApplyBothWays(rest, k, l, rules, s);
  }

  lemma ApplyBothWays(rest: seq<string>, k: string, l: string, rules: Rules, s: string)
    requires WellShaped(rules) && k in rules && l in rules && Elements(rest) <= rules.Keys
    requires ApplyInOrder(rest, rules, s) == s
    requires ReplaceAll(s, rules[k].pattern, rules[k].replacement) == rules[l].pattern
    requires !Contains(s, rules[l].pattern)
    ensures Elements(rest + [k, l]) <= rules.Keys && Elements(rest + [l, k]) <= rules.Keys
    ensures ApplyInOrder(rest + [k, l], rules, s) == rules[l].replacement
    ensures ApplyInOrder(rest + [l, k], rules, s) == rules[l].pattern
  {
    ApplyTwo(rest, k, l, rules, s);
    ReplaceWord(rules[l].pattern, rules[l].replacement);
    ApplyTwo(rest, l, k, rules, s);
    ReplaceAbsent(s, rules[l].pattern, rules[l].replacement);
  }

  lemma ApplyTwo(rest: seq<string>, k: string, l: string, rules: Rules, s: string)
    requires WellShaped(rules) && k in rules && l in rules && Elements(rest) <= rules.Keys
    requires ApplyInOrder(rest, rules, s) == s
    ensures Elements(rest + [k, l]) <= rules.Keys
    ensures ApplyInOrder(rest + [k, l], rules, s) ==
      ReplaceAll(ReplaceAll(s, rules[k].pattern, rules[k].replacement), rules[l].pattern, rules[l].replacement)
  {
    ApplyLast(rest, k, rules, s);
    ApplyLast(rest + [k], l, rules, s);
    assert rest + [k, l] == rest + [k] + [l];
  }

  /** When `rules[k]` inserts a piece of the pattern of `l`, some order outputs that pattern. */
  lemma InsertionShows(rules: Rules, k: string, l: string) returns (s: string, order: seq<string>)
    requires WellShaped(rules) && k in rules && l in rules
    requires Contains(rules[l].pattern, rules[k].replacement)
    ensures IsOrderOf(order, rules) && ApplyInOrder(order, rules, s) == rules[l].pattern
  {
    if k == l {
      s := WordAroundWord(rules[k].pattern, rules[k].pattern, rules[k].replacement);
      assert Elements([k]) == {k};
      var rest := OrderOfOthers(rules, [k]);
      OthersFirst(rest, k, rules, s);
      ApplyLast(rest, k, rules, s);
      order := rest + [k];
    } else {
      var rest;
      s, rest := CrossingShows(rules, k, l);
      order := rest + [l, k];
    }
  }

  /** A pass over a pattern replaces it, in a suitable order. */
  lemma PatternGoesAway(rules: Rules, l: string) returns (order: seq<string>)
    requires WellShaped(rules) && l in rules
    ensures IsOrderOf(order, rules)
    ensures ApplyInOrder(order, rules, rules[l].pattern) == rules[l].replacement
  {
    var w := rules[l].pattern;
    assert Elements([l]) == {l};
    var rest := OrderOfOthers(rules, [l]);
    forall q | Delimited(q) && q != w ensures !Contains(w, q) {
      WordHoldsOnlyItself(w, q);
    }
    OthersFirst(rest, l, rules, w);
    ApplyLast(rest, l, rules, w);
    ReplaceWord(w, rules[l].replacement);
    order := rest + [l];
  }
}
