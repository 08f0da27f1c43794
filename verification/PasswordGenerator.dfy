/** Passwords drawn for an inline policy: api/v1alpha1/randomsecret_types.go. */
module PasswordGenerator {
  import opened Basics

  datatype Rule = Rule(kind: string, charset: Bytes, minChars: int)

  datatype Policy = Policy(length: int, rules: seq<Rule>)

  /** The n-th random number of the k-th attempt; reduced to a range where it is used. */
  type Rng = (nat, nat) -> nat

  function Chars(rule: Rule): set<byte> {
    set b <- rule.charset
  }

  function CharsetRules(rules: seq<Rule>): seq<Rule> {
    if rules == [] then [] else (if rules[0].kind == "charset" then [rules[0]] else []) + CharsetRules(rules[1..])
  }

  /** The rules of kind "charset", in order, and no others. */
  lemma {:induction false} CharsetRulesIff(rules: seq<Rule>, r: Rule)
    ensures r in CharsetRules(rules) <==> r in rules && r.kind == "charset"
  {
    if rules != [] {
      CharsetRulesIff(rules[1..], r);
      assert rules == [rules[0]] + rules[1..];
    }
  }

  function AllChars(rules: seq<Rule>): set<byte> {
    set i, b | 0 <= i < |rules| && b in rules[i].charset :: b
  }

  /** A set is listed in any order. */
  predicate Lists(letters: seq<byte>, s: set<byte>) {
    (forall i, j | 0 <= i < j < |letters| :: letters[i] != letters[j]) && (set b <- letters) == s
  }

  // ---- Counting at rune starts ----

  predicate Within(s: Bytes, i: nat, low: byte, high: byte) {
    i < |s| && low <= s[i] <= high
  }

  predicate Continuation(s: Bytes, i: nat) {
    Within(s, i, 0x80, 0xBF)
  }

  /** How many bytes a range loop over a string advances at position i: the length of the UTF-8
      encoding found there, or 1 if there is none (RFC 3629, section 4). */
  function Width(s: Bytes, i: nat): (w: nat)
    requires i < |s|
    ensures 1 <= w <= 4 && i + w <= |s|
    ensures s[i] < 0x80 ==> w == 1
  {
    if 0xC2 <= s[i] <= 0xDF && Continuation(s, i + 1) then 2
    else if (if s[i] == 0xE0 then Within(s, i + 1, 0xA0, 0xBF)
             else if s[i] == 0xED then Within(s, i + 1, 0x80, 0x9F)
             else 0xE1 <= s[i] <= 0xEF && Continuation(s, i + 1)) && Continuation(s, i + 2) then 3
    else if (if s[i] == 0xF0 then Within(s, i + 1, 0x90, 0xBF)
             else if s[i] == 0xF4 then Within(s, i + 1, 0x80, 0x8F)
             else 0xF1 <= s[i] <= 0xF3 && Continuation(s, i + 1))
            && Continuation(s, i + 2) && Continuation(s, i + 3) then 4
    else 1
  }

  /** The Unicode scalar values. */
  predicate Scalar(c: int) {
    0 <= c < 0xD800 || 0xE000 <= c <= 0x10FFFF
  }

  /** The UTF-8 encoding of a scalar value. */
  function Utf8(c: int): (s: Bytes)
    requires Scalar(c)
    ensures 1 <= |s| <= 4
  {
    if c < 0x80 then [c as byte]
    else if c < 0x800 then [(0xC0 + c / 0x40) as byte, (0x80 + c % 0x40) as byte]
    else if c < 0x1_0000 then
      [(0xE0 + c / 0x1000) as byte, (0x80 + c / 0x40 % 0x40) as byte, (0x80 + c % 0x40) as byte]
    else
      [(0xF0 + c / 0x4_0000) as byte, (0x80 + c / 0x1000 % 0x40) as byte,
       (0x80 + c / 0x40 % 0x40) as byte, (0x80 + c % 0x40) as byte]
  }

  /** A range loop advances by the length of the encoding found. */
  lemma WidthOfEncoding(c: int, s: Bytes, i: nat)
    requires Scalar(c) && i <= |s| && Utf8(c) <= s[i..]
    ensures i < |s| && Width(s, i) == |Utf8(c)|
  {
    var e := Utf8(c);
    assert forall j | 0 <= j < |e| :: s[i + j] == s[i..][j] == e[j];
    assert s[i] == e[0];
    if |e| > 1 {
      assert s[i + 1] == e[1];
    }
    if |e| > 2 {
      assert s[i + 2] == e[2];
    }
    if |e| > 3 {
      assert s[i + 3] == e[3];
    }
  }

  /** The six low bits of a continuation byte. */
  function Low(s: Bytes, i: nat): int
    requires i < |s|
  {
    s[i] as int - 0x80
  }

  /** The scalar value that the bytes at i encode, if the range loop advances by more than one. */
  function Decoded(s: Bytes, i: nat): int
    requires i < |s| && Width(s, i) > 1
  {
    var w := Width(s, i);
    if w == 2 then
      (s[i] as int - 0xC0) * 0x40 + Low(s, i + 1)
    else if w == 3 then
      (s[i] as int - 0xE0) * 0x1000 + Low(s, i + 1) * 0x40 + Low(s, i + 2)
    else
      (s[i] as int - 0xF0) * 0x4_0000 + Low(s, i + 1) * 0x1000 + Low(s, i + 2) * 0x40 + Low(s, i + 3)
  }

  /** And it advances by more than one only over an encoding. */
  lemma WideIsEncoding(s: Bytes, i: nat)
    requires i < |s| && Width(s, i) > 1
    ensures Scalar(Decoded(s, i)) && Utf8(Decoded(s, i)) == s[i..i + Width(s, i)]
  {
    var w := Width(s, i);
    if w == 2 {
      WideIsEncoding2(s, i);
    } else if w == 3 {
      WideIsEncoding3(s, i);
    } else {
      WideIsEncoding4(s, i);
    }
  }

  lemma Digits2(a: nat, b: nat)
    requires b < 0x40
    ensures (a * 0x40 + b) / 0x40 == a && (a * 0x40 + b) % 0x40 == b
  {
  }

  lemma WideIsEncoding2(s: Bytes, i: nat)
    requires i < |s| && Width(s, i) == 2
    ensures Scalar(Decoded(s, i)) && Utf8(Decoded(s, i)) == s[i..i + 2]
  {
    Digits2(s[i] as int - 0xC0, s[i + 1] as int - 0x80);
  }

  lemma WideIsEncoding3(s: Bytes, i: nat)
    requires i < |s| && Width(s, i) == 3
    ensures Scalar(Decoded(s, i)) && Utf8(Decoded(s, i)) == s[i..i + 3]
  {
    var a, b, c := s[i] as int - 0xE0, s[i + 1] as int - 0x80, s[i + 2] as int - 0x80;
    Digits2(a * 0x40 + b, c);
    Digits2(a, b);
    assert Decoded(s, i) / 0x1000 == a;
  }

  lemma WideIsEncoding4(s: Bytes, i: nat)
    requires i < |s| && Width(s, i) == 4
    ensures Scalar(Decoded(s, i)) && Utf8(Decoded(s, i)) == s[i..i + 4]
  {
    var a, b, c, d := s[i] as int - 0xF0, s[i + 1] as int - 0x80, s[i + 2] as int - 0x80, s[i + 3] as int - 0x80;
    Digits2((a * 0x40 + b) * 0x40 + c, d);
    Digits2(a * 0x40 + b, c);
    Digits2(a, b);
    assert Decoded(s, i) / 0x1000 == a * 0x40 + b && Decoded(s, i) / 0x4_0000 == a;
  }

  function Bit(b: bool): nat {
    if b then 1 else 0
  }

  /** The rune starts from position i on that hold a byte of the set. */
  function Count(s: Bytes, chars: set<byte>, i: nat): nat
    requires i <= |s|
    decreases |s| - i
  {
    if i == |s| then 0 else Bit(s[i] in chars) + Count(s, chars, i + Width(s, i))
  }

  /** The positions that hold a byte of the set. */
  function Occurrences(s: Bytes, chars: set<byte>): (n: nat)
    ensures n <= |s|
  {
    if s == [] then 0 else Bit(s[0] in chars) + Occurrences(s[1..], chars)
  }

  lemma {:induction false} OccurrencesConcat(a: Bytes, b: Bytes, chars: set<byte>)
    ensures Occurrences(a + b, chars) == Occurrences(a, chars) + Occurrences(b, chars)
  {
    if a == [] {
      assert a + b == b;
    } else {
      OccurrencesConcat(a[1..], b, chars);
      assert (a + b)[1..] == a[1..] + b;
    }
  }

  /** The bytes of the set that a range loop from position i on steps over. */
  function SkippedHits(s: Bytes, chars: set<byte>, i: nat): nat
    requires i <= |s|
    decreases |s| - i
  {
    if i == |s| then 0
    else
      var w := Width(s, i);
      Occurrences(s[i + 1..i + w], chars) + SkippedHits(s, chars, i + w)
  }

  /** Counting at rune starts misses exactly the bytes of the set that are stepped over. */
  lemma {:induction false} CountVersusOccurrences(s: Bytes, chars: set<byte>, i: nat)
    requires i <= |s|
    ensures Occurrences(s[i..], chars) == Count(s, chars, i) + SkippedHits(s, chars, i)
    decreases |s| - i
  {
    if i < |s| {
      var w := Width(s, i);
      CountVersusOccurrences(s, chars, i + w);
      OccurrencesConcat(s[i + 1..i + w], s[i + w..], chars);
      assert s[i + 1..i + w] + s[i + w..] == s[i + 1..];
      assert s[i..][0] == s[i] && s[i..][1..] == s[i + 1..];
    }
  }

  /** A range loop that stands at position i gets to position j. */
  predicate Visits(s: Bytes, i: nat, j: nat)
    requires i <= |s|
    decreases |s| - i
  {
    i < |s| && (i == j || Visits(s, i + Width(s, i), j))
  }

  lemma {:induction false} VisitsNothingBefore(s: Bytes, i: nat, j: nat)
    requires i <= |s| && j < i
    ensures !Visits(s, i, j)
    decreases |s| - i
  {
    if i < |s| {
      VisitsNothingBefore(s, i + Width(s, i), j);
    }
  }

  lemma {:induction false} OccursIff(s: Bytes, chars: set<byte>)
    ensures Occurrences(s, chars) > 0 <==> exists b <- s :: b in chars
  {
    if s != [] {
      OccursIff(s[1..], chars);
      assert s == [s[0]] + s[1..];
    }
  }

  /** No byte of the set is stepped over from position i on. */
  predicate NoneSkipped(s: Bytes, chars: set<byte>, i: nat)
    requires i <= |s|
  {
    forall j | i <= j < |s| :: Visits(s, i, j) || s[j] !in chars
  }

  lemma NoneSkippedStep(s: Bytes, chars: set<byte>, i: nat)
    requires i < |s|
    ensures var w := Width(s, i);
      NoneSkipped(s, chars, i) <==> (forall b <- s[i + 1..i + w] :: b !in chars) && NoneSkipped(s, chars, i + w)
  {
    var w := Width(s, i);
    forall j | i < j < i + w
      ensures !Visits(s, i, j) && s[j] in s[i + 1..i + w]
    {
      VisitsNothingBefore(s, i + w, j);
      assert s[i + 1..i + w][j - i - 1] == s[j];
    }
    assert forall j | i + w <= j < |s| :: Visits(s, i, j) == Visits(s, i + w, j);
  }

  lemma {:induction false} NothingSkippedIff(s: Bytes, chars: set<byte>, i: nat)
    requires i <= |s|
    ensures SkippedHits(s, chars, i) == 0 <==> NoneSkipped(s, chars, i)
    decreases |s| - i
  {
    if i < |s| {
      NothingSkippedIff(s, chars, i + Width(s, i));
      NoneSkippedStep(s, chars, i);
      OccursIff(s[i + 1..i + Width(s, i)], chars);
    }
  }

  /** The count is exact if and only if every byte of the set stands where a rune starts, as on ASCII. */
  lemma CountIsExactIff(s: Bytes, chars: set<byte>)
    ensures Count(s, chars, 0) <= Occurrences(s, chars)
    ensures Count(s, chars, 0) == Occurrences(s, chars) <==> NoneSkipped(s, chars, 0)
    ensures (forall b <- s :: b < 0x80) ==> Count(s, chars, 0) == Occurrences(s, chars)
  {
    CountVersusOccurrences(s, chars, 0);
    assert s[0..] == s;
    NothingSkippedIff(s, chars, 0);
    if forall b <- s :: b < 0x80 {
      assert forall j | 0 <= j < |s| :: s[j] in s;
      NarrowSkipsNothing(s, chars, 0);
    }
  }

  predicate Meets(s: Bytes, rule: Rule) {
    Count(s, Chars(rule), 0) >= rule.minChars
  }

  predicate Complies(s: Bytes, rules: seq<Rule>) {
    forall i | 0 <= i < |rules| :: Meets(s, rules[i])
  }

  // ---- Drawing ----

  /** Go's runtime refuses a negative length, and a draw from no letters. */
  predicate Panics(length: int, letters: seq<byte>) {
    length < 0 || (length > 0 && letters == [])
  }

  function Draw(length: int, letters: seq<byte>, rng: Rng, attempt: nat): (s: Bytes)
    requires !Panics(length, letters)
    ensures |s| == length && forall b <- s :: b in letters
  {
    seq(length, i requires 0 <= i < length => letters[rng(attempt, i) % |letters|])
  }

  datatype Outcome = Panicked | Returned(valid: bool, secret: Bytes)

  datatype Loop = Crashed | Ended(valid: bool, randomString: Bytes)

  /** The loop over the attempts from a given one on. The flag `valid` is never set again once it is cleared. */
  function Attempts(policy: Policy, attempts: int, letters: seq<byte>, rng: Rng,
                    attempt: nat, valid: bool, last: Bytes): Loop
    decreases attempts - attempt
  {
    if attempt >= attempts then Ended(valid, last)
    else if Panics(policy.length, letters) then Crashed
    else
      var randomString := Draw(policy.length, letters, rng, attempt);
      var valid' := valid && Complies(randomString, CharsetRules(policy.rules));
      if valid' then Ended(true, randomString)
      else Attempts(policy, attempts, letters, rng, attempt + 1, valid', randomString)
  }

  /** What the loop over all the attempts leads to. */
  function Concluded(policy: Policy, attempts: int, letters: seq<byte>, rng: Rng, stored: Bytes): Outcome {
    match Attempts(policy, attempts, letters, rng, 0, true, [])
    case Crashed => Panicked
    case Ended(valid, randomString) => Returned(valid, if valid then randomString else stored)
  }

  /** The outcome by the first draw alone; without any attempt the empty string succeeds. */
  function Calculated(policy: Policy, attempts: int, letters: seq<byte>, rng: Rng, stored: Bytes): Outcome {
    if attempts <= 0 then Returned(true, [])
    else if Panics(policy.length, letters) then Panicked
    else
      var s := Draw(policy.length, letters, rng, 0);
      if Complies(s, CharsetRules(policy.rules)) then Returned(true, s) else Returned(false, stored)
  }

  lemma {:induction false} ClearedStaysCleared(policy: Policy, attempts: int, letters: seq<byte>, rng: Rng,
                                               attempt: nat, last: Bytes)
    requires !Panics(policy.length, letters)
    ensures var l := Attempts(policy, attempts, letters, rng, attempt, false, last); l.Ended? && !l.valid
    decreases attempts - attempt
  {
    if attempt < attempts {
      ClearedStaysCleared(policy, attempts, letters, rng, attempt + 1, Draw(policy.length, letters, rng, attempt));
    }
  }

  /** Only the first draw can succeed. */
  lemma OnlyTheFirstDrawCounts(policy: Policy, attempts: int, letters: seq<byte>, rng: Rng, stored: Bytes)
    ensures Concluded(policy, attempts, letters, rng, stored) == Calculated(policy, attempts, letters, rng, stored)
  {
    if attempts > 0 && !Panics(policy.length, letters) {
      ClearedStaysCleared(policy, attempts, letters, rng, 1, Draw(policy.length, letters, rng, 0));
    }
  }

  /** A password that is accepted has the length of the policy, only letters of its charset rules, and
      at least as many of each rule as that demands; a rejected one leaves the stored secret alone. */
  lemma AcceptedIsSound(policy: Policy, attempts: int, letters: seq<byte>, rng: Rng, stored: Bytes)
    requires attempts > 0 && Lists(letters, AllChars(CharsetRules(policy.rules)))
    ensures var o := Calculated(policy, attempts, letters, rng, stored);
      && (o.Returned? && !o.valid ==> o.secret == stored)
      && (o.Returned? && o.valid ==> |o.secret| == policy.length)
      && (o.Returned? && o.valid ==>
            forall b <- o.secret :: exists r <- policy.rules :: r.kind == "charset" && b in r.charset)
      && (o.Returned? && o.valid ==>
            forall r <- policy.rules | r.kind == "charset" :: Occurrences(o.secret, Chars(r)) >= r.minChars)
  {
    var o, rules := Calculated(policy, attempts, letters, rng, stored), CharsetRules(policy.rules);
    if o.Returned? && o.valid {
      forall r | r in policy.rules && r.kind == "charset"
        ensures Occurrences(o.secret, Chars(r)) >= r.minChars
      {
        CharsetRulesIff(policy.rules, r);
        var i :| 0 <= i < |rules| && rules[i] == r;
        assert Meets(o.secret, rules[i]);
        CountIsExactIff(o.secret, Chars(r));
      }
      forall b | b in o.secret
        ensures exists r <- policy.rules :: r.kind == "charset" && b in r.charset
      {
        assert b in (set l <- letters);
        assert b in AllChars(rules);
        var i :| 0 <= i < |rules| && b in rules[i].charset;
        CharsetRulesIff(policy.rules, rules[i]);
      }
    }
  }

  /** The number of attempts makes no difference, as long as there is one. */
  lemma RetryingIsUseless(policy: Policy, n: int, m: int, letters: seq<byte>, rng: Rng, other: Rng, stored: Bytes)
    requires n > 0 && m > 0
    requires forall i | 0 <= i < policy.length :: rng(0, i) == other(0, i)
    ensures Concluded(policy, n, letters, rng, stored) == Concluded(policy, m, letters, other, stored)
  {
    OnlyTheFirstDrawCounts(policy, n, letters, rng, stored);
    OnlyTheFirstDrawCounts(policy, m, letters, other, stored);
    if !Panics(policy.length, letters) {
      assert Draw(policy.length, letters, rng, 0) == Draw(policy.length, letters, other, 0);
    }
  }

  /** The password has what every rule demands, counted byte by byte. */
  predicate TrulyComplies(s: Bytes, rules: seq<Rule>) {
    forall i | 0 <= i < |rules| :: Suffices(s, rules[i])
  }

  predicate Suffices(s: Bytes, rule: Rule) {
    Occurrences(s, Chars(rule)) >= rule.minChars
  }

  /** What is stepped over uses up more than the rule has to spare. */
  predicate Undercounted(s: Bytes, rule: Rule) {
    Occurrences(s, Chars(rule)) - rule.minChars < SkippedHits(s, Chars(rule), 0)
  }

  /** A draw that truly complies is rejected exactly if some rule is undercounted. */
  lemma RejectedThoughCompliantIff(policy: Policy, attempts: int, letters: seq<byte>, rng: Rng, stored: Bytes)
    requires attempts > 0 && !Panics(policy.length, letters)
    requires TrulyComplies(Draw(policy.length, letters, rng, 0), CharsetRules(policy.rules))
    ensures var s := Draw(policy.length, letters, rng, 0);
      Calculated(policy, attempts, letters, rng, stored) ==
        if exists r <- CharsetRules(policy.rules) :: Undercounted(s, r) then Returned(false, stored)
        else Returned(true, s)
  {
    var s, rules := Draw(policy.length, letters, rng, 0), CharsetRules(policy.rules);
    forall i | 0 <= i < |rules|
      ensures Meets(s, rules[i]) <==> !Undercounted(s, rules[i])
    {
      CountVersusOccurrences(s, Chars(rules[i]), 0);
      assert s[0..] == s;
    }
  }

  /** There are such draws: this one holds two bytes of its charset and is rejected for holding one. */
  lemma NonAsciiIsUndercounted(rng: Rng, stored: Bytes)
    requires rng(0, 0) == 0 && rng(0, 1) == 1
    ensures var rule := Rule("charset", [0xC3, 0xA9], 2);
      && Occurrences([0xC3, 0xA9], Chars(rule)) == 2
      && Draw(2, [0xC3, 0xA9], rng, 0) == [0xC3, 0xA9]
      && Calculated(Policy(2, [rule]), 10000, [0xC3, 0xA9], rng, stored) == Returned(false, stored)
  {
    var rule, s: Bytes := Rule("charset", [0xC3, 0xA9], 2), [0xC3, 0xA9];
    assert Draw(2, s, rng, 0) == s;
    assert s[1..] == [0xA9] && s[1..][1..] == [];
    assert CharsetRules([rule]) == [rule] by {
      assert [rule][1..] == [];
    }
    assert Width(s, 0) == 2 && Count(s, Chars(rule), 2) == 0;
    assert !Meets(s, [rule][0]);
  }

  // ---- Feasibility ----

  predicate Disjoint(rules: seq<Rule>) {
    forall i, j | 0 <= i < j < |rules| :: Chars(rules[i]) !! Chars(rules[j])
  }

  function Demand(rule: Rule): nat {
    if rule.minChars > 0 then rule.minChars else 0
  }

  function TotalDemand(rules: seq<Rule>): nat {
    if rules == [] then 0 else Demand(rules[0]) + TotalDemand(rules[1..])
  }

  function TotalCount(s: Bytes, rules: seq<Rule>, i: nat): nat
    requires i <= |s|
  {
    if rules == [] then 0 else Count(s, Chars(rules[0]), i) + TotalCount(s, rules[1..], i)
  }

  function Hits(b: byte, rules: seq<Rule>): nat {
    if rules == [] then 0 else Bit(b in Chars(rules[0])) + Hits(b, rules[1..])
  }

  lemma {:induction false} AtMostOneHit(b: byte, rules: seq<Rule>)
    requires Disjoint(rules)
    ensures Hits(b, rules) <= 1
    ensures (forall r <- rules :: b !in Chars(r)) ==> Hits(b, rules) == 0
  {
    if rules != [] {
      assert forall r <- rules[1..] :: r in rules;
      assert Disjoint(rules[1..]) by {
        forall i, j | 0 <= i < j < |rules[1..]|
          ensures Chars(rules[1..][i]) !! Chars(rules[1..][j])
        {
          assert Chars(rules[i + 1]) !! Chars(rules[j + 1]);
        }
      }
      AtMostOneHit(b, rules[1..]);
      if b in Chars(rules[0]) {
        forall r | r in rules[1..]
          ensures b !in Chars(r)
        {
          var j :| 0 <= j < |rules[1..]| && rules[1..][j] == r;
          assert Chars(rules[0]) !! Chars(rules[j + 1]);
        }
      }
    }
  }

  lemma {:induction false} TotalCountStep(s: Bytes, rules: seq<Rule>, i: nat)
    requires i < |s|
    ensures TotalCount(s, rules, i) == Hits(s[i], rules) + TotalCount(s, rules, i + Width(s, i))
  {
    if rules != [] {
      TotalCountStep(s, rules[1..], i);
    }
  }

  lemma {:induction false} TotalCountFits(s: Bytes, rules: seq<Rule>, i: nat)
    requires Disjoint(rules) && i <= |s|
    ensures TotalCount(s, rules, i) <= |s| - i
    decreases |s| - i
  {
    if i < |s| {
      TotalCountStep(s, rules, i);
      AtMostOneHit(s[i], rules);
      TotalCountFits(s, rules, i + Width(s, i));
    } else {
      NothingLeft(s, rules);
    }
  }

  lemma {:induction false} NothingLeft(s: Bytes, rules: seq<Rule>)
    ensures TotalCount(s, rules, |s|) == 0
  {
    if rules != [] {
      NothingLeft(s, rules[1..]);
    }
  }

  lemma {:induction false} ComplianceMeetsDemand(s: Bytes, rules: seq<Rule>)
    requires Complies(s, rules)
    ensures TotalDemand(rules) <= TotalCount(s, rules, 0)
  {
    if rules != [] {
      assert Meets(s, rules[0]);
      forall i | 0 <= i < |rules[1..]|
        ensures Meets(s, rules[1..][i])
      {
        assert Meets(s, rules[i + 1]);
      }
      ComplianceMeetsDemand(s, rules[1..]);
    }
  }

  /** With pairwise disjoint charsets, a policy that demands more characters than it has room for is
      never met. */
  lemma InfeasibleAlwaysFails(policy: Policy, attempts: int, letters: seq<byte>, rng: Rng, stored: Bytes)
    requires attempts > 0 && Disjoint(CharsetRules(policy.rules))
    requires TotalDemand(CharsetRules(policy.rules)) > policy.length
    ensures var o := Calculated(policy, attempts, letters, rng, stored); o == Panicked || o == Returned(false, stored)
  {
    if !Panics(policy.length, letters) {
      var s, rules := Draw(policy.length, letters, rng, 0), CharsetRules(policy.rules);
      if Complies(s, rules) {
        ComplianceMeetsDemand(s, rules);
        TotalCountFits(s, rules, 0);
      }
    }
  }

  // ---- Feasible policies can succeed ----

  predicate Supplied(rules: seq<Rule>) {
    forall r <- rules :: r.minChars > 0 ==> r.charset != []
  }

  /** As many characters of each rule as it demands. */
  function Exemplar(rules: seq<Rule>): (s: Bytes)
    requires Supplied(rules)
    ensures |s| == TotalDemand(rules)
  {
    if rules == [] then [] else
      assert rules[0] in rules;
      seq(Demand(rules[0]), _ => if rules[0].charset == [] then 0 else rules[0].charset[0]) + Exemplar(rules[1..])
  }

  lemma {:induction false} AllOccur(s: Bytes, chars: set<byte>)
    requires forall b <- s :: b in chars
    ensures Occurrences(s, chars) == |s|
  {
    if s != [] {
      AllOccur(s[1..], chars);
    }
  }

  lemma {:induction false} ExemplarSuffices(rules: seq<Rule>, i: nat)
    requires Supplied(rules) && i < |rules|
    ensures Occurrences(Exemplar(rules), Chars(rules[i])) >= rules[i].minChars
    ensures forall b <- Exemplar(rules) :: b in AllChars(rules)
  {
    assert rules[0] in rules;
    var head := seq(Demand(rules[0]), _ => if rules[0].charset == [] then 0 else rules[0].charset[0]);
    assert Exemplar(rules) == head + Exemplar(rules[1..]);
    OccurrencesConcat(head, Exemplar(rules[1..]), Chars(rules[i]));
    if i == 0 {
      AllOccur(head, Chars(rules[0]));
    } else {
      ExemplarSuffices(rules[1..], i - 1);
    }
    ExemplarInChars(rules);
  }

  lemma {:induction false} ExemplarInChars(rules: seq<Rule>)
    requires Supplied(rules)
    ensures forall b <- Exemplar(rules) :: b in AllChars(rules)
  {
    if rules != [] {
      assert rules[0] in rules;
      ExemplarInChars(rules[1..]);
      forall b | b in Exemplar(rules)
        ensures b in AllChars(rules)
      {
        if b in Exemplar(rules[1..]) {
          var j :| 0 <= j < |rules[1..]| && b in rules[1..][j].charset;
          assert b in rules[j + 1].charset;
        } else {
          assert b in rules[0].charset;
        }
      }
    }
  }

  /** The random numbers that draw a given string. */
  function Steering(letters: seq<byte>, s: Bytes): (rng: Rng)
    requires forall b <- s :: b in letters
  {
    (_: nat, i: nat) => if i < |s| then Position(letters, s[i]) else 0
  }

  function Position(letters: seq<byte>, b: byte): (n: nat)
    ensures b in letters ==> n < |letters| && letters[n] == b
  {
    if letters == [] || letters[0] == b then 0 else 1 + Position(letters[1..], b)
  }

  lemma SmallModulus(n: nat, m: nat)
    requires n < m
    ensures n % m == n
  {
  }

  lemma SteeringDraws(letters: seq<byte>, s: Bytes)
    requires forall b <- s :: b in letters
    ensures !Panics(|s|, letters) && Draw(|s|, letters, Steering(letters, s), 0) == s
  {
    if s != [] {
      assert s[0] in letters;
    }
    var rng := Steering(letters, s);
    forall i | 0 <= i < |s|
      ensures letters[rng(0, i) % |letters|] == s[i]
    {
      assert s[i] in letters;
      SmallModulus(Position(letters, s[i]), |letters|);
    }
  }

  // Lead bytes that no continuation byte follows are runes of their own, and so are continuation
  // bytes that no lead byte precedes.

  predicate IsContinuation(b: byte) {
    0x80 <= b <= 0xBF
  }

  function Pick(s: Bytes, continuations: bool): (r: Bytes)
    ensures forall b <- r :: b in s && IsContinuation(b) == continuations
  {
    if s == [] then []
    else (if IsContinuation(s[0]) == continuations then [s[0]] else []) + Pick(s[1..], continuations)
  }

  /** The same bytes, continuation bytes first. */
  function Rearranged(s: Bytes): (r: Bytes)
    ensures forall b <- r :: b in s
  {
    Pick(s, true) + Pick(s, false)
  }

  lemma {:induction false} PickSplits(s: Bytes, chars: set<byte>)
    ensures |Pick(s, true)| + |Pick(s, false)| == |s|
    ensures Occurrences(Pick(s, true), chars) + Occurrences(Pick(s, false), chars) == Occurrences(s, chars)
  {
    if s != [] {
      PickSplits(s[1..], chars);
      var c := IsContinuation(s[0]);
      assert Pick(s, c) == [s[0]] + Pick(s[1..], c) && Pick(s, !c) == Pick(s[1..], !c);
      assert Pick(s, c)[1..] == Pick(s[1..], c);
    }
  }

  lemma WidthsAreOne(a: Bytes, b: Bytes, i: nat)
    requires (forall c <- a :: IsContinuation(c)) && (forall c <- b :: !IsContinuation(c)) && i < |a + b|
    ensures Width(a + b, i) == 1
  {
    var s := a + b;
    if i < |a| {
      assert s[i] in a;
    } else if i + 1 < |s| {
      assert s[i + 1] in b;
    }
  }

  lemma {:induction false} NarrowSkipsNothing(s: Bytes, chars: set<byte>, i: nat)
    requires i <= |s| && forall j | 0 <= j < |s| :: Width(s, j) == 1
    ensures SkippedHits(s, chars, i) == 0
    decreases |s| - i
  {
    if i < |s| {
      assert s[i + 1..i + 1] == [];
      NarrowSkipsNothing(s, chars, i + 1);
    }
  }

  /** Any bytes can be arranged so that the count is exact. */
  lemma RearrangedIsExact(s: Bytes, chars: set<byte>)
    ensures |Rearranged(s)| == |s|
    ensures Count(Rearranged(s), chars, 0) == Occurrences(s, chars)
  {
    var a, b, r := Pick(s, true), Pick(s, false), Rearranged(s);
    PickSplits(s, chars);
    OccurrencesConcat(a, b, chars);
    forall j | 0 <= j < |r|
      ensures Width(r, j) == 1
    {
      WidthsAreOne(a, b, j);
    }
    NarrowSkipsNothing(r, chars, 0);
    CountVersusOccurrences(r, chars, 0);
    assert r[0..] == r;
  }

  lemma PaddedExemplarMeets(rules: seq<Rule>, fill: Bytes, i: nat)
    requires Supplied(rules) && i < |rules|
    ensures Meets(Rearranged(Exemplar(rules) + fill), rules[i])
  {
    ExemplarSuffices(rules, i);
    OccurrencesConcat(Exemplar(rules), fill, Chars(rules[i]));
    RearrangedIsExact(Exemplar(rules) + fill, Chars(rules[i]));
  }

  /** A string that meets the policy: the exemplar, filled up with any letter and rearranged. */
  lemma FeasibleHasWitness(policy: Policy, letters: seq<byte>) returns (s: Bytes)
    requires var rules := CharsetRules(policy.rules);
      && Lists(letters, AllChars(rules)) && Supplied(rules)
      && TotalDemand(rules) <= policy.length && !Panics(policy.length, letters)
    ensures |s| == policy.length && (forall b <- s :: b in letters) && Complies(s, CharsetRules(policy.rules))
  {
    var rules := CharsetRules(policy.rules);
    var start := Exemplar(rules);
    var room := policy.length - |start|;
    var fill: Bytes := seq(room, i requires 0 <= i < room => letters[0]);
    s := Rearranged(start + fill);
    RearrangedIsExact(start + fill, {});
    ExemplarInChars(rules);
    forall b | b in s
      ensures b in letters
    {
      assert b in start + fill;
      if b in start {
        assert b in (set l <- letters);
      } else {
        assert b in fill;
      }
    }
    forall i | 0 <= i < |rules|
      ensures Meets(s, rules[i])
    {
      PaddedExemplarMeets(rules, fill, i);
    }
  }

  lemma {:induction false} NothingOccurs(s: Bytes)
    ensures Occurrences(s, {}) == 0
  {
    if s != [] {
      NothingOccurs(s[1..]);
    }
  }

  /** Some random numbers get the policy accepted. */
  ghost predicate CanSucceed(policy: Policy, attempts: int, letters: seq<byte>, stored: Bytes) {
    exists rng: Rng :: Accepts(policy, attempts, letters, rng, stored)
  }

  predicate Accepts(policy: Policy, attempts: int, letters: seq<byte>, rng: Rng, stored: Bytes) {
    var o := Calculated(policy, attempts, letters, rng, stored);
    o.Returned? && o.valid
  }

  /** With pairwise disjoint charsets, a policy can succeed exactly when it has room for all it
      demands and demands nothing of an empty charset. */
  lemma FeasibleIff(policy: Policy, attempts: int, letters: seq<byte>, stored: Bytes)
    requires attempts > 0 && !Panics(policy.length, letters)
    requires Lists(letters, AllChars(CharsetRules(policy.rules)))
    requires Disjoint(CharsetRules(policy.rules))
    ensures CanSucceed(policy, attempts, letters, stored) <==>
      TotalDemand(CharsetRules(policy.rules)) <= policy.length && Supplied(CharsetRules(policy.rules))
  {
    var rules := CharsetRules(policy.rules);
    if TotalDemand(rules) <= policy.length && Supplied(rules) {
      var s := FeasibleHasWitness(policy, letters);
      SteeringDraws(letters, s);
      assert Accepts(policy, attempts, letters, Steering(letters, s), stored);
    }
    if CanSucceed(policy, attempts, letters, stored) {
      var rng :| Accepts(policy, attempts, letters, rng, stored);
      if TotalDemand(rules) > policy.length {
        InfeasibleAlwaysFails(policy, attempts, letters, rng, stored);
        assert false;
      }
      AcceptedIsSupplied(policy, attempts, letters, rng, stored);
    }
  }

  lemma AcceptedIsSupplied(policy: Policy, attempts: int, letters: seq<byte>, rng: Rng, stored: Bytes)
    requires attempts > 0 && !Panics(policy.length, letters) && Accepts(policy, attempts, letters, rng, stored)
    requires Lists(letters, AllChars(CharsetRules(policy.rules)))
    ensures Supplied(CharsetRules(policy.rules))
  {
    AcceptedIsSound(policy, attempts, letters, rng, stored);
    NothingOccurs(Draw(policy.length, letters, rng, 0));
    forall r | r in CharsetRules(policy.rules)
      ensures r.minChars > 0 ==> r.charset != []
    {
      CharsetRulesIff(policy.rules, r);
      if r.charset == [] {
        assert Chars(r) == {};
      }
    }
  }

  // ---- The generator ----

  class RandomSecret {
    var calculatedSecret: Bytes

    constructor ()
      ensures calculatedSecret == []
    {
      calculatedSecret := [];
    }

    static method FilterRules(rules: seq<Rule>) returns (filtered: seq<Rule>)
      ensures filtered == CharsetRules(rules)
    {
      filtered := [];
      for i := 0 to |rules|
        invariant filtered + CharsetRules(rules[i..]) == CharsetRules(rules)
      {
        assert rules[i..][0] == rules[i] && rules[i..][1..] == rules[i + 1..];
        if rules[i].kind == "charset" {
          filtered := filtered + [rules[i]];
        }
      }
    }

    static method RandStringBytes(n: nat, letters: seq<byte>, rng: Rng, attempt: nat) returns (s: Bytes)
      requires !Panics(n, letters)
      ensures s == Draw(n, letters, rng, attempt)
    {
      var b := new byte[n];
      for i := 0 to n
        invariant forall j | 0 <= j < i :: b[j] == letters[rng(attempt, j) % |letters|]
      {
        b[i] := letters[rng(attempt, i) % |letters|];
      }
      return b[..];
    }

    static method CountChars(s: Bytes, chars: set<byte>) returns (counter: nat)
      ensures counter == Count(s, chars, 0)
    {
      counter := 0;
      var i := 0;
      while i < |s|
        invariant i <= |s| && counter + Count(s, chars, i) == Count(s, chars, 0)
        decreases |s| - i
      {
        if s[i] in chars {
          counter := counter + 1;
        }
        i := i + Width(s, i);
      }
    }

    /** The rules are visited in any order, up to the first one that is not met. */
    static method Check(s: Bytes, rules: seq<Rule>) returns (valid: bool)
      ensures valid <==> Complies(s, rules)
    {
      var left: set<nat> := {};
      for i := 0 to |rules|
        invariant forall j :: j in left <==> 0 <= j < i
      {
        left := left + {i};
      }
      while left != {}
        invariant forall j <- left :: j < |rules|
        invariant forall i | 0 <= i < |rules| && i !in left :: Meets(s, rules[i])
        decreases |left|
      {
        var i :| i in left;
        left := left - {i};
        var counter := CountChars(s, Chars(rules[i]));
        if counter < rules[i].minChars {
          assert !Meets(s, rules[i]);
          return false;
        }
      }
      return true;
    }

    method CalculateSecret(policy: Policy, attempts: int, letters: seq<byte>, rng: Rng)
      returns (panicked: bool, valid: bool)
      requires Lists(letters, AllChars(CharsetRules(policy.rules)))
      modifies this
      ensures panicked <==> Concluded(policy, attempts, letters, rng, old(calculatedSecret)).Panicked?
      ensures panicked ==> calculatedSecret == old(calculatedSecret)
      ensures !panicked ==>
        Returned(valid, calculatedSecret) == Concluded(policy, attempts, letters, rng, old(calculatedSecret))
    {
      var rules := FilterRules(policy.rules);
      valid := true;
      var randomString: Bytes := [];
      var attempt := 0;
      while attempt < attempts
        invariant 0 <= attempt && calculatedSecret == old(calculatedSecret)
        invariant Attempts(policy, attempts, letters, rng, attempt, valid, randomString)
          == Attempts(policy, attempts, letters, rng, 0, true, [])
      {
        if Panics(policy.length, letters) {
          return true, false;
        }
        randomString := RandStringBytes(policy.length, letters, rng, attempt);
        var complies := Check(randomString, rules);
        if !complies {
          valid := false;
        }
        if valid {
          break;
        }
        attempt := attempt + 1;
      }
      assert Attempts(policy, attempts, letters, rng, 0, true, []) == Ended(valid, randomString);
      panicked := false;
      if valid {
        calculatedSecret := randomString;
      }
    }
  }
}
