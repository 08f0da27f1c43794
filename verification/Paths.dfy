/** Vault path cleansing: CleansePath of api/v1alpha1/utils/commons.go. */
module Paths {
  import opened Text

  function CleansePath(path: string): string {
    Trim(ReplaceAll(path, "//", "/"), '/')
  }

  function Slashes(k: nat): (r: string)
    ensures |r| == k && forall i | 0 <= i < k :: r[i] == '/'
  {
    seq(k, _ => '/')
  }

  /** The length of the run of slashes at the head of `s`. */
  function LeadingSlashes(s: string): (k: nat)
    ensures k <= |s|
    ensures forall i | 0 <= i < k :: s[i] == '/'
    ensures k < |s| ==> s[k] != '/'
  {
    if s != "" && s[0] == '/' then 1 + LeadingSlashes(s[1..]) else 0
  }

  /** Each maximal run of k slashes shrinks to one of k/2, rounded up. */
  function HalveRuns(s: string): string
    decreases |s|
  {
    if s == "" then ""
    else
      var k := LeadingSlashes(s);
      if k == 0 then [s[0]] + HalveRuns(s[1..])
      else Slashes((k + 1) / 2) + HalveRuns(s[k..])
  }

  /** The text ends, or goes on with something else than a slash. */
  predicate NoSlashAhead(s: string) {
    s == "" || s[0] != '/'
  }

  predicate Trimmed(s: string) {
    s == "" || (s[0] != '/' && s[|s| - 1] != '/')
  }

  lemma {:induction false} HalveRun(k: nat, rest: string)
    requires NoSlashAhead(rest)
    ensures LeadingSlashes(Slashes(k) + rest) == k
    ensures HalveRuns(Slashes(k) + rest) == Slashes((k + 1) / 2) + HalveRuns(rest)
  {
    var s := Slashes(k) + rest;
    assert forall i | 0 <= i < k :: s[i] == '/';
    assert rest != "" ==> s[k] == rest[0];
    assert s[k..] == rest;
    if k == 0 {
      assert s == rest && Slashes(0) + HalveRuns(rest) == HalveRuns(rest);
    }
  }

  lemma SplitRun(s: string) returns (rest: string)
    ensures NoSlashAhead(rest) && s == Slashes(LeadingSlashes(s)) + rest
    ensures rest == s[LeadingSlashes(s)..]
  {
    var k := LeadingSlashes(s);
    rest := s[k..];
    assert s[..k] == Slashes(k);
  }

  // ---- What ReplaceAll does to runs ----

  lemma {:induction false} ReplaceInRun(k: nat, rest: string)
    requires NoSlashAhead(rest)
    ensures ReplaceAll(Slashes(k) + rest, "//", "/") == Slashes((k + 1) / 2) + ReplaceAll(rest, "//", "/")
  {
    var s := Slashes(k) + rest;
    if k == 0 {
      assert s == rest && Slashes(0) + ReplaceAll(rest, "//", "/") == ReplaceAll(rest, "//", "/");
    } else if k == 1 {
      assert s[0] == '/' && s[1..] == rest;
      assert !("//" <= s) by {
        if rest != "" { assert s[1] == rest[0]; }
      }
      assert Slashes(1) == "/";
    } else {
      assert s[0] == '/' && s[1] == '/';
      assert s[2..] == Slashes(k - 2) + rest;
      ReplaceInRun(k - 2, rest);
      assert "/" + Slashes((k - 1) / 2) == Slashes((k + 1) / 2);
      Regroup("/", Slashes((k - 1) / 2), ReplaceAll(rest, "//", "/"));
    }
  }

  lemma {:induction false} ReplaceHalvesRuns(s: string)
    ensures ReplaceAll(s, "//", "/") == HalveRuns(s)
    decreases |s|
  {
    if s != "" {
      var k := LeadingSlashes(s);
      if k == 0 {
        ReplaceHalvesRuns(s[1..]);
      } else {
        var rest := SplitRun(s);
        ReplaceInRun(k, rest);
        ReplaceHalvesRuns(rest);
      }
    }
  }

  // ---- Trimming commutes with halving ----

  lemma {:induction false} HalveConcat(a: string, b: string)
    requires a == "" || a[|a| - 1] != '/' || NoSlashAhead(b)
    ensures HalveRuns(a + b) == HalveRuns(a) + HalveRuns(b)
    decreases |a|
  {
    if a == "" {
      assert a + b == b;
    } else {
      var k := LeadingSlashes(a);
      if k == 0 {
        assert (a + b)[0] == a[0] && (a + b)[1..] == a[1..] + b;
        assert LeadingSlashes(a + b) == 0;
        HalveConcat(a[1..], b);
      } else {
        var rest := SplitRun(a);
        HalveConcat(rest, b);
        HalveConcatRun(k, rest, b);
      }
    }
  }

  lemma HalveConcatRun(k: nat, rest: string, b: string)
    requires NoSlashAhead(rest) && NoSlashAhead(rest + b)
    requires HalveRuns(rest + b) == HalveRuns(rest) + HalveRuns(b)
    ensures HalveRuns(Slashes(k) + rest + b) == HalveRuns(Slashes(k) + rest) + HalveRuns(b)
  {
    HalveRun(k, rest);
    HalveRun(k, rest + b);
    Regroup(Slashes(k), rest, b);
    Regroup(Slashes((k + 1) / 2), HalveRuns(rest), HalveRuns(b));
  }

  lemma EndsOfConcat(a: string, b: string)
    requires a != ""
    ensures (a + b)[0] == a[0]
    ensures (a + b)[|a + b| - 1] == if b == "" then a[|a| - 1] else b[|b| - 1]
  {
  }

  lemma {:induction false} HalveEnds(s: string)
    ensures HalveRuns(s) == "" <==> s == ""
    ensures s != "" ==> HalveRuns(s)[0] == s[0] && HalveRuns(s)[|HalveRuns(s)| - 1] == s[|s| - 1]
    decreases |s|
  {
    if s != "" {
      var k := LeadingSlashes(s);
      if k == 0 {
        HalveEnds(s[1..]);
      } else {
        var rest := SplitRun(s);
        HalveRun(k, rest);
        HalveEnds(rest);
        EndsOfConcat(Slashes((k + 1) / 2), HalveRuns(rest));
        EndsOfConcat(Slashes(k), rest);
      }
    }
  }

  lemma {:induction false} TrimLeftRun(k: nat, rest: string)
    requires NoSlashAhead(rest)
    ensures TrimLeft(Slashes(k) + rest, '/') == rest
  {
    var s := Slashes(k) + rest;
    if k == 0 {
      assert s == rest;
    } else {
      assert s[0] == '/' && s[1..] == Slashes(k - 1) + rest;
      TrimLeftRun(k - 1, rest);
    }
  }

  lemma {:induction false} TrimRightRun(a: string, k: nat)
    requires a == "" || a[|a| - 1] != '/'
    ensures TrimRight(a + Slashes(k), '/') == a
  {
    var s := a + Slashes(k);
    if k == 0 {
      assert s == a;
    } else {
      assert s[|s| - 1] == '/' && s[..|s| - 1] == a + Slashes(k - 1);
      TrimRightRun(a, k - 1);
    }
  }

  lemma {:induction false} TrimRightSplits(s: string) returns (k: nat)
    ensures s == TrimRight(s, '/') + Slashes(k)
  {
    if s != "" && s[|s| - 1] == '/' {
      var j := TrimRightSplits(s[..|s| - 1]);
      k := j + 1;
      assert s == s[..|s| - 1] + "/";
      assert Slashes(k) == Slashes(j) + "/";
    } else {
      k := 0;
      assert s + Slashes(0) == s;
    }
  }

  /** Every text is its trimmed middle between two runs. */
  lemma TrimSplits(s: string) returns (lead: nat, trail: nat)
    ensures s == Slashes(lead) + Trim(s, '/') + Slashes(trail)
    ensures Trimmed(Trim(s, '/'))
  {
    var rest := SplitRun(s);
    lead := LeadingSlashes(s);
    TrimLeftRun(lead, rest);
    trail := TrimRightSplits(rest);
  }

  lemma TrimOf(lead: nat, m: string, trail: nat)
    requires Trimmed(m)
    ensures Trim(Slashes(lead) + m + Slashes(trail), '/') == m
  {
    var s := Slashes(lead) + m + Slashes(trail);
    if m == "" {
      assert s == Slashes(lead + trail) + "";
      TrimLeftRun(lead + trail, "");
    } else {
      assert s == Slashes(lead) + (m + Slashes(trail));
      TrimLeftRun(lead, m + Slashes(trail));
      TrimRightRun(m, trail);
    }
  }

  /** The effect of CleansePath: no slash is left at either end and every interior run of k
      slashes becomes one of k/2, rounded up. */
  lemma CleanseHalvesInterior(path: string)
    ensures CleansePath(path) == HalveRuns(Trim(path, '/'))
    ensures Trimmed(CleansePath(path))
  {
    var m := Trim(path, '/');
    var lead, trail := TrimSplits(path);
    ReplaceHalvesRuns(path);
    HalveEnds(m);
    if m == "" {
      assert path == Slashes(lead + trail) + "";
      HalveRun(lead + trail, "");
      assert HalveRuns(path) == Slashes((lead + trail + 1) / 2) + "" + Slashes(0);
      TrimOf((lead + trail + 1) / 2, "", 0);
    } else {
      assert path == Slashes(lead) + (m + Slashes(trail));
      HalveRun(lead, m + Slashes(trail));
      HalveConcat(m, Slashes(trail));
      assert Slashes(trail) == Slashes(trail) + "";
      HalveRun(trail, "");
      assert HalveRuns(path) == Slashes((lead + 1) / 2) + HalveRuns(m) + Slashes((trail + 1) / 2);
      TrimOf((lead + 1) / 2, HalveRuns(m), (trail + 1) / 2);
    }
  }

  // ---- Idempotence ----

  lemma ContainsRun(s: string, k: nat)
    requires LeadingSlashes(s) >= k
    ensures Contains(s, Slashes(k))
  {
    assert s[0..] == s;
    assert s[..k] == Slashes(k);
  }

  lemma ContainsShift(a: string, b: string, t: string)
    requires Contains(b, t)
    ensures Contains(a + b, t)
  {
    var i :| 0 <= i <= |b| && t <= b[i..];
    assert (a + b)[|a| + i..] == b[i..];
  }

  /** A run of n slashes in `Slashes(k) + rest` is inside the first run or inside `rest`. */
  lemma RunIsInOnePart(k: nat, rest: string, n: nat)
    requires NoSlashAhead(rest) && n > 0
    ensures Contains(Slashes(k) + rest, Slashes(n)) <==> n <= k || Contains(rest, Slashes(n))
  {
    var s := Slashes(k) + rest;
    HalveRun(k, rest);
    if n <= k {
      ContainsRun(s, n);
    } else if Contains(rest, Slashes(n)) {
      ContainsShift(Slashes(k), rest, Slashes(n));
    } else {
      forall i | 0 <= i <= |s| ensures !(Slashes(n) <= s[i..]) {
        if i >= k {
          assert s[i..] == rest[i - k..];
        } else if rest != "" {
          assert s[i..][k - i] == rest[0];
        }
      }
    }
  }

  lemma RunIsInTail(c: char, rest: string, n: nat)
    requires c != '/' && n > 0
    ensures Contains([c] + rest, Slashes(n)) <==> Contains(rest, Slashes(n))
  {
    var s := [c] + rest;
    if Contains(rest, Slashes(n)) {
      ContainsShift([c], rest, Slashes(n));
    } else {
      forall i | 0 <= i <= |s| ensures !(Slashes(n) <= s[i..]) {
        if i == 0 {
          assert s[0..] == s && Slashes(n)[0] == '/';
        } else {
          assert s[i..] == rest[i - 1..];
        }
      }
    }
  }

  /** Halving leaves a double slash exactly where there were three or more. */
  lemma {:induction false} HalvedDoubles(s: string)
    ensures Contains(HalveRuns(s), Slashes(2)) <==> Contains(s, Slashes(3))
    decreases |s|
  {
    if s != "" {
      var k := LeadingSlashes(s);
      if k == 0 {
        HalvedDoubles(s[1..]);
        assert s == [s[0]] + s[1..];
        RunIsInTail(s[0], s[1..], 3);
        RunIsInTail(s[0], HalveRuns(s[1..]), 2);
      } else {
        var rest := SplitRun(s);
        HalvedDoubles(rest);
        HalveEnds(rest);
        RunIsInOnePart(k, rest, 3);
        RunIsInOnePart((k + 1) / 2, HalveRuns(rest), 2);
      }
    }
  }

  /** Halving is the identity exactly on text without a double slash. */
  lemma {:induction false} HalveFixed(s: string)
    ensures |HalveRuns(s)| <= |s|
    ensures HalveRuns(s) == s <==> !Contains(s, Slashes(2))
    ensures HalveRuns(s) != s ==> |HalveRuns(s)| < |s|
    decreases |s|
  {
    if s != "" {
      var k := LeadingSlashes(s);
      if k == 0 {
        HalveFixed(s[1..]);
        assert s == [s[0]] + s[1..];
        RunIsInTail(s[0], s[1..], 2);
      } else {
        var rest := SplitRun(s);
        HalveFixed(rest);
        RunIsInOnePart(k, rest, 2);
      }
    }
  }

  /** Cleansing a cleansed path changes it exactly when the path has an interior run of three or
      more slashes. */
  lemma CleanseIdempotentIff(path: string)
    ensures CleansePath(CleansePath(path)) == CleansePath(path) <==> !Contains(Trim(path, '/'), "///")
  {
    var once := CleansePath(path);
    CleanseHalvesInterior(path);
    CleanseHalvesInterior(once);
    assert once == Slashes(0) + once + Slashes(0);
    TrimOf(0, once, 0);
    HalveFixed(once);
    HalvedDoubles(Trim(path, '/'));
    assert Slashes(3) == "///";
  }

  /** Paths that are already in the form Vault uses. */
  predicate Clean(path: string) {
    Trimmed(path) && !Contains(path, "//")
  }

  lemma CleanPathsStay(path: string)
    ensures CleansePath(path) == path <==> Clean(path)
  {
    CleanseHalvesInterior(path);
    if Trimmed(path) {
      assert path == Slashes(0) + path + Slashes(0);
      TrimOf(0, path, 0);
      HalveFixed(path);
      assert Slashes(2) == "//";
    }
  }

  // ---- The key under which a mount is looked up ----

  /** The mount path recovered from the API path of a mount. */
  function LookupKey(listPath: string, apiPath: string): string {
    Trim(TrimPrefix(apiPath, listPath), '/')
  }

  lemma TrimAfterList(listPath: string, lead: nat, m: string, trail: nat)
    requires listPath != "" && Trimmed(listPath) && Trimmed(m) && m != ""
    ensures Trim(listPath + "/" + (Slashes(lead) + m + Slashes(trail)), '/') == listPath + (Slashes(1 + lead) + m)
  {
    var path := listPath + (Slashes(1 + lead) + m);
    assert "/" + Slashes(lead) == Slashes(1 + lead);
    assert listPath + "/" + (Slashes(lead) + m + Slashes(trail)) == Slashes(0) + path + Slashes(trail);
    TrimOf(0, path, trail);
  }

  lemma HalveAfterList(listPath: string, lead: nat, m: string)
    requires listPath != "" && Clean(listPath) && Trimmed(m)
    ensures HalveRuns(listPath + (Slashes(1 + lead) + m)) == listPath + (Slashes((2 + lead) / 2) + HalveRuns(m))
  {
    assert Slashes(2) == "//";
    HalveFixed(listPath);
    HalveConcat(listPath, Slashes(1 + lead) + m);
    HalveRun(1 + lead, m);
  }

  lemma CleanseUnderList(listPath: string, x: string)
    requires listPath != "" && Clean(listPath) && Trim(x, '/') != ""
    ensures exists k: nat :: CleansePath(listPath + "/" + x) == listPath + (Slashes(k) + CleansePath(x))
  {
    var lead, trail := TrimSplits(x);
    var m := Trim(x, '/');
    CleanseHalvesInterior(x);
    CleanseHalvesInterior(listPath + "/" + x);
    TrimAfterList(listPath, lead, m, trail);
    HalveAfterList(listPath, lead, m);
  }

  lemma TrimBareList(listPath: string, x: string)
    requires Trimmed(listPath) && Trim(x, '/') == ""
    ensures Trim(listPath + "/" + x, '/') == listPath
  {
    var lead, trail := TrimSplits(x);
    assert listPath + "/" + x == Slashes(0) + listPath + Slashes(1 + lead + trail);
    TrimOf(0, listPath, 1 + lead + trail);
  }

  lemma CleanseBareList(listPath: string, x: string)
    requires listPath != "" && Clean(listPath) && Trim(x, '/') == ""
    ensures CleansePath(listPath + "/" + x) == listPath && CleansePath(x) == ""
  {
    CleanseHalvesInterior(x);
    CleanseHalvesInterior(listPath + "/" + x);
    TrimBareList(listPath, x);
    HalveFixed(listPath);
    assert Slashes(2) == "//";
  }

  /** Whatever the user wrote, the key looked up is the cleansed mount path. */
  lemma LookupKeyIsCleansedMountPath(listPath: string, x: string)
    requires listPath != "" && Clean(listPath)
    ensures LookupKey(listPath, CleansePath(listPath + "/" + x)) == CleansePath(x)
  {
    if Trim(x, '/') == "" {
      CleanseBareList(listPath, x);
      assert TrimPrefix(listPath, listPath) == "";
    } else {
      CleanseUnderList(listPath, x);
      var k: nat :| CleansePath(listPath + "/" + x) == listPath + (Slashes(k) + CleansePath(x));
      var tail := Slashes(k) + CleansePath(x);
      assert TrimPrefix(listPath + tail, listPath) == tail;
      CleanseHalvesInterior(x);
      assert tail == Slashes(k) + CleansePath(x) + Slashes(0);
      TrimOf(k, CleansePath(x), 0);
    }
  }
}
