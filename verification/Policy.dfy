/** Placeholder resolution of a Vault policy: api/v1alpha1/policy_types.go. */
module PolicyAccessors {
  import opened Basics
  import opened Text
  import opened Rewriting

  /** The answer to a read of `sys/auth`: mount key (the mount path, slash included) to accessor. */
  datatype AuthListing = ReadError | NullResponse | Listed(mounts: map<string, string>)

  function Placeholder(key: string): string {
    "${auth/" + Trim(key, '/') + "/@accessor}"
  }

  /** A mount at `path`, listed with a slash at its end, is referred to as documented. */
  lemma PlaceholderOfMount(path: string)
    requires path != "" && path[0] != '/' && path[|path| - 1] != '/'
    ensures Placeholder(path + "/") == "${auth/" + path + "/@accessor}"
    ensures Placeholder(path) == "${auth/" + path + "/@accessor}"
  {
    assert TrimLeft(path, '/') == path && TrimRight(path, '/') == path;
    assert (path + "/")[..|path|] == path;
    assert TrimLeft(path + "/", '/') == path + "/" && TrimRight(path + "/", '/') == path;
  }

  /** One rewriting rule per mount. */
  function RulesOf(mounts: map<string, string>): Rules {
    map key | key in mounts :: Rule(Placeholder(key), mounts[key])
  }

  /** What Vault guarantees of its listing: trimmed mount paths are distinct and, like the
      accessors, hold no placeholder delimiter. */
  predicate SaneListing(mounts: map<string, string>) {
    && (forall k <- mounts :: '$' !in Trim(k, '/') && '}' !in Trim(k, '/'))
    && (forall k <- mounts :: '$' !in mounts[k] && '}' !in mounts[k])
    && (forall k <- mounts, l <- mounts :: k != l ==> Trim(k, '/') != Trim(l, '/'))
  }

  lemma PlaceholderIsDelimited(key: string)
    requires '$' !in Trim(key, '/') && '}' !in Trim(key, '/')
    ensures Delimited(Placeholder(key))
  {
    var t, p := Trim(key, '/'), Placeholder(key);
    assert p[1..] == "{auth/" + t + "/@accessor}";
    assert p[..|p| - 1] == "${auth/" + t + "/@accessor";
  }

  lemma PlaceholderDeterminesPath(k: string, l: string)
    requires Placeholder(k) == Placeholder(l)
    ensures Trim(k, '/') == Trim(l, '/')
  {
    assert Trim(k, '/') == Placeholder(k)[7..|Placeholder(k)| - 11];
    assert Trim(l, '/') == Placeholder(l)[7..|Placeholder(l)| - 11];
  }

  lemma SaneListingIsWellShaped(mounts: map<string, string>)
    requires SaneListing(mounts)
    ensures WellShaped(RulesOf(mounts))
  {
    forall k | k in mounts ensures Delimited(Placeholder(k)) {
      PlaceholderIsDelimited(k);
    }
    forall k, l | k in mounts && l in mounts && k != l ensures Placeholder(k) != Placeholder(l) {
      if Placeholder(k) == Placeholder(l) {
        PlaceholderDeterminesPath(k, l);
        assert false;
      }
    }
  }

  // ---- The pattern of the fast path: \${[^}]+} ----

  predicate PatternAt(s: string, i: nat) {
    && i + 4 <= |s| && s[i] == '$' && s[i + 1] == '{' && s[i + 2] != '}'
    && '}' in s[i + 2..]
  }

  predicate MatchesPattern(s: string) {
    exists i | 0 <= i < |s| :: PatternAt(s, i)
  }

  lemma PlaceholderShape(key: string)
    ensures var p := Placeholder(key);
      |p| >= 4 && p[0] == '$' && p[1] == '{' && p[2] == 'a' && p[|p| - 1] == '}'
  {
  }

  lemma PlaceholderMatches(s: string, key: string)
    requires Contains(s, Placeholder(key))
    ensures MatchesPattern(s)
  {
    hide Placeholder;
    var p := Placeholder(key);
    var i :| 0 <= i <= |s| && p <= s[i..];
    PlaceholderShape(key);
    assert forall j | 0 <= j < |p| :: s[i..][j] == p[j];
    assert s[i + 2..][|p| - 3] == s[i..][|p| - 1] == '}';
    assert PatternAt(s, i);
  }

  /** The fast path skips a loop that would have changed nothing, whatever the listing. */
  lemma {:induction false} FastPathAgrees(order: seq<string>, mounts: map<string, string>, policy: string)
    requires !MatchesPattern(policy)
    ensures ResolveInOrder(order, mounts, policy) == policy
  {
    if order != [] {
      var before, key := order[..|order| - 1], order[|order| - 1];
      FastPathAgrees(before, mounts, policy);
      if Contains(policy, Placeholder(key)) {
        PlaceholderMatches(policy, key);
      } else if key in mounts {
        ReplaceAbsent(policy, Placeholder(key), mounts[key]);
      }
    }
  }

  // ---- The loop ----

  /** The loop over the listing, when the map hands out its keys in the order `order`. */
  function ResolveInOrder(order: seq<string>, mounts: map<string, string>, policy: string): string {
    if order == [] then policy
    else
      var before, key := order[..|order| - 1], order[|order| - 1];
      var soFar := ResolveInOrder(before, mounts, policy);
      if key in mounts then ReplaceAll(soFar, Placeholder(key), mounts[key]) else soFar
  }

  predicate IterationOrder(order: seq<string>, mounts: map<string, string>) {
    Distinct(order) && Elements(order) == mounts.Keys
  }

  lemma {:induction false} ResolveIsApply(order: seq<string>, mounts: map<string, string>, policy: string)
    requires SaneListing(mounts) && Elements(order) <= mounts.Keys
    ensures WellShaped(RulesOf(mounts))
    ensures ResolveInOrder(order, mounts, policy) == ApplyInOrder(order, RulesOf(mounts), policy)
  {
    SaneListingIsWellShaped(mounts);
    if order != [] {
      var before, key := order[..|order| - 1], order[|order| - 1];
      assert key in Elements(order) && Elements(before) <= Elements(order);
      ResolveIsApply(before, mounts, policy);
    }
  }

  /** The reference meaning of a policy text: each placeholder of a mount stands for its accessor. */
  ghost function Resolved(mounts: map<string, string>, policy: string): string
    requires SaneListing(mounts)
  {
    SaneListingIsWellShaped(mounts);
    Simultaneous(RulesOf(mounts), policy)
  }

  /** No accessor occurs inside the placeholder of another mount. */
  predicate AccessorsCrossFree(mounts: map<string, string>) {
    forall k <- mounts, l <- mounts :: k != l ==> !Contains(Placeholder(l), mounts[k])
  }

  /** No accessor occurs inside any placeholder, its own mount's included. */
  predicate AccessorsFree(mounts: map<string, string>) {
    forall k <- mounts, l <- mounts :: !Contains(Placeholder(l), mounts[k])
  }

  lemma FreenessOfRules(mounts: map<string, string>)
    ensures AccessorsCrossFree(mounts) <==> CrossFree(RulesOf(mounts))
    ensures AccessorsFree(mounts) <==> SelfAndCrossFree(RulesOf(mounts))
  {
    var rules := RulesOf(mounts);
    assert rules.Keys == mounts.Keys;
    assert forall k <- mounts :: rules[k] == Rule(Placeholder(k), mounts[k]);
    assert forall k <- rules :: k in mounts && rules[k] == Rule(Placeholder(k), mounts[k]);
  }

  /** When no accessor crosses into another mount's placeholder, every order of the loop computes
      the simultaneous substitution. */
  lemma ResolutionIsSimultaneous(order: seq<string>, mounts: map<string, string>, policy: string)
    requires SaneListing(mounts) && AccessorsCrossFree(mounts) && IterationOrder(order, mounts)
    ensures ResolveInOrder(order, mounts, policy) == Resolved(mounts, policy)
  {
    SaneListingIsWellShaped(mounts);
    FreenessOfRules(mounts);
    ResolveIsApply(order, mounts, policy);
    assert RulesOf(mounts).Keys == mounts.Keys;
    FullOrderIsSimultaneous(order, RulesOf(mounts), policy);
  }

  /** Go iterates a map in an unspecified order. It never shows in the result. */
  ghost predicate OrderNeverShows(mounts: map<string, string>) {
    forall policy, o1, o2 | IterationOrder(o1, mounts) && IterationOrder(o2, mounts) ::
      ResolveInOrder(o1, mounts, policy) == ResolveInOrder(o2, mounts, policy)
  }

  /** No placeholder of a listed mount is left in a resolved policy. */
  ghost predicate LeavesNoPlaceholder(mounts: map<string, string>) {
    forall policy, order, key | IterationOrder(order, mounts) && key in mounts ::
      !Contains(ResolveInOrder(order, mounts, policy), Placeholder(key))
  }

  /** Resolving a resolved policy, in whatever order, changes nothing. */
  ghost predicate ResolvedStays(mounts: map<string, string>) {
    forall policy, o1, o2 | IterationOrder(o1, mounts) && IterationOrder(o2, mounts) ::
      ResolveInOrder(o2, mounts, ResolveInOrder(o1, mounts, policy)) == ResolveInOrder(o1, mounts, policy)
  }

  /** A listing with an accessor inside another mount's placeholder has a policy that shows the order. */
  lemma CrossingShowsTheOrder(mounts: map<string, string>, k: string, l: string)
    returns (policy: string, o1: seq<string>, o2: seq<string>)
    requires SaneListing(mounts) && k in mounts && l in mounts && k != l && Contains(Placeholder(l), mounts[k])
    ensures IterationOrder(o1, mounts) && ResolveInOrder(o1, mounts, policy) == mounts[l]
    ensures IterationOrder(o2, mounts) && ResolveInOrder(o2, mounts, policy) == Placeholder(l)
  {
    SaneListingIsWellShaped(mounts);
    var rules := RulesOf(mounts);
    assert rules[k] == Rule(Placeholder(k), mounts[k]) && rules[l] == Rule(Placeholder(l), mounts[l]);
    var rest;
    policy, rest := CrossingShows(rules, k, l);
    o1, o2 := rest + [k, l], rest + [l, k];
    ResolveIsApply(o1, mounts, policy);
    ResolveIsApply(o2, mounts, policy);
  }

  lemma ResolutionIsConfluentIff(mounts: map<string, string>)
    requires SaneListing(mounts)
    ensures OrderNeverShows(mounts) <==> AccessorsCrossFree(mounts)
  {
    if AccessorsCrossFree(mounts) {
      forall policy, o1, o2 | IterationOrder(o1, mounts) && IterationOrder(o2, mounts)
        ensures ResolveInOrder(o1, mounts, policy) == ResolveInOrder(o2, mounts, policy)
      {
        ResolutionIsSimultaneous(o1, mounts, policy);
        ResolutionIsSimultaneous(o2, mounts, policy);
      }
    } else {
      var k, l :| k in mounts && l in mounts && k != l && Contains(Placeholder(l), mounts[k]);
      var policy, o1, o2 := CrossingShowsTheOrder(mounts, k, l);
      assert Placeholder(l)[0] == '$' && '$' !in mounts[l];
      assert ResolveInOrder(o1, mounts, policy) != ResolveInOrder(o2, mounts, policy);
    }
  }

  lemma ResolutionLeavesNothing(order: seq<string>, mounts: map<string, string>, policy: string, key: string)
    requires SaneListing(mounts) && AccessorsFree(mounts) && IterationOrder(order, mounts) && key in mounts
    ensures !Contains(ResolveInOrder(order, mounts, policy), Placeholder(key))
  {
    SaneListingIsWellShaped(mounts);
    FreenessOfRules(mounts);
    ResolveIsApply(order, mounts, policy);
    assert RulesOf(mounts).Keys == mounts.Keys;
    assert RulesOf(mounts)[key].pattern == Placeholder(key);
    OutputIsClean(order, RulesOf(mounts), policy, key);
  }

  /** A listing with an accessor inside a placeholder has a policy that resolves to a placeholder. */
  lemma ResolutionLeavesPlaceholder(mounts: map<string, string>, k: string, l: string)
    returns (policy: string, order: seq<string>)
    requires SaneListing(mounts) && k in mounts && l in mounts && Contains(Placeholder(l), mounts[k])
    ensures IterationOrder(order, mounts) && ResolveInOrder(order, mounts, policy) == Placeholder(l)
  {
    SaneListingIsWellShaped(mounts);
    var rules := RulesOf(mounts);
    assert rules[k] == Rule(Placeholder(k), mounts[k]) && rules[l] == Rule(Placeholder(l), mounts[l]);
    policy, order := InsertionShows(rules, k, l);
    ResolveIsApply(order, mounts, policy);
  }

  lemma ResolutionIsCompleteIff(mounts: map<string, string>)
    requires SaneListing(mounts)
    ensures LeavesNoPlaceholder(mounts) <==> AccessorsFree(mounts)
  {
    if AccessorsFree(mounts) {
      forall policy, order, key | IterationOrder(order, mounts) && key in mounts
        ensures !Contains(ResolveInOrder(order, mounts, policy), Placeholder(key))
      {
        ResolutionLeavesNothing(order, mounts, policy, key);
      }
    } else {
      var k, l :| k in mounts && l in mounts && Contains(Placeholder(l), mounts[k]);
      var policy, order := ResolutionLeavesPlaceholder(mounts, k, l);
      assert Placeholder(l)[0..] == Placeholder(l);
      assert Contains(ResolveInOrder(order, mounts, policy), Placeholder(l));
    }
  }

  lemma {:induction false} ResolvesNothing(order: seq<string>, mounts: map<string, string>, policy: string)
    requires forall key <- mounts :: !Contains(policy, Placeholder(key))
    ensures ResolveInOrder(order, mounts, policy) == policy
  {
    if order != [] {
      var key := order[|order| - 1];
      ResolvesNothing(order[..|order| - 1], mounts, policy);
      if key in mounts {
        ReplaceAbsent(policy, Placeholder(key), mounts[key]);
      }
    }
  }

  lemma FreeResolutionStays(mounts: map<string, string>, policy: string, o1: seq<string>, o2: seq<string>)
    requires SaneListing(mounts) && AccessorsFree(mounts) && IterationOrder(o1, mounts) && IterationOrder(o2, mounts)
    ensures ResolveInOrder(o2, mounts, ResolveInOrder(o1, mounts, policy)) == ResolveInOrder(o1, mounts, policy)
  {
    forall key | key in mounts
      ensures !Contains(ResolveInOrder(o1, mounts, policy), Placeholder(key))
    {
      ResolutionLeavesNothing(o1, mounts, policy, key);
    }
    ResolvesNothing(o2, mounts, ResolveInOrder(o1, mounts, policy));
  }

  lemma ResolvedPlaceholderGoesAway(mounts: map<string, string>, l: string) returns (order: seq<string>)
    requires SaneListing(mounts) && l in mounts
    ensures IterationOrder(order, mounts) && ResolveInOrder(order, mounts, Placeholder(l)) != Placeholder(l)
  {
    SaneListingIsWellShaped(mounts);
    var rules := RulesOf(mounts);
    assert rules[l] == Rule(Placeholder(l), mounts[l]);
    order := PatternGoesAway(rules, l);
    ResolveIsApply(order, mounts, Placeholder(l));
    assert Placeholder(l)[0] == '$';
  }

  lemma ResolutionIsIdempotentIff(mounts: map<string, string>)
    requires SaneListing(mounts)
    ensures ResolvedStays(mounts) <==> AccessorsFree(mounts)
  {
    if AccessorsFree(mounts) {
      forall policy, o1, o2 | IterationOrder(o1, mounts) && IterationOrder(o2, mounts)
        ensures ResolveInOrder(o2, mounts, ResolveInOrder(o1, mounts, policy)) == ResolveInOrder(o1, mounts, policy)
      {
        FreeResolutionStays(mounts, policy, o1, o2);
      }
    } else {
      var k, l :| k in mounts && l in mounts && Contains(Placeholder(l), mounts[k]);
      var policy, o1 := ResolutionLeavesPlaceholder(mounts, k, l);
      var o2 := ResolvedPlaceholderGoesAway(mounts, l);
      assert ResolveInOrder(o2, mounts, ResolveInOrder(o1, mounts, policy)) != ResolveInOrder(o1, mounts, policy);
    }
  }

  /** Without distinct trimmed paths the order can show although no accessor occurs in a placeholder. */
  lemma EqualPathsShowTheOrder(k: string, l: string, mounts: map<string, string>)
    requires k != l && Trim(k, '/') == Trim(l, '/') && mounts.Keys == {k, l}
    requires mounts[k] != mounts[l] && '$' !in mounts[k] && '$' !in mounts[l]
    ensures !OrderNeverShows(mounts)
  {
    var p := Placeholder(k);
    assert Placeholder(l) == p && p[0] == '$';
    ReplaceHere(p, mounts[k]);
    ReplaceHere(p, mounts[l]);
    ReplaceAbsent(mounts[k], p, mounts[l]);
    ReplaceAbsent(mounts[l], p, mounts[k]);
    var o1, o2 := [k, l], [l, k];
    assert o1[..1] == [k] && o2[..1] == [l] && [k][..0] == [] && [l][..0] == [];
    assert ResolveInOrder([k], mounts, p) == mounts[k] && ResolveInOrder([l], mounts, p) == mounts[l];
    assert ResolveInOrder(o1, mounts, p) == mounts[k];
    assert ResolveInOrder(o2, mounts, p) == mounts[l];
    assert Elements(o1) == mounts.Keys == Elements(o2);
    assert IterationOrder(o1, mounts) && IterationOrder(o2, mounts);
  }

  lemma ReplaceHere(p: string, a: string)
    requires p != ""
    ensures ReplaceAll(p, p, a) == a
  {
    assert p[|p|..] == "" && a + "" == a;
  }

  /** The in-memory policy object that a reconcile prepares. */
  class Policy {
    var policy: string

    constructor (policy: string)
      ensures this.policy == policy
    {
      this.policy := policy;
    }

    /** Returns whether an error is reported. */
    method PrepareInternalValues(listing: AuthListing) returns (failed: bool)
      modifies this
      ensures failed <==> MatchesPattern(old(policy)) && listing.NullResponse?
      ensures !listing.Listed? ==> policy == old(policy)
      ensures listing.Listed? ==> exists order ::
        IterationOrder(order, listing.mounts) && policy == ResolveInOrder(order, listing.mounts, old(policy))
      ensures listing.Listed? && SaneListing(listing.mounts) && AccessorsCrossFree(listing.mounts) ==>
        policy == Resolved(listing.mounts, old(policy))
    {
      ghost var text := policy;
      if !MatchesPattern(policy) {
        if listing.Listed? {
          ghost var order := SomeOrder(listing.mounts.Keys);
          FastPathAgrees(order, listing.mounts, policy);
          Conclude(order, listing.mounts, text);
        }
        return false;
      }
      match listing {
        case ReadError => return false;
        case NullResponse => return true;
        case Listed(mounts) =>
          var remaining := mounts.Keys;
          ghost var order: seq<string> := [];
          while remaining != {}
            invariant remaining <= mounts.Keys
            invariant Distinct(order) && Elements(order) == mounts.Keys - remaining
            invariant policy == ResolveInOrder(order, mounts, text)
            decreases remaining
          {
            var key :| key in remaining;
            policy := ReplaceAll(policy, Placeholder(key), mounts[key]);
            remaining := remaining - {key};
            Extend(order, key);
            order := order + [key];
          }
          Conclude(order, mounts, text);
          return false;
      }
    }
  }

  lemma Extend(order: seq<string>, key: string)
    requires Distinct(order) && key !in Elements(order)
    ensures Distinct(order + [key]) && Elements(order + [key]) == Elements(order) + {key}
    ensures (order + [key])[..|order|] == order
  {
    assert forall i | 0 <= i < |order| :: order[i] in Elements(order);
  }

  lemma Conclude(order: seq<string>, mounts: map<string, string>, policy: string)
    requires IterationOrder(order, mounts)
    ensures SaneListing(mounts) && AccessorsCrossFree(mounts) ==>
      ResolveInOrder(order, mounts, policy) == Resolved(mounts, policy)
  {
    if SaneListing(mounts) && AccessorsCrossFree(mounts) {
      ResolutionIsSimultaneous(order, mounts, policy);
    }
  }
}
