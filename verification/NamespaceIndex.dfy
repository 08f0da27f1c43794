/** The namespaces bound to a KubernetesAuthEngineRole: api/v1alpha1/kubernetesauthenginerole_types.go
    and the namespace watch of controllers/kubernetesauthenginerole_controller.go. */
module NamespaceIndex {
  import opened Basics

  type Labels = map<string, string>

  // ---- Label syntax of Kubernetes ----

  predicate LowerOrDigit(c: char) {
    'a' <= c <= 'z' || '0' <= c <= '9'
  }

  predicate LetterOrDigit(c: char) {
    LowerOrDigit(c) || 'A' <= c <= 'Z'
  }

  /** The name of a label key, and a label value that is not empty. */
  predicate LabelName(s: string) {
    && 1 <= |s| <= 63 && LetterOrDigit(s[0]) && LetterOrDigit(s[|s| - 1])
    && forall c <- s :: LetterOrDigit(c) || c == '-' || c == '_' || c == '.'
  }

  predicate LabelValue(s: string) {
    s == "" || LabelName(s)
  }

  /** Lower-case labels separated by dots, none of which begins or ends with a hyphen. */
  predicate DnsSubdomain(s: string) {
    && 1 <= |s| <= 253 && LowerOrDigit(s[0]) && LowerOrDigit(s[|s| - 1])
    && (forall c <- s :: LowerOrDigit(c) || c == '-' || c == '.')
    && forall i | 0 < i < |s| - 1 && s[i] == '.' :: LowerOrDigit(s[i - 1]) && LowerOrDigit(s[i + 1])
  }

  /** A label name, possibly after a DNS subdomain and a slash. */
  predicate LabelKey(s: string) {
    || LabelName(s)
    || exists i | 0 <= i < |s| :: s[i] == '/' && DnsSubdomain(s[..i]) && LabelName(s[i + 1..])
  }

  // ---- Selectors ----

  datatype Operator = In | NotIn | Exists | DoesNotExist | Unknown

  datatype Requirement = Requirement(key: string, operator: Operator, values: seq<string>) {
    predicate WellFormed() {
      LabelKey(key) && (forall v <- values :: LabelValue(v)) && RightArity()
    }

    predicate RightArity() {
      match operator
      case In => values != []
      case NotIn => values != []
      case Exists => values == []
      case DoesNotExist => values == []
      case Unknown => false
    }

    predicate Matches(labels: Labels) {
      match operator
      case In => key in labels && labels[key] in values
      case NotIn => key !in labels || labels[key] !in values
      case Exists => key in labels
      case DoesNotExist => key !in labels
      case Unknown => false
    }
  }

  /** A label selector of Kubernetes. */
  datatype Selector = Selector(matchLabels: map<string, string>, matchExpressions: seq<Requirement>) {
    /** LabelSelectorAsSelector succeeds. */
    predicate WellFormed() {
      && (forall k <- matchLabels :: LabelKey(k) && LabelValue(matchLabels[k]))
      && (forall r <- matchExpressions :: r.WellFormed())
    }

    predicate Matches(labels: Labels) {
      && (forall k <- matchLabels :: k in labels && labels[k] == matchLabels[k])
      && (forall r <- matchExpressions :: r.Matches(labels))
    }
  }

  datatype Targets = BySelector(selector: Selector) | ByNames(names: seq<string>) {
    predicate WellFormed() {
      BySelector? ==> selector.WellFormed()
    }

    predicate Selects(labels: Labels) {
      BySelector? && selector.Matches(labels)
    }
  }

  const NO_NAMESPACE := "__no_namespace__"

  /** A role and the namespaces that Vault has bound it to. */
  datatype Role = Role(targets: Targets, bound: Option<seq<string>>)

  datatype World = World(namespaces: map<string, Labels>, roles: map<string, Role>, queue: set<string>)

  datatype Calls = Calls(list: bool, read: bool, restEquivalent: bool, write: CallOutcome, outcomeRecorded: bool)

  datatype Event =
    // `listed` and `relisted` tell whether the mapper's listings of the roles succeed, the one for the
    // namespace as it was and the one for the namespace as it is
    | PutNamespace(ns: string, labels: Labels, listed: bool, relisted: bool)  // created or relabelled
    | DeleteNamespace(ns: string, listed: bool)
    | PutRole(role: string, targets: Targets)              // created or changed
    | DeleteRole(role: string)
    | Enqueue(role: string)                                // resync, or a retry falling due
    | Reconcile(role: string, listing: seq<string>, calls: Calls)

  // ---- Selection and its inverse ----

  /** The selection query: the names of the matching namespaces, in the order of the listing. */
  function FindSelected(selector: Selector, listing: seq<string>, namespaces: map<string, Labels>): seq<string> {
    if listing == [] then []
    else
      var n := listing[|listing| - 1];
      var before := FindSelected(selector, listing[..|listing| - 1], namespaces);
      if n in namespaces && selector.Matches(namespaces[n]) then before + [n] else before
  }

  function Selected(selector: Selector, namespaces: map<string, Labels>): set<string> {
    set n | n in namespaces && selector.Matches(namespaces[n])
  }

  /** What PrepareInternalValues hands over to the payload. */
  function InternalNamespaces(targets: Targets, listing: seq<string>, namespaces: map<string, Labels>): seq<string> {
    match targets
    case ByNames(names) => names
    case BySelector(selector) =>
      var found := FindSelected(selector, listing, namespaces);
      if |found| < 1 then [NO_NAMESPACE] else found
  }

  predicate AllWellFormed(roles: map<string, Role>) {
    forall r <- roles :: roles[r].targets.WellFormed()
  }

  /** The roles that select a namespace with these labels: the inverse of the selection query. */
  function Selecting(roles: map<string, Role>, labels: Labels): set<string> {
    set r | r in roles && roles[r].targets.Selects(labels)
  }

  /** The watch mapper: a failed listing, or a malformed selector anywhere, makes it give up on all the roles. */
  function Mapped(roles: map<string, Role>, labels: Labels, listed: bool): set<string> {
    if listed && AllWellFormed(roles) then Selecting(roles, labels) else {}
  }

  /** The mapper inverts the selection query unless some role needs it when it gives up. */
  lemma MapperInvertsIff(roles: map<string, Role>, labels: Labels, listed: bool)
    ensures Mapped(roles, labels, listed) == Selecting(roles, labels)
      <==> (listed && AllWellFormed(roles)) || Selecting(roles, labels) == {}
  {
  }

  lemma SelectionIsInverse(roles: map<string, Role>, namespaces: map<string, Labels>, r: string, ns: string)
    requires r in roles && ns in namespaces && roles[r].targets.BySelector?
    ensures ns in Selected(roles[r].targets.selector, namespaces) <==> r in Selecting(roles, namespaces[ns])
  {
  }

  predicate Enumerates(listing: seq<string>, namespaces: map<string, Labels>) {
    Distinct(listing) && Elements(listing) == namespaces.Keys
  }

  lemma {:induction false} FindSelectedIsSelection(selector: Selector, listing: seq<string>,
                                                   namespaces: map<string, Labels>)
    requires Distinct(listing)
    ensures var found := FindSelected(selector, listing, namespaces);
      && Distinct(found)
      && Elements(found) == Elements(listing) * Selected(selector, namespaces)
  {
    if listing != [] {
      var n, rest := listing[|listing| - 1], listing[..|listing| - 1];
      FindSelectedIsSelection(selector, rest, namespaces);
      var before := FindSelected(selector, rest, namespaces);
      assert forall m <- before :: m in Elements(before);
      assert n !in rest;
      assert Elements(before + [n]) == Elements(before) + {n};
      assert Elements(listing) == Elements(rest) + {n};
    }
  }

  /** Vault binds the role to the namespaces its selector matches now, each named once, or to the
      stand-in when there is none. */
  predicate Agrees(w: World, r: string)
    requires r in w.roles
  {
    var role := w.roles[r];
    && role.bound.Some?
    && match role.targets
       case ByNames(names) => role.bound.value == names
       case BySelector(selector) =>
         var now := Selected(selector, w.namespaces);
         if now == {} then role.bound.value == [NO_NAMESPACE]
         else Distinct(role.bound.value) && Elements(role.bound.value) == now
  }

  // ---- One step ----

  function ReconcileRole(w: World, r: string, listing: seq<string>, calls: Calls): World
    requires r in w.roles && r in w.queue
  {
    var role := w.roles[r];
    if role.targets.BySelector? && !(role.targets.selector.WellFormed() && calls.list) then w
    else if !calls.read then w
    else
      var desired := InternalNamespaces(role.targets, listing, w.namespaces);
      var writes := role.bound != Some(desired) || !calls.restEquivalent;
      var bound := if writes && calls.write.Applied() then Some(desired) else role.bound;
      var failed := (writes && !calls.write.Done?) || !calls.outcomeRecorded;
      w.(roles := w.roles[r := role.(bound := bound)], queue := if failed then w.queue else w.queue - {r})
  }

  /** Events that can happen in the state. */
  predicate Possible(w: World, e: Event) {
    match e
    case Reconcile(r, listing, _) => r in w.roles && r in w.queue && Enumerates(listing, w.namespaces)
    case Enqueue(r) => r in w.roles
    case _ => true
  }

  function Step(w: World, e: Event): World
    requires Possible(w, e)
  {
    match e
    case PutNamespace(ns, labels, listed, relisted) =>
      // an update maps both the old and the new object
      var before := if ns in w.namespaces then Mapped(w.roles, w.namespaces[ns], listed) else {};
      w.(namespaces := w.namespaces[ns := labels], queue := w.queue + before + Mapped(w.roles, labels, relisted))
    case DeleteNamespace(ns, listed) =>
      if ns in w.namespaces then
        w.(namespaces := w.namespaces - {ns}, queue := w.queue + Mapped(w.roles, w.namespaces[ns], listed))
      else w
    case PutRole(r, targets) =>
      if r in w.roles && w.roles[r].targets == targets then w
      else
        var bound := if r in w.roles then w.roles[r].bound else None;
        w.(roles := w.roles[r := Role(targets, bound)], queue := w.queue + {r})
    case DeleteRole(r) => w.(roles := w.roles - {r}, queue := w.queue - {r})
    case Enqueue(r) => w.(queue := w.queue + {r})
    case Reconcile(r, listing, calls) => ReconcileRole(w, r, listing, calls)
  }

  predicate PossibleRun(w: World, events: seq<Event>)
    decreases |events|
  {
    events == [] || (Possible(w, events[0]) && PossibleRun(Step(w, events[0]), events[1..]))
  }

  function Run(w: World, events: seq<Event>): World
    requires PossibleRun(w, events)
    decreases |events|
  {
    if events == [] then w else Run(Step(w, events[0]), events[1..])
  }

  // ---- Index agreement ----

  predicate Inv(w: World) {
    && AllWellFormed(w.roles)
    && w.queue <= w.roles.Keys
    && forall r <- w.roles :: r !in w.queue ==> Agrees(w, r)
  }

  /** Selectors are well-formed and the listings of the mapper succeed. */
  predicate Sound(e: Event) {
    match e
    case PutRole(_, targets) => targets.WellFormed()
    case PutNamespace(_, _, listed, relisted) => listed && relisted
    case DeleteNamespace(_, listed) => listed
    case _ => true
  }

  /** The event changes which namespaces the role selects. */
  predicate Moves(w: World, e: Event, r: string)
    requires r in w.roles && Possible(w, e)
  {
    var targets := w.roles[r].targets;
    targets.BySelector?
    && Selected(targets.selector, Step(w, e).namespaces) != Selected(targets.selector, w.namespaces)
  }

  /** The mapper queues every role whose selection a namespace event moves. */
  lemma MapperCoversMoves(w: World, e: Event, r: string)
    requires AllWellFormed(w.roles) && (e.PutNamespace? || e.DeleteNamespace?) && Sound(e)
    requires r in w.roles && Moves(w, e, r)
    ensures r in Step(w, e).queue
  {
    var selector, v := w.roles[r].targets.selector, Step(w, e);
    var n :| (n in Selected(selector, w.namespaces)) != (n in Selected(selector, v.namespaces));
    assert n == e.ns;
    if n in w.namespaces {
      SelectionIsInverse(w.roles, w.namespaces, r, n);
    }
    if n in v.namespaces {
      SelectionIsInverse(w.roles, v.namespaces, r, n);
    }
  }

  /** A role in agreement that a namespace event leaves unqueued stays in agreement exactly if the event
      does not move its selection. (No namespace of Kubernetes has the name of the stand-in.) */
  lemma AgreementSurvivesIff(w: World, e: Event, r: string)
    requires (e.PutNamespace? || e.DeleteNamespace?) && r in w.roles && Agrees(w, r)
    requires NO_NAMESPACE != e.ns && NO_NAMESPACE !in w.namespaces
    ensures Agrees(Step(w, e), r) <==> !Moves(w, e, r)
  {
    var bound := w.roles[r].bound.value;
    assert Elements([NO_NAMESPACE]) == {NO_NAMESPACE};
    if w.roles[r].targets.BySelector? {
      assert NO_NAMESPACE !in Selected(w.roles[r].targets.selector, w.namespaces);
      assert NO_NAMESPACE !in Selected(w.roles[r].targets.selector, Step(w, e).namespaces);
    }
  }

  /** The mapper hears of the role: for labels that the role selects, those the namespace had or those it
      has now, it gets a listing of the roles. */
  predicate Heard(w: World, e: Event, r: string)
    requires r in w.roles && (e.PutNamespace? || e.DeleteNamespace?)
  {
    || (e.listed && e.ns in w.namespaces && w.roles[r].targets.Selects(w.namespaces[e.ns]))
    || (e.PutNamespace? && e.relisted && w.roles[r].targets.Selects(e.labels))
  }

  /** A namespace event leaves a role queued or in agreement exactly if it does not move the role's
      selection, or all selectors are well-formed and the mapper hears of the role. */
  lemma EventKeepsAgreementIff(w: World, e: Event, r: string)
    requires (e.PutNamespace? || e.DeleteNamespace?) && r in w.roles && r !in w.queue && Agrees(w, r)
    requires NO_NAMESPACE != e.ns && NO_NAMESPACE !in w.namespaces
    ensures r in Step(w, e).queue || Agrees(Step(w, e), r) <==>
      !Moves(w, e, r) || (AllWellFormed(w.roles) && Heard(w, e, r))
  {
    AgreementSurvivesIff(w, e, r);
  }

  /** So the whole index survives a namespace event exactly if the mapper hears of all the roles it moves. */
  lemma EventKeepsInvIff(w: World, e: Event)
    requires Inv(w) && (e.PutNamespace? || e.DeleteNamespace?)
    requires NO_NAMESPACE != e.ns && NO_NAMESPACE !in w.namespaces
    ensures Inv(Step(w, e)) <==> forall r <- w.roles :: r in w.queue || !Moves(w, e, r) || Heard(w, e, r)
  {
    var v := Step(w, e);
    assert v.roles == w.roles && w.queue <= v.queue;
    forall r | r in w.roles
      ensures r in v.queue || Agrees(v, r) <==> r in w.queue || !Moves(w, e, r) || Heard(w, e, r)
    {
      if r !in w.queue {
        EventKeepsAgreementIff(w, e, r);
      }
    }
  }

  lemma NamespaceStepKeepsAgreement(w: World, e: Event, r: string)
    requires Inv(w) && (e.PutNamespace? || e.DeleteNamespace?) && Sound(e)
    requires r in w.roles && r !in Step(w, e).queue
    ensures Agrees(Step(w, e), r)
  {
    assert Agrees(w, r);
    if Moves(w, e, r) {
      MapperCoversMoves(w, e, r);
      assert false;
    }
  }

  lemma ReconcileAgrees(w: World, r: string, listing: seq<string>, calls: Calls)
    requires r in w.roles && r in w.queue && Enumerates(listing, w.namespaces)
    requires r !in ReconcileRole(w, r, listing, calls).queue
    ensures Agrees(ReconcileRole(w, r, listing, calls), r)
  {
    var targets := w.roles[r].targets;
    if targets.BySelector? {
      var found := FindSelected(targets.selector, listing, w.namespaces);
      FindSelectedIsSelection(targets.selector, listing, w.namespaces);
      assert Elements(found) == Selected(targets.selector, w.namespaces);
      if found != [] {
        assert found[0] in Elements(found);
      }
    }
  }

  /** A reconcile of a queued role takes it off the queue exactly if all the calls it needs succeed; the role
      is then in agreement. */
  lemma ReconcileSucceedsIff(w: World, r: string, listing: seq<string>, calls: Calls)
    requires r in w.roles && r in w.queue && Enumerates(listing, w.namespaces)
    ensures var v, role := ReconcileRole(w, r, listing, calls), w.roles[r];
      var desired := InternalNamespaces(role.targets, listing, w.namespaces);
      var outdated := role.bound != Some(desired) || !calls.restEquivalent;
      && (r !in v.queue <==>
            && role.targets.WellFormed() && (role.targets.BySelector? ==> calls.list)
            && calls.read && (outdated ==> calls.write.Done?) && calls.outcomeRecorded)
      && (r !in v.queue ==> Agrees(v, r) && v.roles[r].targets == role.targets)
  {
    if r !in ReconcileRole(w, r, listing, calls).queue {
      ReconcileAgrees(w, r, listing, calls);
    }
  }

  lemma StepKeepsInv(w: World, e: Event)
    requires Inv(w) && Possible(w, e) && Sound(e)
    ensures Inv(Step(w, e))
  {
    var v := Step(w, e);
    forall r | r in v.roles && r !in v.queue ensures Agrees(v, r) {
      match e
      case PutNamespace(_, _, _, _) => NamespaceStepKeepsAgreement(w, e, r);
      case DeleteNamespace(_, _) => NamespaceStepKeepsAgreement(w, e, r);
      case Reconcile(s, listing, calls) =>
        if r == s {
          ReconcileAgrees(w, s, listing, calls);
        } else {
          assert v.roles[r] == w.roles[r];
          assert Agrees(w, r);
        }
      case _ =>
        assert r in w.roles && v.roles[r] == w.roles[r];
        assert Agrees(w, r);
    }
  }

  /** Over any sequence of namespace events, role changes, failing and succeeding reconciles, with every
      selector well-formed and every listing of the mapper successful, each role without work queued
      is bound to exactly the namespaces that its selector matches now. */
  lemma {:induction false} IndexAgreement(w: World, events: seq<Event>)
    requires Inv(w) && PossibleRun(w, events)
    requires forall e <- events :: Sound(e)
    ensures Inv(Run(w, events))
    decreases |events|
  {
    if events != [] {
      StepKeepsInv(w, events[0]);
      IndexAgreement(Step(w, events[0]), events[1..]);
    }
  }

  lemma EmptyClusterAgrees(namespaces: map<string, Labels>)
    ensures Inv(World(namespaces, map[], {}))
  {
  }

  /** One malformed selector blinds the watch for every other role: a namespace event then leaves a
      role that was in agreement unqueued, and in agreement exactly if its selection did not move. */
  lemma MalformedSelectorBlindsOthers(w: World, e: Event, r: string, bad: string)
    requires r in w.roles && r !in w.queue && Agrees(w, r)
    requires bad in w.roles && !w.roles[bad].targets.WellFormed()
    requires (e.PutNamespace? || e.DeleteNamespace?) && NO_NAMESPACE != e.ns && NO_NAMESPACE !in w.namespaces
    ensures r !in Step(w, e).queue
    ensures Agrees(Step(w, e), r) <==> !Moves(w, e, r)
  {
    AgreementSurvivesIff(w, e, r);
  }

  // ---- The operator's code ----

  class KubernetesAuthEngineRole {
    const targets: Targets
    var namespaces: seq<string>

    constructor (targets: Targets)
      ensures this.targets == targets && namespaces == []
    {
      this.targets := targets;
      namespaces := [];
    }

    method FindSelectedNamespaceNames(listing: seq<string>, cluster: map<string, Labels>, list: bool)
      returns (result: Option<seq<string>>)
      requires targets.BySelector?
      ensures result.Some? <==> targets.selector.WellFormed() && list
      ensures result.Some? ==> result.value == FindSelected(targets.selector, listing, cluster)
    {
      if !targets.selector.WellFormed() {
        return None;
      }
      if !list {
        return None;
      }
      var names: seq<string> := [];
      for i := 0 to |listing|
        invariant names == FindSelected(targets.selector, listing[..i], cluster)
      {
        assert listing[..i + 1][..i] == listing[..i];
        if listing[i] in cluster && targets.selector.Matches(cluster[listing[i]]) {
          names := names + [listing[i]];
        }
      }
      assert listing[..|listing|] == listing;
      result := Some(names);
    }

    method PrepareInternalValues(listing: seq<string>, cluster: map<string, Labels>, list: bool) returns (failed: bool)
      modifies this
      ensures failed <==> targets.BySelector? && !(targets.selector.WellFormed() && list)
      ensures namespaces == if failed then old(namespaces) else InternalNamespaces(targets, listing, cluster)
    {
      if targets.BySelector? {
        var found := FindSelectedNamespaceNames(listing, cluster, list);
        if found.None? {
          return true;
        }
        if |found.value| < 1 {
          namespaces := [NO_NAMESPACE];
        } else {
          namespaces := found.value;
        }
      } else {
        namespaces := targets.names;
      }
      failed := false;
    }
  }

  class Controller {
    var namespaces: map<string, Labels>
    var roles: map<string, Role>
    var queue: set<string>

    constructor (namespaces: map<string, Labels>)
      ensures Inv(State())
    {
      this.namespaces, roles, queue := namespaces, map[], {};
      EmptyClusterAgrees(namespaces);
    }

    ghost function State(): World
      reads this
    {
      World(namespaces, roles, queue)
    }

    /** Lists all the roles, in whatever order, and gives up on the first malformed selector. */
    method FindApplicableKubernetesAuthEngineRoles(labels: Labels, listed: bool) returns (result: Option<seq<string>>)
      ensures result.Some? <==> listed && AllWellFormed(roles)
      ensures result.Some? ==> Elements(result.value) == Selecting(roles, labels)
    {
      if !listed {
        return None;
      }
      var names: seq<string> := [];
      var remaining := roles.Keys;
      while remaining != {}
        invariant remaining <= roles.Keys
        invariant forall r <- roles :: r !in remaining ==> roles[r].targets.WellFormed()
        invariant Elements(names) == Selecting(roles, labels) - remaining
        decreases remaining
      {
        var r :| r in remaining;
        if roles[r].targets.BySelector? {
          if !roles[r].targets.selector.WellFormed() {
            return None;
          }
          if roles[r].targets.selector.Matches(labels) {
            assert Elements(names + [r]) == Elements(names) + {r};
            names := names + [r];
          }
        }
        remaining := remaining - {r};
      }
      result := Some(names);
    }

    method MapNamespace(labels: Labels, listed: bool) returns (requests: seq<string>)
      ensures Elements(requests) == Mapped(roles, labels, listed)
    {
      var found := FindApplicableKubernetesAuthEngineRoles(labels, listed);
      if found.None? {
        return [];
      }
      requests := [];
      for i := 0 to |found.value|
        invariant requests == found.value[..i]
      {
        requests := requests + [found.value[i]];
      }
    }

    method OnNamespace(ns: string, labels: Labels, listed: bool, relisted: bool)
      modifies this
      ensures State() == Step(old(State()), PutNamespace(ns, labels, listed, relisted))
    {
      var before: seq<string> := [];
      if ns in namespaces {
        before := MapNamespace(namespaces[ns], listed);
      }
      var after := MapNamespace(labels, relisted);
      namespaces := namespaces[ns := labels];
      queue := queue + Elements(before) + Elements(after);
    }

    method OnNamespaceDeleted(ns: string, listed: bool)
      modifies this
      ensures State() == Step(old(State()), DeleteNamespace(ns, listed))
    {
      if ns in namespaces {
        var before := MapNamespace(namespaces[ns], listed);
        namespaces := namespaces - {ns};
        queue := queue + Elements(before);
      }
    }

    method Reconcile(r: string, listing: seq<string>, calls: Calls)
      requires Possible(State(), Event.Reconcile(r, listing, calls))
      modifies this
      ensures State() == Step(old(State()), Event.Reconcile(r, listing, calls))
    {
      var instance := new KubernetesAuthEngineRole(roles[r].targets);
      var failed := instance.PrepareInternalValues(listing, namespaces, calls.list);
      if failed || !calls.read {
        return;
      }
      var bound := roles[r].bound;
      if bound != Some(instance.namespaces) || !calls.restEquivalent {
        if calls.write.Applied() {
          bound := Some(instance.namespaces);
        }
        failed := !calls.write.Done?;
      }
      roles := roles[r := roles[r].(bound := bound)];
      if !failed && calls.outcomeRecorded {
        queue := queue - {r};
      }
    }
  }
}
