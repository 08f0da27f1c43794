/** The protocol that keeps a generated Secret in step with Vault: controllers/vaultsecret_controller.go.
    SHA-256 and template rendering are parameters. */
module VaultSecret {
  import opened Basics
  import opened Persistence
  import opened RefreshDuration
  import HashData

  const HASH_ANNOTATION := "vaultsecret.redhatcop.redhat.io/secret-hash"
  const VAULT_SECRET_KIND := "VaultSecret"

  type Values = map<string, string>

  /** `inner` is what the values hold under "data", if that is a map: the shape of KV version 2. */
  datatype Read = Unreadable | Got(lease: Int64, values: Values, inner: Option<Values>)

  /** A template and the values by definition name; none if parsing or execution fails. */
  type Render = (Bytes, map<string, Values>) -> Option<Bytes>

  datatype OwnerRef = OwnerRef(kind: string, name: string, uid: string, controller: bool)

  datatype Secret = Secret(data: map<Bytes, Bytes>, annotations: Option<map<string, string>>, owners: seq<OwnerRef>)

  datatype Spec = Spec(
    name: string, uid: string, generation: int,
    refreshPeriod: Option<int>, refreshThreshold: int,
    definitions: seq<string>,            // their names
    stringData: map<Bytes, Bytes>,       // templates
    annotations: map<string, string>)

  datatype Setting = Setting(spec: Spec, sha: HashData.Sha, render: Render)

  datatype Status = Status(last: Option<int>, next: Option<int>, leases: seq<DefinitionStatus>)

  datatype World = World(
    now: int,
    phase: Phase,
    resource: Stored<Status>,
    secret: Option<Secret>,  // what is stored under the name of the generated Secret
    queued: bool,
    due: Option<int>,        // when the earliest delayed requeue falls due
    writes: nat)             // writes of the Secret by the operator

  /** What happens to the calls of one cycle. */
  datatype Calls = Calls(
    lookup: bool, answers: seq<Read>, lookupAgain: bool, write: CallOutcome,
    status: CallOutcome, finalizer: CallOutcome, delete: CallOutcome, release: CallOutcome)

  datatype Event =
    | Reconcile(calls: Calls)
    | Tick(elapsed: nat)
    | Restart
    | Resync       // the cache replays an update of the Secret
    | EditSecret(data: map<Bytes, Bytes>, annotations: Option<map<string, string>>)
    | DeleteSecret
    | ForeignCreate(secret: Secret)
    | RequestDeletion

  // ---- Ownership ----

  function Reference(spec: Spec): OwnerRef {
    OwnerRef(VAULT_SECRET_KIND, spec.name, spec.uid, true)
  }

  predicate Refers(spec: Spec, r: OwnerRef) {
    r.name == spec.name && r.uid == spec.uid && r.kind == VAULT_SECRET_KIND
  }

  predicate IsOwner(spec: Spec, s: Secret) {
    exists r <- s.owners :: Refers(spec, r)
  }

  predicate IsOwnedByController(s: Secret) {
    exists r <- s.owners :: r.kind == VAULT_SECRET_KIND
  }

  function ControllerOf(owners: seq<OwnerRef>): Option<OwnerRef> {
    if owners == [] then None else if owners[0].controller then Some(owners[0]) else ControllerOf(owners[1..])
  }

  /** Events of the Secret are mapped to the object its controller reference names. */
  predicate Routed(spec: Spec, s: Secret) {
    var c := ControllerOf(s.owners);
    c.Some? && c.value.kind == VAULT_SECRET_KIND && c.value.name == spec.name
  }

  // ---- Drift ----

  ghost predicate HashMatches(sha: HashData.Sha, s: Secret) {
    s.annotations.Some? && HASH_ANNOTATION in s.annotations.value
    && s.annotations.value[HASH_ANNOTATION] == HashData.Hash(sha, s.data)
  }

  /** The test of the cycle. */
  ghost predicate CycleSeesDrift(sha: HashData.Sha, s: Secret) {
    match s.annotations
    case Some(a) => if HASH_ANNOTATION !in a then true else a[HASH_ANNOTATION] != HashData.Hash(sha, s.data)
    case None => true
  }

  function Annotation(s: Secret, key: string): Option<string> {
    if s.annotations.Some? && key in s.annotations.value then Some(s.annotations.value[key]) else None
  }

  /** The test of the watch, which looks up a key in a map that may be missing. */
  ghost predicate WatchSeesDrift(sha: HashData.Sha, s: Secret) {
    var hash := Annotation(s, HASH_ANNOTATION);
    hash.None? || hash.value != HashData.Hash(sha, s.data)
  }

  ghost predicate WatchAcceptsUpdate(sha: HashData.Sha, s: Secret) {
    IsOwnedByController(s) && WatchSeesDrift(sha, s)
  }

  /** An update of the Secret queues the object. */
  ghost predicate UpdateQueues(env: Setting, s: Secret) {
    WatchAcceptsUpdate(env.sha, s) && Routed(env.spec, s)
  }

  predicate DeletionQueues(spec: Spec, s: Secret) {
    IsOwnedByController(s) && Routed(spec, s)
  }

  /** Watch and cycle accept exactly the same drifts, and the watch covers every Secret the cycle
      takes for its own. */
  lemma WatchAgreesWithCycle(env: Setting, s: Secret)
    ensures CycleSeesDrift(env.sha, s) <==> !HashMatches(env.sha, s)
    ensures WatchSeesDrift(env.sha, s) <==> !HashMatches(env.sha, s)
    ensures IsOwner(env.spec, s) ==> IsOwnedByController(s)
    ensures IsOwner(env.spec, s) ==> (WatchAcceptsUpdate(env.sha, s) <==> CycleSeesDrift(env.sha, s))
  {
  }

  // ---- Building the Secret ----

  datatype Gathered = Gathered(values: map<string, Values>, leases: seq<DefinitionStatus>)

  function ReadOf(answers: seq<Read>, i: nat): Read {
    if i < |answers| then answers[i] else Unreadable
  }

  function Payload(read: Read): Values
    requires read.Got?
  {
    if read.inner.Some? then read.inner.value else read.values
  }

  /** The values of the first n definitions; none if one of them cannot be read. */
  function Gather(definitions: seq<string>, answers: seq<Read>, n: nat): Option<Gathered>
    requires n <= |definitions|
  {
    if n == 0 then Some(Gathered(map[], []))
    else
      var g, read, name := Gather(definitions, answers, n - 1), ReadOf(answers, n - 1), definitions[n - 1];
      if g.None? || read.Unreadable? then None
      else
        Some(Gathered(g.value.values[name := Payload(read)], g.value.leases + [DefinitionStatus(name, read.lease)]))
  }

  /** Gathering succeeds exactly if every definition can be read, and reports the leases in order. */
  lemma {:induction false} GatherSucceedsIff(definitions: seq<string>, answers: seq<Read>, n: nat)
    requires n <= |definitions|
    ensures var g := Gather(definitions, answers, n);
      && (g.Some? <==> n <= |answers| && forall i | 0 <= i < n :: answers[i].Got?)
      && (g.Some? ==> |g.value.leases| == n)
      && (g.Some? ==> forall i | 0 <= i < n ::
            g.value.leases[i] == DefinitionStatus(definitions[i], answers[i].lease))
  {
    if n > 0 {
      GatherSucceedsIff(definitions, answers, n - 1);
    }
  }

  /** Of the first n definitions, the one at i is the last with its name. */
  predicate LastOfName(definitions: seq<string>, i: nat, n: nat)
    requires i < n <= |definitions|
  {
    forall j | i < j < n :: definitions[j] != definitions[i]
  }

  /** Each name has the values of the last definition that bears it, taken from under "data" if there is
      a map. */
  lemma {:induction false} GatherIsLatest(definitions: seq<string>, answers: seq<Read>, i: nat, n: nat)
    requires i < n <= |definitions| && LastOfName(definitions, i, n) && Gather(definitions, answers, n).Some?
    ensures var values := Gather(definitions, answers, n).value.values;
      && i < |answers| && answers[i].Got? && definitions[i] in values
      && (answers[i].inner.Some? ==> values[definitions[i]] == answers[i].inner.value)
      && (answers[i].inner.None? ==> values[definitions[i]] == answers[i].values)
  {
    if i < n - 1 {
      assert definitions[n - 1] != definitions[i];
      GatherIsLatest(definitions, answers, i, n - 1);
    }
  }

  /** There are no other names. */
  lemma {:induction false} GatherNamesDefinitions(definitions: seq<string>, answers: seq<Read>, n: nat, name: string)
    requires n <= |definitions| && Gather(definitions, answers, n).Some?
    requires name in Gather(definitions, answers, n).value.values
    ensures exists i | 0 <= i < n :: definitions[i] == name
  {
    if n > 0 && name != definitions[n - 1] {
      GatherNamesDefinitions(definitions, answers, n - 1, name);
    }
  }

  predicate AllRender(env: Setting, values: map<string, Values>) {
    forall k <- env.spec.stringData :: env.render(env.spec.stringData[k], values).Some?
  }

  function Rendered(env: Setting, values: map<string, Values>): map<Bytes, Bytes>
    requires AllRender(env, values)
  {
    map k | k in env.spec.stringData :: env.render(env.spec.stringData[k], values).value
  }

  /** Annotations of the spec win over the hash. */
  ghost function Formatted(env: Setting, values: map<string, Values>): Secret
    requires AllRender(env, values)
  {
    var data := Rendered(env, values);
    var annotations := map[HASH_ANNOTATION := HashData.Hash(env.sha, data)] + env.spec.annotations;
    Secret(data, Some(annotations), [Reference(env.spec)])
  }

  /** These answers of Vault can be gathered and rendered. */
  predicate Builds(env: Setting, answers: seq<Read>) {
    var g := Gather(env.spec.definitions, answers, |env.spec.definitions|);
    g.Some? && AllRender(env, g.value.values)
  }

  ghost function Built(env: Setting, answers: seq<Read>): Secret
    requires Builds(env, answers)
  {
    Formatted(env, Gather(env.spec.definitions, answers, |env.spec.definitions|).value.values)
  }

  ghost predicate OverridesHash(env: Setting, s: Secret) {
    HASH_ANNOTATION in env.spec.annotations && env.spec.annotations[HASH_ANNOTATION] != HashData.Hash(env.sha, s.data)
  }

  /** The annotations of the spec contradict the hash of some Secret that Vault's answers can bring about. */
  ghost predicate Overridable(env: Setting) {
    exists answers :: Builds(env, answers) && OverridesHash(env, Built(env, answers))
  }

  // ---- One cycle ----

  function DurationOf(spec: Spec, leases: seq<DefinitionStatus>): Option<int> {
    Duration(spec.refreshPeriod, spec.refreshThreshold, leases)
  }

  /** None stands for an error. */
  ghost function ShouldSync(env: Setting, calls: Calls, w: World): (r: Option<bool>)
    ensures r == Some(false) ==> w.resource.status.last.Some?
  {
    var status := w.resource.status;
    if !calls.lookup then None
    else if w.secret.None? then Some(true)
    else if !IsOwner(env.spec, w.secret.value) then None
    else if CycleSeesDrift(env.sha, w.secret.value) then Some(true)
    else if status.last.None? then Some(true)
    else
      var d := DurationOf(env.spec, status.leases);
      Some(d.Some? && status.last.value + d.value < w.now)
  }

  /** `leases` is missing if the attempt failed; `notified` tells whether the operator's own write
      queues the object again. */
  datatype Attempt = Attempt(w: World, leases: Option<seq<DefinitionStatus>>, notified: bool)

  ghost function Sync(env: Setting, calls: Calls, w: World): Attempt {
    if !Builds(env, calls.answers) || !calls.lookupAgain || calls.write.Refused? then Attempt(w, None, false)
    else
      var g := Gather(env.spec.definitions, calls.answers, |env.spec.definitions|);
      var s := Built(env, calls.answers);
      Attempt(w.(secret := Some(s), writes := w.writes + 1),
              if calls.write.Done? then Some(g.value.leases) else None,
              w.secret.Some? && UpdateQueues(env, s))
  }

  datatype Outcome = Outcome(w: World, result: Result, notified: bool)

  function Report(env: Setting, calls: Calls, w: World, status: Status, issue: bool, result: Result,
                  notified: bool): Outcome
  {
    var m := ManageOutcome(w.resource, w.resource.conditions, status, issue, true, env.spec.generation,
                           calls.status, calls.finalizer);
    Outcome(w.(resource := m.stored), if m.failed then Error else result, notified)
  }

  function Fail(env: Setting, calls: Calls, w: World, notified: bool): Outcome {
    Report(env, calls, w, w.resource.status, true, Error, notified)
  }

  function Delay(next: int, now: int): (r: int)
    ensures r > 0
  {
    if next - now > 0 then next - now else SECOND
  }

  /** `last` is the latest update as held in memory, `status` what becomes of it when stored. */
  function Conclude(env: Setting, calls: Calls, w: World, last: Option<int>, status: Status, notified: bool): Outcome
    requires last.Some?
  {
    match DurationOf(env.spec, status.leases)
    case None => Report(env, calls, w, status.(next := None), false, NoRequeue, notified)
    case Some(d) =>
      var next := last.value + d;
      Report(env, calls, w, status.(next := Some(Persisted(next, SECOND))), false,
             Requeue(Delay(next, w.now)), notified)
  }

  ghost function ReconcileLive(env: Setting, calls: Calls, w: World): Outcome {
    match ShouldSync(env, calls, w)
    case None => Fail(env, calls, w, false)
    case Some(false) => Conclude(env, calls, w, w.resource.status.last, w.resource.status, false)
    case Some(true) =>
      var a := Sync(env, calls, w);
      if a.leases.None? then Fail(env, calls, a.w, a.notified)
      else
        Conclude(env, calls, a.w, Some(w.now),
                 Status(Some(Persisted(w.now, SECOND)), w.resource.status.next, a.leases.value), a.notified)
  }

  /** Cleaning up deletes whatever has the name of the generated Secret. */
  function ReconcileTerminating(env: Setting, calls: Calls, w: World): Outcome {
    if !w.resource.finalizer then Outcome(w, NoRequeue, false)
    else
      var notified := calls.delete.Applied() && w.secret.Some? && DeletionQueues(env.spec, w.secret.value);
      var w' := if calls.delete.Applied() then w.(secret := None) else w;
      if !calls.delete.Done? then Fail(env, calls, w', notified)
      else
        var w'' := if calls.release.Applied() then w'.(resource := w'.resource.(finalizer := false)) else w';
        if calls.release.Done? then Outcome(w'', NoRequeue, notified) else Fail(env, calls, w'', notified)
  }

  // ---- Runs ----

  /** The work queue after a cycle, and the API server after the finalizer was released. */
  function Settle(o: Outcome): World {
    var w := if o.w.phase.Terminating? && !o.w.resource.finalizer then o.w.(phase := Gone) else o.w;
    match o.result
    case Error => w
    case NoRequeue => w.(queued := o.notified)
    case Requeue(after) => w.(queued := o.notified, due := Earlier(w.due, w.now + after))
  }

  function Advance(w: World, elapsed: nat): World {
    var now := w.now + elapsed;
    if w.due.Some? && w.due.value < now then w.(now := now, queued := true, due := None) else w.(now := now)
  }

  ghost function Step(env: Setting, w: World, e: Event): World {
    match e
    case Reconcile(calls) =>
      if !w.queued then w
      else (match w.phase
        case Live => Settle(ReconcileLive(env, calls, w))
        case Terminating => Settle(ReconcileTerminating(env, calls, w))
        case Gone => w.(queued := false))
    case Tick(elapsed) => Advance(w, elapsed)
    case Restart => w.(queued := true, due := None)
    case Resync => w.(queued := w.queued || (w.secret.Some? && UpdateQueues(env, w.secret.value)))
    case EditSecret(data, annotations) =>
      if w.secret.None? then w
      else
        var s := w.secret.value.(data := data, annotations := annotations);
        w.(secret := Some(s), queued := w.queued || UpdateQueues(env, s))
    case DeleteSecret =>
      if w.secret.None? then w
      else w.(secret := None, queued := w.queued || DeletionQueues(env.spec, w.secret.value))
    case ForeignCreate(secret) =>
      if w.secret.Some? || IsOwner(env.spec, secret) then w else w.(secret := Some(secret))
    case RequestDeletion =>
      if !w.phase.Live? then w
      else w.(phase := if w.resource.finalizer then Terminating else Gone, queued := true)
  }

  ghost function Run(env: Setting, w: World, events: seq<Event>): World
    decreases |events|
  {
    if events == [] then w else Run(env, Step(env, w, events[0]), events[1..])
  }

  predicate Initial(env: Setting, w: World) {
    && w.phase.Live? && w.resource == Stored([], Status(None, None, []), false)
    && w.queued && w.due.None? && w.writes == 0
    && (w.secret.Some? ==> !IsOwner(env.spec, w.secret.value))
  }

  // ---- Self-healing ----

  ghost predicate Healthy(env: Setting, w: World) {
    w.secret.Some? && IsOwner(env.spec, w.secret.value) && HashMatches(env.sha, w.secret.value)
  }

  /** A Secret that is ours has our reference as its only one. */
  predicate OwnersIntact(env: Setting, w: World) {
    w.secret.Some? && IsOwner(env.spec, w.secret.value) ==> w.secret.value.owners == [Reference(env.spec)]
  }

  ghost predicate Healing(env: Setting, w: World) {
    OwnersIntact(env, w) && (w.phase.Live? ==> w.queued || Healthy(env, w))
  }

  lemma OwnReference(env: Setting, s: Secret)
    requires s.owners == [Reference(env.spec)]
    ensures IsOwner(env.spec, s) && IsOwnedByController(s) && Routed(env.spec, s)
  {
    assert Refers(env.spec, s.owners[0]) && s.owners[0] in s.owners;
  }

  lemma FormattedIsHealthyIff(env: Setting, values: map<string, Values>)
    requires AllRender(env, values)
    ensures var s := Formatted(env, values);
      && IsOwner(env.spec, s) && IsOwnedByController(s) && Routed(env.spec, s)
      && (HashMatches(env.sha, s) <==> !OverridesHash(env, s))
  {
    OwnReference(env, Formatted(env, values));
  }

  lemma BuiltIsHealthyIff(env: Setting, answers: seq<Read>)
    requires Builds(env, answers)
    ensures var s := Built(env, answers);
      && IsOwner(env.spec, s) && IsOwnedByController(s) && Routed(env.spec, s) && s.owners == [Reference(env.spec)]
      && (HashMatches(env.sha, s) <==> !OverridesHash(env, s))
      && (OverridesHash(env, s) ==> Overridable(env))
  {
    FormattedIsHealthyIff(env, Gather(env.spec.definitions, answers, |env.spec.definitions|).value.values);
  }

  lemma SyncEffect(env: Setting, calls: Calls, w: World)
    ensures var a := Sync(env, calls, w);
      && a.w == w.(secret := a.w.secret, writes := a.w.writes)
      && (a.leases.Some? ==> a.w.writes == w.writes + 1)
      && if a.w.writes == w.writes + 1 then
           && Builds(env, calls.answers) && a.w.secret == Some(Built(env, calls.answers))
           && (a.notified <==> w.secret.Some? && UpdateQueues(env, Built(env, calls.answers)))
         else a.w == w && !a.notified
  {
    hide Builds, Built, Gather, UpdateQueues;
  }

  /** Recording an outcome changes nothing but the stored resource. */
  lemma ConcludeEffect(env: Setting, calls: Calls, w: World, last: Option<int>, status: Status, notified: bool)
    requires last.Some?
    ensures var o := Conclude(env, calls, w, last, status, notified);
      && o.w == w.(resource := o.w.resource) && o.notified == notified
      && (!o.result.Error? ==> o.w.resource.status.last == status.last && o.w.resource.status.leases == status.leases)
  {
    hide AddOrReplace, Duration;
  }

  /** A live cycle that does not fail has written the Secret it built, or found a healthy one. */
  lemma LiveEffect(env: Setting, calls: Calls, w: World)
    requires w.phase.Live?
    ensures var o := ReconcileLive(env, calls, w);
      && o.w == w.(resource := o.w.resource, secret := o.w.secret, writes := o.w.writes)
      && (if o.w.writes == w.writes + 1 then
            && Builds(env, calls.answers) && o.w.secret == Some(Built(env, calls.answers))
            && (o.notified <==> w.secret.Some? && UpdateQueues(env, Built(env, calls.answers)))
          else o.w.writes == w.writes && o.w.secret == w.secret && !o.notified)
      && (!o.result.Error? ==> o.w.writes == w.writes + 1 || Healthy(env, w))
      && (!o.result.Error? ==> o.w.resource.status.last.Some?)
      && (!o.result.Error? && o.w.writes == w.writes + 1 ==>
            o.w.resource.status.last == Some(Persisted(w.now, SECOND)))
  {
    hide Sync, Conclude, ManageOutcome, UpdateQueues, Builds, Built, CycleSeesDrift, HashMatches, IsOwner;
    match ShouldSync(env, calls, w)
    case None =>
    case Some(false) =>
      WatchAgreesWithCycle(env, w.secret.value);
      ConcludeEffect(env, calls, w, w.resource.status.last, w.resource.status, false);
    case Some(true) =>
      var a := Sync(env, calls, w);
      SyncEffect(env, calls, w);
      if a.leases.Some? {
        ConcludeEffect(env, calls, a.w, Some(w.now),
          Status(Some(Persisted(w.now, SECOND)), w.resource.status.next, a.leases.value), a.notified);
      }
  }

  lemma LiveHeals(env: Setting, calls: Calls, w: World)
    requires !Overridable(env) && OwnersIntact(env, w) && w.phase.Live? && w.queued
    ensures var o := ReconcileLive(env, calls, w);
      && OwnersIntact(env, o.w) && o.w.phase.Live? && o.w.queued
      && (!o.result.Error? ==> Healthy(env, o.w))
  {
    hide ReconcileLive, Builds, Built, OverridesHash, Overridable, HashMatches;
    LiveEffect(env, calls, w);
    if Builds(env, calls.answers) {
      BuiltIsHealthyIff(env, calls.answers);
    }
  }

  lemma TerminatingHeals(env: Setting, calls: Calls, w: World)
    requires OwnersIntact(env, w) && w.phase.Terminating?
    ensures var o := ReconcileTerminating(env, calls, w); OwnersIntact(env, o.w) && o.w.phase.Terminating?
  {
    hide ManageOutcome;
  }

  lemma StepHeals(env: Setting, w: World, e: Event)
    requires !Overridable(env) && Healing(env, w)
    ensures Healing(env, Step(env, w, e))
  {
    hide ReconcileLive, ReconcileTerminating, HashData.Hash;
    match e
    case Reconcile(calls) =>
      if w.phase.Terminating? {
        TerminatingHeals(env, calls, w);
      } else if w.phase.Live? && w.queued {
        LiveHeals(env, calls, w);
      }
    case EditSecret(data, annotations) =>
      if w.secret.Some? {
        var s := w.secret.value.(data := data, annotations := annotations);
        assert IsOwner(env.spec, s) <==> IsOwner(env.spec, w.secret.value);
        WatchAgreesWithCycle(env, s);
        if IsOwner(env.spec, s) {
          OwnReference(env, s);
        }
      }
    case DeleteSecret =>
      if w.secret.Some? && IsOwner(env.spec, w.secret.value) {
        OwnReference(env, w.secret.value);
      }
    case _ =>
  }

  lemma {:induction false} RunHeals(env: Setting, w: World, events: seq<Event>)
    requires !Overridable(env) && Healing(env, w)
    ensures Healing(env, Run(env, w, events))
    decreases |events|
  {
    if events != [] {
      StepHeals(env, w, events[0]);
      RunHeals(env, Step(env, w, events[0]), events[1..]);
    }
  }

  /** The object is queued while the Secret is missing, not ours, or its annotation is not the hash of its data. */
  ghost predicate SelfHealed(env: Setting, v: World) {
    v.phase.Live? && (v.secret.None? || !IsOwner(env.spec, v.secret.value) || !HashMatches(env.sha, v.secret.value))
    ==> v.queued
  }

  ghost predicate SelfHeals(env: Setting) {
    forall w, events | Initial(env, w) :: SelfHealed(env, Run(env, w, events))
  }

  lemma CreatingCycleSucceeds(env: Setting, w: World, calls: Calls)
    requires w.phase.Live? && w.queued && w.secret.None?
    requires Builds(env, calls.answers) && calls.lookup && calls.lookupAgain
    requires calls.write.Done? && calls.status.Done? && calls.finalizer.Done?
    ensures !ReconcileLive(env, calls, w).result.Error?
    ensures var v := Step(env, w, Reconcile(calls)); v.phase.Live? && v.writes == w.writes + 1
  {
    hide Builds, Built, Gather, UpdateQueues, Duration, AddOrReplace;
  }

  lemma RunOne(env: Setting, w: World, e: Event)
    ensures Run(env, w, [e]) == Step(env, w, e)
  {
    hide Step;
    assert [e][1..] == [];
  }

  /** A run of one cycle with these answers, in which all calls succeed. */
  lemma OverrideIsLeftAlone(env: Setting, answers: seq<Read>) returns (w: World, events: seq<Event>)
    requires Builds(env, answers) && OverridesHash(env, Built(env, answers))
    ensures Initial(env, w) && !SelfHealed(env, Run(env, w, events))
  {
    var calls := Calls(true, answers, true, Done, Done, Done, Done, Done);
    w := World(0, Live, Stored([], Status(None, None, []), false), None, true, None, 0);
    events := [Reconcile(calls)];
    hide Run, Step, ReconcileLive, Builds, Built, OverridesHash, HashMatches;
    CreatingCycleSucceeds(env, w, calls);
    OverrideEffects(env, w, calls);
    RunOne(env, w, Reconcile(calls));
  }

  /** Self-healing holds in every run, whatever others do to data and annotations of the Secret and
      whatever calls fail, if and only if the spec cannot override the hash. */
  lemma SelfHealingIff(env: Setting)
    ensures SelfHeals(env) <==> !Overridable(env)
  {
    if Overridable(env) {
      var answers :| Builds(env, answers) && OverridesHash(env, Built(env, answers));
      var w, events := OverrideIsLeftAlone(env, answers);
    } else {
      forall w, events | Initial(env, w)
        ensures SelfHealed(env, Run(env, w, events))
      {
        RunHeals(env, w, events);
      }
    }
  }

  /** So it holds for every spec that does not set the annotation. */
  lemma SelfHealing(env: Setting, w: World, events: seq<Event>)
    requires HASH_ANNOTATION !in env.spec.annotations && Initial(env, w)
    ensures SelfHealed(env, Run(env, w, events))
  {
    SelfHealingIff(env);
  }

  /** Whoever changes the data of a healthy Secret and keeps its hash either gets the object queued or
      has broken SHA-256. */
  lemma TamperingIsNoticed(env: Setting, w: World, data: map<Bytes, Bytes>, annotations: Option<map<string, string>>)
    returns (b: HashData.Break)
    requires HashData.Digests(env.sha) && OwnersIntact(env, w) && Healthy(env, w)
    requires data != w.secret.value.data
    requires annotations.Some? && HASH_ANNOTATION in annotations.value
    requires annotations.value[HASH_ANNOTATION] == w.secret.value.annotations.value[HASH_ANNOTATION]
    ensures Step(env, w, EditSecret(data, annotations)).queued || HashData.Breaks(env.sha, b)
  {
    b := HashData.ZeroPreimage([]);
    var s := w.secret.value.(data := data, annotations := annotations);
    OwnReference(env, s);
    if HashData.Hash(env.sha, data) == HashData.Hash(env.sha, w.secret.value.data) {
      b := HashData.BreakOfHashes(env.sha, data, w.secret.value.data);
    }
  }

  // ---- A spec that sets the hash annotation itself ----

  /** What a cycle that wrote the Secret and ended well leaves behind. If the spec overrides the hash
      with something else the Secret stays drifted: unnoticed until the next resync if it was created,
      and with the object queued again at once, for the same to happen again, if it was updated. */
  lemma OverrideEffects(env: Setting, w: World, calls: Calls)
    requires w.phase.Live? && w.queued
    ensures var o, v := ReconcileLive(env, calls, w), Step(env, w, Reconcile(calls));
      !o.result.Error? && v.writes > w.writes ==>
        && Builds(env, calls.answers) && v.secret == Some(Built(env, calls.answers))
        && (HashMatches(env.sha, v.secret.value) <==> !OverridesHash(env, Built(env, calls.answers)))
        && (v.queued <==> w.secret.Some? && OverridesHash(env, Built(env, calls.answers)))
        && (Step(env, v, Resync).queued <==> OverridesHash(env, Built(env, calls.answers)))
  {
    hide ReconcileLive, Builds, Built, OverridesHash, Overridable, IsOwner, HashMatches;
    LiveEffect(env, calls, w);
    if Builds(env, calls.answers) {
      BuiltIsHealthyIff(env, calls.answers);
      WatchAgreesWithCycle(env, Built(env, calls.answers));
    }
  }

  // ---- What is written ----

  /** The Secret holds, under the keys of the spec, the templates rendered with these values. */
  predicate HoldsRendered(env: Setting, s: Secret, values: map<string, Values>) {
    && s.data.Keys == env.spec.stringData.Keys
    && forall k <- env.spec.stringData :: env.render(env.spec.stringData[k], values) == Some(s.data[k])
  }

  /** Its annotations are those of the spec and, unless the spec sets it, the hash of its data. */
  ghost predicate HoldsAnnotations(env: Setting, s: Secret) {
    && s.annotations.Some?
    && s.annotations.value.Keys == env.spec.annotations.Keys + {HASH_ANNOTATION}
    && (forall k <- env.spec.annotations :: s.annotations.value[k] == env.spec.annotations[k])
    && (HASH_ANNOTATION !in env.spec.annotations ==>
          s.annotations.value[HASH_ANNOTATION] == HashData.Hash(env.sha, s.data))
  }

  lemma BuiltHolds(env: Setting, answers: seq<Read>)
    requires Builds(env, answers)
    ensures var g := Gather(env.spec.definitions, answers, |env.spec.definitions|);
      HoldsRendered(env, Built(env, answers), g.value.values)
    ensures HoldsAnnotations(env, Built(env, answers))
  {
    hide HashData.Hash, Gather;
  }

  /** A cycle that writes leaves a Secret that is ours and holds the templates rendered with what Vault
      answered: under the name of a definition, the values of the last one that bears it. */
  lemma WrittenIsRendered(env: Setting, w: World, calls: Calls)
    requires w.phase.Live? && w.queued && Step(env, w, Reconcile(calls)).writes > w.writes
    ensures var v := Step(env, w, Reconcile(calls)); var definitions, answers := env.spec.definitions, calls.answers;
      && v.secret.Some? && v.secret.value.owners == [Reference(env.spec)] && HoldsAnnotations(env, v.secret.value)
      && exists values ::
        && HoldsRendered(env, v.secret.value, values)
        && (forall name <- values :: name in definitions)
        && (forall i | 0 <= i < |definitions| && LastOfName(definitions, i, |definitions|) ::
              AnswersName(definitions[i], answers, i, values))
  {
    hide ReconcileLive, Built, Builds, HoldsRendered, HoldsAnnotations, HashMatches, OverridesHash, Overridable;
    var definitions := env.spec.definitions;
    LiveEffect(env, calls, w);
    BuiltIsHealthyIff(env, calls.answers);
    BuiltHolds(env, calls.answers);
    BuildsGathers(env, calls.answers);
    var values := Gather(definitions, calls.answers, |definitions|).value.values;
    forall name | name in values
      ensures name in definitions
    {
      GatherNamesDefinitions(definitions, calls.answers, |definitions|, name);
    }
    forall i | 0 <= i < |definitions| && LastOfName(definitions, i, |definitions|)
      ensures AnswersName(definitions[i], calls.answers, i, values)
    {
      GatherIsLatest(definitions, calls.answers, i, |definitions|);
    }
  }

  lemma BuildsGathers(env: Setting, answers: seq<Read>)
    requires Builds(env, answers)
    ensures Gather(env.spec.definitions, answers, |env.spec.definitions|).Some?
  {
  }

  /** The values under the name are those of this answer, taken from under "data" if there is a map. */
  predicate AnswersName(name: string, answers: seq<Read>, i: nat, values: map<string, Values>) {
    && i < |answers| && answers[i].Got? && name in values
    && (answers[i].inner.Some? ==> values[name] == answers[i].inner.value)
    && (answers[i].inner.None? ==> values[name] == answers[i].values)
  }

  /** These are the leases of the answers, in order. */
  predicate AreLeasesOf(leases: seq<DefinitionStatus>, definitions: seq<string>, answers: seq<Read>) {
    && |leases| == |definitions| <= |answers|
    && forall i | 0 <= i < |leases| ::
      answers[i].Got? && leases[i] == DefinitionStatus(definitions[i], answers[i].lease)
  }

  /** A cycle that ends well has the leases of the Secret on record: those of the answers if it wrote it,
      and otherwise those it found there. */
  lemma LeasesAreRecorded(env: Setting, w: World, calls: Calls)
    requires w.phase.Live? && !ReconcileLive(env, calls, w).result.Error?
    ensures var o := ReconcileLive(env, calls, w);
      if o.w.writes > w.writes then AreLeasesOf(o.w.resource.status.leases, env.spec.definitions, calls.answers)
      else o.w.resource.status.leases == w.resource.status.leases
  {
    hide Conclude, Fail, Gather, Built, UpdateQueues, CycleSeesDrift, IsOwner, Duration;
    GatherSucceedsIff(env.spec.definitions, calls.answers, |env.spec.definitions|);
    match ShouldSync(env, calls, w)
    case None => FailFails(env, calls, w, false);
    case Some(false) =>
      ConcludeEffect(env, calls, w, w.resource.status.last, w.resource.status, false);
    case Some(true) =>
      var a := Sync(env, calls, w);
      if a.leases.Some? {
        ConcludeEffect(env, calls, a.w, Some(w.now),
          Status(Some(Persisted(w.now, SECOND)), w.resource.status.next, a.leases.value), a.notified);
      } else {
        FailFails(env, calls, a.w, a.notified);
      }
  }

  lemma FailFails(env: Setting, calls: Calls, w: World, notified: bool)
    ensures Fail(env, calls, w, notified).result.Error?
  {
    hide ManageOutcome;
  }

  // ---- Every write has a reason ----

  /** The reasons for which a cycle may write the Secret. */
  ghost predicate Justified(env: Setting, w: World) {
    || w.secret.None?
    || (IsOwner(env.spec, w.secret.value) && !HashMatches(env.sha, w.secret.value))
    || (IsOwner(env.spec, w.secret.value) && w.resource.status.last.None?)
    || (IsOwner(env.spec, w.secret.value) && Elapsed(env, w))
  }

  ghost predicate Elapsed(env: Setting, w: World) {
    var d, last := DurationOf(env.spec, w.resource.status.leases), w.resource.status.last;
    last.Some? && d.Some? && last.value + d.value < w.now
  }

  /** The calls before the write bring a Secret about. */
  predicate Produces(env: Setting, calls: Calls) {
    calls.lookup && calls.lookupAgain && Builds(env, calls.answers)
  }

  /** A step writes the Secret exactly when it is a cycle of a live object that has a reason to, all
      definitions are read and rendered, and the write gets through; otherwise no step of the operator
      changes the Secret of a live object, and one that is not ours fails the cycle. */
  lemma WritesAreJustified(env: Setting, w: World, calls: Calls)
    requires w.phase.Live? && w.queued
    ensures var v := Step(env, w, Reconcile(calls));
      && (v.writes == w.writes + 1 <==> Justified(env, w) && Produces(env, calls) && calls.write.Applied())
      && (v.writes != w.writes + 1 ==> v.writes == w.writes && v.secret == w.secret)
    ensures w.secret.Some? && !IsOwner(env.spec, w.secret.value) ==>
      Step(env, w, Reconcile(calls)).secret == w.secret && ReconcileLive(env, calls, w).result.Error?
  {
    hide ManageOutcome, HashData.Hash;
    if w.secret.Some? {
      WatchAgreesWithCycle(env, w.secret.value);
    }
  }

  /** A cycle that ends well leaves a Secret that needs nothing until the duration has passed, unless it
      wrote one whose hash the spec overrides. */
  lemma SuccessIsFreshIff(env: Setting, w: World, calls: Calls)
    requires w.phase.Live? && w.queued && !ReconcileLive(env, calls, w).result.Error?
    ensures var v := Step(env, w, Reconcile(calls)); var last := v.resource.status.last;
      var d := DurationOf(env.spec, v.resource.status.leases);
      && last.Some?
      && (Fresh(env, v, if d.Some? then last.value + d.value else v.now) <==>
            v.writes == w.writes || !(Builds(env, calls.answers) && OverridesHash(env, Built(env, calls.answers))))
  {
    hide ReconcileLive, Builds, Built, OverridesHash, Overridable, Duration, HashMatches;
    LiveEffect(env, calls, w);
    if Builds(env, calls.answers) {
      BuiltIsHealthyIff(env, calls.answers);
    }
  }

  /** The cycle writes a Secret whose hash the spec overrides. */
  ghost predicate WritesOverridden(env: Setting, w: World, calls: Calls) {
    Step(env, w, Reconcile(calls)).writes > w.writes
    && Builds(env, calls.answers) && OverridesHash(env, Built(env, calls.answers))
  }

  /** A cycle at the time `now` writes. */
  ghost predicate WritesAt(env: Setting, v: World, now: int, calls: Calls) {
    Step(env, v.(queued := true, now := now), Reconcile(calls)).writes == v.writes + 1
  }

  /** After a cycle that ended well, one at the time `now` writes exactly if it can and the Secret is
      overridden or the duration has passed since the recorded update. */
  lemma NextWriteIff(env: Setting, w: World, calls: Calls, now: int, next: Calls)
    requires w.phase.Live? && w.queued && !ReconcileLive(env, calls, w).result.Error?
    ensures var v := Step(env, w, Reconcile(calls)); var last := v.resource.status.last;
      var d := DurationOf(env.spec, v.resource.status.leases);
      && last.Some?
      && (WritesAt(env, v, now, next) <==>
            && (WritesOverridden(env, w, calls) || (d.Some? && last.value + d.value < now))
            && Produces(env, next) && next.write.Applied())
  {
    hide ReconcileLive, Builds, Built, OverridesHash, Overridable, Duration, HashMatches, Produces;
    SuccessIsOwned(env, w, calls);
    WritesAreJustified(env, Step(env, w, Reconcile(calls)).(queued := true, now := now), next);
  }

  lemma SuccessIsOwned(env: Setting, w: World, calls: Calls)
    requires w.phase.Live? && w.queued && !ReconcileLive(env, calls, w).result.Error?
    ensures var v := Step(env, w, Reconcile(calls));
      && v.phase.Live? && v.now == w.now && v.secret.Some? && IsOwner(env.spec, v.secret.value)
      && v.resource.status.last.Some?
      && (HashMatches(env.sha, v.secret.value) <==> !WritesOverridden(env, w, calls))
      && (v.writes > w.writes ==> v.resource.status.last == Some(Persisted(w.now, SECOND)))
  {
    hide ReconcileLive, Builds, Built, OverridesHash, Overridable, HashMatches, IsOwner;
    LiveEffect(env, calls, w);
    if Builds(env, calls.answers) {
      BuiltIsHealthyIff(env, calls.answers);
    }
  }

  /** Right after a cycle that wrote and ended well, at the same instant, a cycle that can writes again
      exactly if the Secret is overridden or the duration is less than the fraction of a second that the
      recorded time has lost. */
  lemma WritesTwiceAtOnceIff(env: Setting, w: World, calls: Calls, next: Calls)
    requires w.phase.Live? && w.queued && !ReconcileLive(env, calls, w).result.Error?
    requires Step(env, w, Reconcile(calls)).writes > w.writes && Produces(env, next) && next.write.Applied()
    ensures var v := Step(env, w, Reconcile(calls)); var d := DurationOf(env.spec, v.resource.status.leases);
      WritesAt(env, v, w.now, next) <==> WritesOverridden(env, w, calls) || (d.Some? && d.value < w.now % SECOND)
  {
    hide Step, ReconcileLive, Duration, WritesOverridden, WritesAt;
    SuccessIsOwned(env, w, calls);
    NextWriteIff(env, w, calls, w.now, next);
  }

  /** Cycles that can write at all times after the recorded update exactly if the Secret is overridden or
      the duration is not positive, such as that of a lease of no duration. */
  lemma NeverRestsIff(env: Setting, w: World, calls: Calls, next: Calls)
    requires w.phase.Live? && w.queued && !ReconcileLive(env, calls, w).result.Error?
    requires Produces(env, next) && next.write.Applied()
    ensures var v := Step(env, w, Reconcile(calls)); var d := DurationOf(env.spec, v.resource.status.leases);
      && v.resource.status.last.Some?
      && ((forall now | v.resource.status.last.value < now :: WritesAt(env, v, now, next)) <==>
            WritesOverridden(env, w, calls) || (d.Some? && d.value <= 0))
  {
    hide Step, ReconcileLive, Duration, WritesOverridden, WritesAt;
    SuccessIsOwned(env, w, calls);
    var v := Step(env, w, Reconcile(calls));
    var last, d := v.resource.status.last.value, DurationOf(env.spec, v.resource.status.leases);
    forall now: int
      ensures WritesAt(env, v, now, next) <==> WritesOverridden(env, w, calls) || (d.Some? && last + d.value < now)
    {
      NextWriteIff(env, w, calls, now, next);
    }
    assert WritesAt(env, v, last + 1, next) <==> WritesOverridden(env, w, calls) || (d.Some? && d.value < 1);
  }

  function TotalElapsed(events: seq<Event>): nat
    decreases |events|
  {
    if events == [] then 0
    else (if events[0].Tick? then events[0].elapsed else 0) + TotalElapsed(events[1..])
  }

  /** A Secret that needs nothing before the time `until`. */
  ghost predicate Fresh(env: Setting, w: World, until: int) {
    var d, last := DurationOf(env.spec, w.resource.status.leases), w.resource.status.last;
    w.phase.Live? && Healthy(env, w) && last.Some? && (d.Some? ==> until <= last.value + d.value)
  }

  lemma FreshCycleIsQuiet(env: Setting, w: World, calls: Calls, until: int)
    requires Fresh(env, w, until) && w.now <= until && w.queued
    ensures var v := Step(env, w, Reconcile(calls));
      v.now == w.now && v.writes == w.writes && v.secret == w.secret && Fresh(env, v, until)
  {
    hide HashData.Hash;
    WatchAgreesWithCycle(env, w.secret.value);
  }

  /** After a successful synchronization, cycles, restarts, resyncs and the passage of time write nothing until
      the recorded time plus the duration has passed. */
  lemma {:induction false} QuietUntilDue(env: Setting, w: World, events: seq<Event>, until: int)
    requires Fresh(env, w, until) && w.now + TotalElapsed(events) <= until
    requires forall e <- events :: e.Reconcile? || e.Tick? || e.Restart? || e.Resync?
    ensures Run(env, w, events).writes == w.writes && Run(env, w, events).secret == w.secret
    decreases |events|
  {
    hide ReconcileLive, HashData.Hash;
    if events != [] {
      assert events[0] in events;
      if events[0].Reconcile? && w.queued {
        FreshCycleIsQuiet(env, w, events[0].calls, until);
      }
      QuietUntilDue(env, Step(env, w, events[0]), events[1..], until);
    }
  }

  // ---- Refreshing ----

  /** The timer is never lost: a live object with a duration that is not queued has a requeue pending
      that does not fall due later than a second after the end of the duration, or a second from now. */
  predicate Timed(env: Setting, w: World) {
    var d, last := DurationOf(env.spec, w.resource.status.leases), w.resource.status.last;
    && (w.due.Some? ==> w.now <= w.due.value)
    && (w.phase.Live? && !w.queued && d.Some? ==>
          last.Some? && w.due.Some? && (w.due.value <= last.value + d.value + SECOND || w.due.value <= w.now + SECOND))
  }

  lemma LiveKeepsTimed(env: Setting, calls: Calls, w: World)
    requires Timed(env, w) && w.phase.Live? && w.queued
    ensures var o := ReconcileLive(env, calls, w);
      && o.w.now == w.now && o.w.due == w.due && o.w.queued && o.w.phase.Live?
      && var d, last := DurationOf(env.spec, o.w.resource.status.leases), o.w.resource.status.last;
      && (o.result.NoRequeue? ==> d.None?)
      && (o.result.Requeue? ==> d.Some? && last.Some? && o.result.after > 0)
      && (o.result.Requeue? ==> last.value + d.value <= w.now + o.result.after)
      && (o.result.Requeue? ==> o.result.after <= last.value + d.value - w.now + SECOND || o.result.after <= SECOND)
  {
    hide HashData.Hash, Gather, Duration, IsOwner, CycleSeesDrift, UpdateQueues, AddOrReplace;
  }

  lemma TerminatingLeavesTimer(env: Setting, calls: Calls, w: World)
    ensures var o := ReconcileTerminating(env, calls, w);
      !o.result.Requeue? && o.w.now == w.now && o.w.due == w.due && o.w.phase == w.phase
  {
    hide ManageOutcome, DeletionQueues;
  }

  lemma StepKeepsTimed(env: Setting, w: World, e: Event)
    requires Timed(env, w)
    ensures Timed(env, Step(env, w, e))
  {
    hide ReconcileLive, ReconcileTerminating, Duration, IsOwner, UpdateQueues, DeletionQueues;
    if e.Reconcile? && w.queued {
      if w.phase.Live? {
        LiveKeepsTimed(env, e.calls, w);
      } else if w.phase.Terminating? {
        TerminatingLeavesTimer(env, e.calls, w);
      }
    }
  }

  /** In every run, through restarts, failures and interference of others. */
  lemma {:induction false} RefreshContinues(env: Setting, w: World, events: seq<Event>)
    requires Timed(env, w)
    ensures Timed(env, Run(env, w, events))
    decreases |events|
  {
    if events != [] {
      StepKeepsTimed(env, w, events[0]);
      RefreshContinues(env, Step(env, w, events[0]), events[1..]);
    }
  }

  lemma PersistedShift(t: int, k: int)
    ensures Persisted(t + k * SECOND, SECOND) == Persisted(t, SECOND) + k * SECOND
  {
  }

  lemma ConcludeIsWithinLeases(env: Setting, calls: Calls, w: World, last: int, status: Status, notified: bool)
    requires env.spec.refreshPeriod.None? && env.spec.refreshThreshold <= 100
    requires status.last == Some(last) || status.last == Some(Persisted(last, SECOND))
    ensures var o := Conclude(env, calls, w, Some(last), status, notified); var v := o.w.resource.status;
      o.result.Requeue? && (forall l <- v.leases :: l.leaseDuration >= 0) ==>
        v.last.Some? && v.next.Some? && forall l <- v.leases :: v.next.value <= v.last.value + l.leaseDuration * SECOND
  {
    hide AddOrReplace;
    WithinThresholdMeetsLeases(env.spec.refreshThreshold, status.leases);
    PersistedShift(last, Truncated(Smallest(status.leases) * env.spec.refreshThreshold, 100));
  }

  /** Without a refresh period, the next update that a successful cycle records lies within the lease of
      every definition, counted from the recorded latest update. */
  lemma NextUpdateIsWithinLeases(env: Setting, w: World, calls: Calls)
    requires env.spec.refreshPeriod.None? && env.spec.refreshThreshold <= 100
    ensures var o := ReconcileLive(env, calls, w); var v := o.w.resource.status;
      o.result.Requeue? && (forall l <- v.leases :: l.leaseDuration >= 0) ==>
        v.last.Some? && v.next.Some? && forall l <- v.leases :: v.next.value <= v.last.value + l.leaseDuration * SECOND
  {
    hide Conclude, Gather, HashData.Hash, AddOrReplace;
    match ShouldSync(env, calls, w)
    case None =>
    case Some(false) =>
      ConcludeIsWithinLeases(env, calls, w, w.resource.status.last.value, w.resource.status, false);
    case Some(true) =>
      var a := Sync(env, calls, w);
      if a.leases.Some? {
        ConcludeIsWithinLeases(env, calls, a.w, w.now,
          Status(Some(Persisted(w.now, SECOND)), w.resource.status.next, a.leases.value), a.notified);
      }
  }

  /** A duration that is not positive, such as that of a lease of no duration, makes every cycle write
      once the clock has moved on, and ask for the next one a second later. */
  lemma ZeroDurationNeverRests(env: Setting, w: World, calls: Calls)
    requires w.phase.Live? && w.queued && w.secret.Some? && IsOwner(env.spec, w.secret.value)
    requires var d := DurationOf(env.spec, w.resource.status.leases); d.Some? && d.value <= 0
    requires w.resource.status.last.Some? && w.resource.status.last.value < w.now && Produces(env, calls)
    ensures calls.write.Applied() ==> Step(env, w, Reconcile(calls)).writes == w.writes + 1
    ensures var o := ReconcileLive(env, calls, w); var d := DurationOf(env.spec, o.w.resource.status.leases);
      o.result.Requeue? && d.Some? && d.value <= 0 ==> o.result == Requeue(SECOND)
  {
    hide HashData.Hash, Duration;
    WritesAreJustified(env, w, calls);
  }

  // ---- Progress ----

  /** A cycle leaves a live object queued exactly if it fails or updates the Secret to one whose hash is
      overridden. */
  lemma QueuedIff(env: Setting, w: World, calls: Calls)
    requires w.queued && w.phase.Live?
    ensures Step(env, w, Reconcile(calls)).queued <==>
      ReconcileLive(env, calls, w).result.Error? || (w.secret.Some? && WritesOverridden(env, w, calls))
  {
    hide ReconcileLive, Builds, Built, OverridesHash, Overridable, HashMatches, IsOwner;
    LiveEffect(env, calls, w);
    if Builds(env, calls.answers) {
      BuiltIsHealthyIff(env, calls.answers);
      WatchAgreesWithCycle(env, Built(env, calls.answers));
    }
  }

  /** A cycle that fails to clean up is tried again. */
  lemma FailedDeletionIsRetried(env: Setting, w: World, calls: Calls)
    requires w.queued && w.phase.Terminating? && w.resource.finalizer
    ensures ReconcileTerminating(env, calls, w).result.Error? <==> !(calls.delete.Done? && calls.release.Done?)
    ensures ReconcileTerminating(env, calls, w).result.Error? ==> Step(env, w, Reconcile(calls)).queued
  {
    hide ManageOutcome;
  }

  /** A live cycle ends well exactly if the Secret is missing or ours, what there is reason to write gets
      written, and the outcome and a missing finalizer get stored. */
  lemma LiveSucceedsIff(env: Setting, w: World, calls: Calls)
    requires w.phase.Live?
    ensures !ReconcileLive(env, calls, w).result.Error? <==>
      && calls.lookup && (w.secret.Some? ==> IsOwner(env.spec, w.secret.value))
      && (Justified(env, w) ==> Produces(env, calls) && calls.write.Done?)
      && calls.status.Done? && (!w.resource.finalizer ==> calls.finalizer.Done?)
  {
    hide HashData.Hash, Gather, Builds, Built, UpdateQueues, AddOrReplace, Duration, IsOwner;
    if w.secret.Some? {
      WatchAgreesWithCycle(env, w.secret.value);
    }
  }

  /** What a cycle that ends well records as the next update: none without a duration, and otherwise the
      end of the duration from the recorded update on, up to a second. */
  lemma NextUpdateIsRecorded(env: Setting, w: World, calls: Calls)
    requires w.phase.Live? && !ReconcileLive(env, calls, w).result.Error?
    ensures var status := ReconcileLive(env, calls, w).w.resource.status;
      var d := DurationOf(env.spec, status.leases);
      && status.last.Some? && (status.next.Some? <==> d.Some?)
      && (d.Some? ==> -SECOND < status.next.value - (status.last.value + d.value) < SECOND)
  {
    hide HashData.Hash, Gather, Builds, Built, UpdateQueues, AddOrReplace, Duration, IsOwner, CycleSeesDrift;
  }

  /** If the name is free or ours and all calls succeed, one cycle ends well, with finalizer and success on
      record and a Secret that is healthy unless its hash is overridden. */
  lemma SuccessfulCycleSettles(env: Setting, w: World, calls: Calls)
    requires w.phase.Live? && w.queued && (w.secret.Some? ==> IsOwner(env.spec, w.secret.value))
    requires Produces(env, calls) && calls.write.Done? && calls.status.Done? && calls.finalizer.Done?
    requires OnePerKind(w.resource.conditions)
    ensures var v := Step(env, w, Reconcile(calls));
      && v.resource.finalizer && Succeeded(v.resource.conditions) && v.resource.status.last.Some?
      && (Healthy(env, v) <==> !WritesOverridden(env, w, calls))
  {
    hide Builds, Built, OverridesHash, Overridable, HashMatches, Duration, CycleSeesDrift, IsOwner;
    hide Gather, UpdateQueues;
    AllDoneSucceeds(env, w, calls);
    SuccessIsOwned(env, w, calls);
  }

  lemma AllDoneSucceeds(env: Setting, w: World, calls: Calls)
    requires w.phase.Live? && (w.secret.Some? ==> IsOwner(env.spec, w.secret.value))
    requires Produces(env, calls) && calls.write.Done? && calls.status.Done? && calls.finalizer.Done?
    requires OnePerKind(w.resource.conditions)
    ensures var o := ReconcileLive(env, calls, w);
      !o.result.Error? && o.w.resource.finalizer && Succeeded(o.w.resource.conditions) && o.w.phase.Live?
  {
    hide Builds, Built, Duration, CycleSeesDrift, IsOwner, Gather, UpdateQueues, AddOrReplace;
    SuccessIsRemembered(OutcomeCondition(false, env.spec.generation), w.resource.conditions);
  }

  /** If its calls succeed, one cycle of a terminating object lets the object and the Secret go. */
  lemma SuccessfulDeletionCompletes(env: Setting, w: World, calls: Calls)
    requires w.phase.Terminating? && w.queued && w.resource.finalizer && calls.delete.Done? && calls.release.Done?
    ensures var v := Step(env, w, Reconcile(calls)); v.phase.Gone? && v.secret.None?
  {
  }

  // ---- Deletion ----

  /** A cycle of a terminating object deletes the Secret exactly if our finalizer is there and the
      call gets through: it does not matter whose Secret it is. */
  lemma CleanUpDeletesIff(env: Setting, w: World, calls: Calls)
    requires w.phase.Terminating? && w.queued && w.secret.Some?
    ensures var v := Step(env, w, Reconcile(calls));
      && (v.secret.None? <==> w.resource.finalizer && calls.delete.Applied())
      && (v.secret.Some? ==> v.secret == w.secret)
  {
    hide ManageOutcome;
  }

  /** A Secret of somebody else that took the name is deleted along with the object. */
  lemma CleanUpDeletesForeignSecret(env: Setting, w: World, foreign: Secret, c: Calls)
    requires w.phase.Live? && w.resource.finalizer && w.secret.None? && !IsOwner(env.spec, foreign)
    ensures var v := Run(env, w, [ForeignCreate(foreign), RequestDeletion]);
      && v.secret == Some(foreign)
      && Run(env, v, [Reconcile(c.(delete := Done, release := Done))]).secret.None?
      && Run(env, v, [Reconcile(c.(delete := Done, release := Done))]).phase.Gone?
  {
    var events := [ForeignCreate(foreign), RequestDeletion];
    var w1 := Step(env, w, ForeignCreate(foreign));
    var v := Step(env, w1, RequestDeletion);
    assert events[1..] == [RequestDeletion] && events[1..][1..] == [];
    assert Run(env, w, events) == Run(env, w1, [RequestDeletion]);
    assert Run(env, w1, [RequestDeletion]) == Run(env, v, []);
    var last := Reconcile(c.(delete := Done, release := Done));
    assert Run(env, v, [last]) == Run(env, Step(env, v, last), []);
  }
}
