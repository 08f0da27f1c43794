/** Root-password rotation of a database engine configuration:
    controllers/databasesecretengineconfig_controller.go and
    api/v1alpha1/databasesecretengineconfig_types.go. */
module DatabaseRotation {
  import opened Basics
  import opened Persistence

  datatype Value = Text(text: string) | Flag(flag: bool) | List(items: seq<string>)

  datatype SourceKind = FromRandomSecret | FromSecret | FromVaultSecret | NoSource

  datatype Credentials = Credentials(username: string, password: string)

  datatype Spec = Spec(
    pluginName: string, pluginVersion: string, verifyConnection: bool,
    allowedRoles: seq<string>, rotationStatements: seq<string>, passwordPolicy: string,
    connectionUrl: string, username: string, disableEscaping: bool,
    specific: map<string, string>,  // databaseSpecificConfig
    source: SourceKind,
    enable: bool, period: int,      // rootPasswordRotation; a period of 0 stands for none
    generation: int,
    tick: int)                      // granularity of a stored timestamp

  // ---- The configuration payload ----

  function Before(spec: Spec): map<string, Value> {
    map["plugin_name" := Text(spec.pluginName), "plugin_version" := Text(spec.pluginVersion),
        "verify_connection" := Flag(spec.verifyConnection), "allowed_roles" := List(spec.allowedRoles),
        "root_credentials_rotate_statements" := List(spec.rotationStatements),
        "password_policy" := Text(spec.passwordPolicy), "connection_url" := Text(spec.connectionUrl)]
  }

  function Specific(specific: map<string, string>): map<string, Value> {
    map k | k in specific :: Text(specific[k])
  }

  function TextUnlessEmpty(key: string, value: string): map<string, Value> {
    if value != "" then map[key := Text(value)] else map[]
  }

  lemma PutIsMerge(m: map<string, Value>, key: string, value: Value)
    ensures m[key := value] == m + map[key := value]
  {
  }

  /** Later settings win: database-specific ones over the plain ones, credentials over both. */
  function ToMap(spec: Spec, retrieved: Credentials): map<string, Value> {
    Before(spec) + Specific(spec.specific)
      + TextUnlessEmpty("username", if spec.username != "" then spec.username else retrieved.username)
      + map["disable_escaping" := Flag(spec.disableEscaping)]
      + TextUnlessEmpty("password", retrieved.password)
  }

  /** A payload carries a password only if one was retrieved or is set as database-specific. */
  lemma PayloadHasPasswordIff(spec: Spec, retrieved: Credentials)
    ensures "password" in ToMap(spec, retrieved) <==> retrieved.password != "" || "password" in spec.specific
    ensures "password" in ToMap(spec, retrieved) ==>
      ToMap(spec, retrieved)["password"] ==
        Text(if retrieved.password != "" then retrieved.password else spec.specific["password"])
  {
    assert "password" !in Before(spec) by {
      assert |"password"| == 8;
      forall k | k in Before(spec) ensures |k| != 8 {}
    }
    assert "username"[0] != "password"[0];
    assert |"disable_escaping"| == 16;
  }

  const PLAIN_KEYS := {
    "plugin_name", "plugin_version", "verify_connection", "allowed_roles", "root_credentials_rotate_statements",
    "password_policy", "connection_url"
  }

  /** Unless a database-specific setting replaces it, a plain setting is as in the spec. */
  lemma PlainSettings(spec: Spec, retrieved: Credentials)
    ensures var p, s := ToMap(spec, retrieved), spec.specific;
      && PLAIN_KEYS <= p.Keys
      && ("plugin_name" !in s ==> p["plugin_name"] == Text(spec.pluginName))
      && ("plugin_version" !in s ==> p["plugin_version"] == Text(spec.pluginVersion))
      && ("verify_connection" !in s ==> p["verify_connection"] == Flag(spec.verifyConnection))
      && ("allowed_roles" !in s ==> p["allowed_roles"] == List(spec.allowedRoles))
      && ("root_credentials_rotate_statements" !in s ==>
            p["root_credentials_rotate_statements"] == List(spec.rotationStatements))
      && ("password_policy" !in s ==> p["password_policy"] == Text(spec.passwordPolicy))
      && ("connection_url" !in s ==> p["connection_url"] == Text(spec.connectionUrl))
  {
    hide ToMap;
    assert PLAIN_KEYS == Before(spec).Keys;
    forall key | key in PLAIN_KEYS
      ensures PlainKeySurvives(spec, retrieved, key)
    {
      PlainKey(spec, retrieved, key);
    }
    assert PlainKeySurvives(spec, retrieved, "plugin_name") && PlainKeySurvives(spec, retrieved, "plugin_version");
    assert PlainKeySurvives(spec, retrieved, "verify_connection") && PlainKeySurvives(spec, retrieved, "allowed_roles");
    assert PlainKeySurvives(spec, retrieved, "root_credentials_rotate_statements");
    assert PlainKeySurvives(spec, retrieved, "password_policy") && PlainKeySurvives(spec, retrieved, "connection_url");
  }

  predicate PlainKeySurvives(spec: Spec, retrieved: Credentials, key: string)
    requires key in Before(spec)
  {
    key in ToMap(spec, retrieved) && (key !in spec.specific ==> ToMap(spec, retrieved)[key] == Before(spec)[key])
  }

  lemma PlainKey(spec: Spec, retrieved: Credentials, key: string)
    requires key in PLAIN_KEYS
    ensures key in Before(spec) && PlainKeySurvives(spec, retrieved, key)
  {
    PlainKeys(spec);
    hide Before;
    var name := if spec.username != "" then spec.username else retrieved.username;
    Layers(Before(spec), Specific(spec.specific), TextUnlessEmpty("username", name),
           map["disable_escaping" := Flag(spec.disableEscaping)], TextUnlessEmpty("password", retrieved.password), key);
  }

  lemma PlainKeys(spec: Spec)
    ensures Before(spec).Keys == PLAIN_KEYS
    ensures "username" !in PLAIN_KEYS && "password" !in PLAIN_KEYS && "disable_escaping" !in PLAIN_KEYS
  {
  }

  lemma Layers(a: map<string, Value>, b: map<string, Value>, c: map<string, Value>, d: map<string, Value>,
               e: map<string, Value>, key: string)
    requires key in a && key !in c && key !in d && key !in e
    ensures key in a + b + c + d + e
    ensures (a + b + c + d + e)[key] == if key in b then b[key] else a[key]
  {
  }

  /** Database-specific settings yield only to credentials and to the escaping flag, and there are no other
      keys than all these. */
  lemma SpecificSettings(spec: Spec, retrieved: Credentials, key: string)
    ensures var p, late := ToMap(spec, retrieved), {"username", "password", "disable_escaping"};
      && (key in spec.specific && key !in late ==> key in p && p[key] == Text(spec.specific[key]))
      && (key in p ==> key in PLAIN_KEYS || key in spec.specific || key in late)
      && "disable_escaping" in p && p["disable_escaping"] == Flag(spec.disableEscaping)
  {
    assert PLAIN_KEYS == Before(spec).Keys;
    assert "disable_escaping" != "password" && "disable_escaping" != "username";
  }

  /** The user name of the spec wins over the retrieved one, and that over a database-specific one. */
  lemma UsernameSettings(spec: Spec, retrieved: Credentials)
    ensures var p, name := ToMap(spec, retrieved), if spec.username != "" then spec.username else retrieved.username;
      && ("username" in p <==> name != "" || "username" in spec.specific)
      && ("username" in p ==> p["username"] == Text(if name != "" then name else spec.specific["username"]))
  {
    assert "username" !in PLAIN_KEYS && PLAIN_KEYS == Before(spec).Keys;
    assert "username"[0] != "password"[0];
    assert |"disable_escaping"| == 16 && |"username"| == 8;
  }

  /** SetUsernameAndPassword after a successful retrieval; nothing is retrieved once a rotation is on record. */
  function Retrieved(spec: Spec, source: Credentials, recorded: bool): Credentials {
    if recorded then Credentials("", "")
    else if spec.source.FromRandomSecret? || spec.username != "" then Credentials(spec.username, source.password)
    else source
  }

  // ---- The world ----

  datatype Status = Status(lastRotation: Option<int>)

  datatype World = World(
    now: int,
    resource: Stored<Status>,
    source: Credentials,            // what the credentials source holds
    configured: bool,               // Vault holds a configuration
    vaultPassword: Option<string>,  // the password in it
    dbPassword: string,             // the password the database accepts
    rotations: nat,                 // rotations carried out
    recorded: seq<int>,             // the values lastRotation has had in the stored status
    payloads: seq<map<string, Value>>,  // the configurations written to Vault
    due: Option<int>)               // when the latest scheduled requeue falls due

  /** What happens to the calls of one cycle; `newPassword` is what a rotation would choose. */
  datatype Calls = Calls(
    retrieve: bool, read: bool, equivalent: bool, write: CallOutcome,
    status: CallOutcome, finalizer: CallOutcome,
    rotate: CallOutcome, newPassword: string, record: CallOutcome, retryStatus: CallOutcome)

  datatype Event = Reconcile(calls: Calls) | Tick(elapsed: nat) | ChangeSource(source: Credentials)

  // ---- One cycle ----

  datatype Configured = Configured(w: World, failed: bool)

  /** The generic cycle that comes first: credentials, configuration, outcome. */
  function Configure(spec: Spec, calls: Calls, w: World): Configured {
    var recorded := w.resource.status.lastRotation.Some?;
    var prepared := recorded || (!spec.source.NoSource? && calls.retrieve);
    var payload := ToMap(spec, Retrieved(spec, w.source, recorded));
    var writes := prepared && calls.read && !(w.configured && calls.equivalent);
    var w' :=
      if writes && calls.write.Applied() then
        w.(configured := true, payloads := w.payloads + [payload],
           vaultPassword := if "password" in payload && payload["password"].Text? then Some(payload["password"].text)
                            else w.vaultPassword)
      else w;
    var issue := !prepared || !calls.read || (writes && !calls.write.Done?);
    var m := ManageOutcome(w'.resource, w'.resource.conditions, w'.resource.status, issue, true,
                           spec.generation, calls.status, calls.finalizer);
    Configured(w'.(resource := m.stored), m.failed)
  }

  /** More than 95% of the period has passed: the quotient of elapsed time and period exceeds 0.95. */
  predicate TimeToRotate(now: int, last: int, period: int) {
    if period > 0 then 20 * (now - last) > 19 * period else 20 * (now - last) < 19 * period
  }

  predicate NeedsRotation(spec: Spec, w: World) {
    spec.enable &&
    match w.resource.status.lastRotation
    case None => true
    case Some(last) => spec.period != 0 && TimeToRotate(w.now, last, spec.period)
  }

  /** Vault logs in to the database with the password it holds and sets a new one. */
  predicate CanRotate(w: World) {
    w.configured && w.vaultPassword == Some(w.dbPassword)
  }

  /** Stores the status held in memory, in which the rotation is dated now. */
  function Record(spec: Spec, w: World, conditions: seq<Condition>): World
    requires spec.tick >= 1
  {
    var stamp := Persisted(w.now, spec.tick);
    w.(resource := w.resource.(conditions := conditions, status := Status(Some(stamp))),
       recorded := w.recorded + [stamp])
  }

  datatype Rotated = Rotated(w: World, result: Result)

  function Rotate(spec: Spec, calls: Calls, w: World): Rotated
    requires spec.tick >= 1
  {
    var applied := CanRotate(w) && calls.rotate.Applied();
    var w1 :=
      if applied then
        w.(vaultPassword := Some(calls.newPassword), dbPassword := calls.newPassword, rotations := w.rotations + 1)
      else w;
    var failure := AddOrReplace(OutcomeCondition(true, spec.generation), w1.resource.conditions);
    if !(applied && calls.rotate.Done?) then
      Rotated(if calls.retryStatus.Applied() then w1.(resource := w1.resource.(conditions := failure)) else w1, Error)
    else
      var w2 := if calls.record.Applied() then Record(spec, w1, w1.resource.conditions) else w1;
      if calls.record.Done? then Rotated(w2, if spec.period != 0 then Requeue(spec.period) else NoRequeue)
      // reporting the failure stores the status in memory once more
      else if calls.retryStatus.Refused? then Rotated(w2, Error)
      else if calls.record.Applied() then Rotated(w2.(resource := w2.resource.(conditions := failure)), Error)
      else Rotated(Record(spec, w2, failure), Error)
  }

  function Cycle(spec: Spec, calls: Calls, w: World): Rotated
    requires spec.tick >= 1
  {
    var c := Configure(spec, calls, w);
    if c.failed then Rotated(c.w, Error)
    else if NeedsRotation(spec, c.w) then Rotate(spec, calls, c.w)
    else if spec.enable && spec.period != 0 && c.w.resource.status.lastRotation.Some? then
      Rotated(c.w, Requeue(c.w.resource.status.lastRotation.value + spec.period - c.w.now))
    else Rotated(c.w, NoRequeue)
  }

  function Step(spec: Spec, w: World, e: Event): World
    requires spec.tick >= 1
  {
    match e
    case Reconcile(calls) =>
      var r := Cycle(spec, calls, w);
      r.w.(due := if r.result.Requeue? && r.result.after > 0 then Some(w.now + r.result.after) else None)
    case Tick(elapsed) => w.(now := w.now + elapsed)
    case ChangeSource(source) => w.(source := source)
  }

  function Run(spec: Spec, w: World, events: seq<Event>): World
    requires spec.tick >= 1
    decreases |events|
  {
    if events == [] then w else Run(spec, Step(spec, w, events[0]), events[1..])
  }

  predicate Initial(w: World) {
    && w.resource == Stored([], Status(None), false) && !w.configured && w.vaultPassword.None?
    && w.rotations == 0 && w.recorded == [] && w.payloads == [] && w.due.None?
  }

  // ---- What every step keeps ----

  /** Up to the granularity of stored timestamps, a recorded rotation comes more than 95% of the
      period after the one before. */
  predicate Gap(spec: Spec, recorded: seq<int>, i: nat)
    requires 0 < i < |recorded|
  {
    spec.period > 0 && 20 * (recorded[i] - recorded[i - 1] + spec.tick - 1) > 19 * spec.period
  }

  predicate Spaced(spec: Spec, recorded: seq<int>) {
    forall i | 0 < i < |recorded| :: Gap(spec, recorded, i)
  }

  predicate Inv(spec: Spec, w: World) {
    && w.resource.status.lastRotation == (if w.recorded == [] then None else Some(w.recorded[|w.recorded| - 1]))
    && (w.recorded != [] ==> w.recorded[|w.recorded| - 1] <= w.now && spec.enable)
    && Spaced(spec, w.recorded)
    && (w.recorded != [] && "password" !in spec.specific ==> w.configured && w.vaultPassword == Some(w.dbPassword))
  }

  lemma ConfigureKeeps(spec: Spec, calls: Calls, w: World)
    requires Inv(spec, w)
    ensures var c := Configure(spec, calls, w);
      && Inv(spec, c.w) && c.w.recorded == w.recorded && c.w.rotations == w.rotations && c.w.now == w.now
      && c.w.resource.status == w.resource.status && c.w.dbPassword == w.dbPassword
      && (w.recorded != [] && "password" !in spec.specific ==> c.w.vaultPassword == w.vaultPassword)
  {
    PayloadHasPasswordIff(spec, Retrieved(spec, w.source, w.resource.status.lastRotation.Some?));
  }

  lemma RecordKeeps(spec: Spec, w: World, conditions: seq<Condition>)
    requires spec.tick >= 1 && Inv(spec, w) && NeedsRotation(spec, w) && CanRotate(w)
    ensures Inv(spec, Record(spec, w, conditions))
  {
    var v := Record(spec, w, conditions);
    forall i | 0 < i < |v.recorded|
      ensures Gap(spec, v.recorded, i)
    {
      if i < |w.recorded| {
        assert Gap(spec, w.recorded, i);
      }
    }
  }

  lemma RotateKeeps(spec: Spec, calls: Calls, w: World)
    requires spec.tick >= 1 && Inv(spec, w) && NeedsRotation(spec, w)
    ensures Inv(spec, Rotate(spec, calls, w).w)
  {
    if CanRotate(w) && calls.rotate.Applied() {
      var w1 := w.(vaultPassword := Some(calls.newPassword), dbPassword := calls.newPassword,
                   rotations := w.rotations + 1);
      var failure := AddOrReplace(OutcomeCondition(true, spec.generation), w1.resource.conditions);
      assert Inv(spec, w1);
      RecordKeeps(spec, w1, w1.resource.conditions);
      RecordKeeps(spec, w1, failure);
    }
  }

  lemma StepKeepsInv(spec: Spec, w: World, e: Event)
    requires spec.tick >= 1 && Inv(spec, w)
    ensures Inv(spec, Step(spec, w, e))
  {
    hide Configure, Rotate;
    if e.Reconcile? {
      ConfigureKeeps(spec, e.calls, w);
      var c := Configure(spec, e.calls, w);
      if !c.failed && NeedsRotation(spec, c.w) {
        RotateKeeps(spec, e.calls, c.w);
      }
    }
  }

  lemma {:induction false} RunKeepsInv(spec: Spec, w: World, events: seq<Event>)
    requires spec.tick >= 1 && Inv(spec, w)
    ensures Inv(spec, Run(spec, w, events))
    decreases |events|
  {
    if events != [] {
      StepKeepsInv(spec, w, events[0]);
      RunKeepsInv(spec, Step(spec, w, events[0]), events[1..]);
    }
  }

  // ---- Main results: time ----

  /** In every run, whatever fails: consecutive recorded rotations are more than 95% of the period
      apart, and without a period at most one is recorded. */
  lemma RotationsAreSpaced(spec: Spec, w: World, events: seq<Event>)
    requires spec.tick >= 1 && Initial(w)
    ensures Spaced(spec, Run(spec, w, events).recorded)
    ensures spec.period <= 0 ==> |Run(spec, w, events).recorded| <= 1
  {
    RunKeepsInv(spec, w, events);
    var recorded := Run(spec, w, events).recorded;
    if |recorded| > 1 {
      assert Gap(spec, recorded, 1);
    }
  }

  /** Without a period no password is rotated any more once a rotation is on record. */
  lemma {:induction false} OneRotationWithoutPeriod(spec: Spec, w: World, events: seq<Event>)
    requires spec.tick >= 1 && spec.period == 0 && Inv(spec, w) && w.recorded != []
    ensures var v := Run(spec, w, events); v.rotations == w.rotations && v.recorded == w.recorded
    decreases |events|
  {
    if events != [] {
      StepKeepsInv(spec, w, events[0]);
      if events[0].Reconcile? {
        ConfigureKeeps(spec, events[0].calls, w);
      }
      OneRotationWithoutPeriod(spec, Step(spec, w, events[0]), events[1..]);
    }
  }

  /** A rotation that happened is known to the operator, and one of the two attempts to store it gets through. */
  predicate RecordSurvives(e: Event) {
    e.Reconcile? ==> !e.calls.rotate.ReplyLost? && (e.calls.record.Applied() || e.calls.retryStatus.Applied())
  }

  lemma RotateRecords(spec: Spec, calls: Calls, w: World)
    requires spec.tick >= 1 && RecordSurvives(Reconcile(calls))
    ensures var v := Rotate(spec, calls, w).w; v.rotations - |v.recorded| == w.rotations - |w.recorded|
  {
    hide AddOrReplace;
  }

  lemma StepRecords(spec: Spec, w: World, e: Event)
    requires spec.tick >= 1 && RecordSurvives(e)
    ensures var v := Step(spec, w, e); v.rotations - |v.recorded| == w.rotations - |w.recorded|
  {
    hide Rotate, ManageOutcome, ToMap;
    if e.Reconcile? {
      RotateRecords(spec, e.calls, Configure(spec, e.calls, w).w);
    }
  }

  lemma {:induction false} RunRecords(spec: Spec, w: World, events: seq<Event>)
    requires spec.tick >= 1 && forall e <- events :: RecordSurvives(e)
    ensures var v := Run(spec, w, events); v.rotations - |v.recorded| == w.rotations - |w.recorded|
    decreases |events|
  {
    if events != [] {
      StepRecords(spec, w, events[0]);
      RunRecords(spec, Step(spec, w, events[0]), events[1..]);
    }
  }

  /** If no record of a rotation is lost, rotations and records agree in number, so that without a
      period the password is rotated at most once. */
  lemma EveryRotationIsRecorded(spec: Spec, w: World, events: seq<Event>)
    requires spec.tick >= 1 && Initial(w) && forall e <- events :: RecordSurvives(e)
    ensures Run(spec, w, events).rotations == |Run(spec, w, events).recorded|
    ensures spec.period <= 0 ==> Run(spec, w, events).rotations <= 1
  {
    RunRecords(spec, w, events);
    RotationsAreSpaced(spec, w, events);
  }

  /** Every cycle that ends well schedules the next one: at most a period ahead, and no sooner than
      5% of the period. */
  lemma RequeueIsBounded(spec: Spec, calls: Calls, w: World)
    requires spec.tick >= 1 && Inv(spec, w) && spec.enable && spec.period > 0
    ensures var r := Cycle(spec, calls, w).result;
      !r.Error? ==> r.Requeue? && spec.period <= 20 * r.after && 0 < r.after <= spec.period
  {
    ConfigureKeeps(spec, calls, w);
  }

  predicate AllSucceed(calls: Calls) {
    calls.retrieve && calls.read && calls.write.Done? && calls.status.Done? && calls.finalizer.Done?
    && calls.rotate.Done? && calls.record.Done?
  }

  /** Requeues fire with a delay of at most `delay`: no reached state is later than that. */
  predicate Timely(spec: Spec, w: World, events: seq<Event>, delay: nat)
    requires spec.tick >= 1
    decreases |events|
  {
    && (w.due.Some? ==> w.now <= w.due.value + delay)
    && (events != [] ==> Timely(spec, Step(spec, w, events[0]), events[1..], delay))
  }

  /** A requeue is pending that leaves the next rotation in time. */
  predicate Scheduled(spec: Spec, w: World) {
    w.recorded != [] ==>
      w.due.Some? && w.due.value <= w.recorded[|w.recorded| - 1] + spec.period + spec.tick - 1
  }

  /** A recorded rotation comes at most `bound` after the one before. */
  predicate Close(recorded: seq<int>, i: nat, bound: int)
    requires 0 < i < |recorded|
  {
    recorded[i] <= recorded[i - 1] + bound
  }

  predicate AllClose(recorded: seq<int>, bound: int) {
    forall i | 0 < i < |recorded| :: Close(recorded, i, bound)
  }

  lemma SuccessReschedules(spec: Spec, calls: Calls, w: World)
    requires spec.tick >= 1 && Inv(spec, w) && spec.enable && spec.period > 0 && AllSucceed(calls)
    requires "password" !in spec.specific
    ensures var v := Step(spec, w, Reconcile(calls));
      && Scheduled(spec, v)
      && (v.recorded == w.recorded || v.recorded == w.recorded + [Persisted(w.now, spec.tick)])
  {
    ConfigureKeeps(spec, calls, w);
  }

  lemma AppendKeepsClose(recorded: seq<int>, stamp: int, bound: int)
    requires AllClose(recorded, bound)
    requires recorded != [] ==> stamp <= recorded[|recorded| - 1] + bound
    ensures AllClose(recorded + [stamp], bound)
  {
    var r := recorded + [stamp];
    forall i | 0 < i < |r|
      ensures Close(r, i, bound)
    {
      if i < |recorded| {
        assert Close(recorded, i, bound);
      }
    }
  }

  lemma StepIsTimely(spec: Spec, w: World, e: Event, delay: nat)
    requires spec.tick >= 1 && spec.enable && spec.period > 0 && "password" !in spec.specific
    requires e.Reconcile? ==> AllSucceed(e.calls)
    requires Inv(spec, w) && Scheduled(spec, w) && (w.due.Some? ==> w.now <= w.due.value + delay)
    requires AllClose(w.recorded, spec.period + delay + spec.tick - 1)
    ensures Scheduled(spec, Step(spec, w, e))
    ensures AllClose(Step(spec, w, e).recorded, spec.period + delay + spec.tick - 1)
  {
    hide Cycle;
    if e.Reconcile? {
      SuccessReschedules(spec, e.calls, w);
      AppendKeepsClose(w.recorded, Persisted(w.now, spec.tick), spec.period + delay + spec.tick - 1);
    }
  }

  /** If all calls succeed and requeues fire within `delay`, recorded rotations are at most a period
      plus `delay` apart, up to the granularity of stored timestamps, and the present is no further
      from the latest of them. */
  lemma {:induction false} RotationsAreTimely(spec: Spec, w: World, events: seq<Event>, delay: nat)
    requires spec.tick >= 1 && spec.enable && spec.period > 0 && "password" !in spec.specific
    requires forall e <- events :: e.Reconcile? ==> AllSucceed(e.calls)
    requires Inv(spec, w) && Scheduled(spec, w) && Timely(spec, w, events, delay)
    requires AllClose(w.recorded, spec.period + delay + spec.tick - 1)
    ensures var v, bound := Run(spec, w, events), spec.period + delay + spec.tick - 1;
      && AllClose(v.recorded, bound)
      && (v.recorded != [] ==> v.now <= v.recorded[|v.recorded| - 1] + bound)
    decreases |events|
  {
    if events != [] {
      StepKeepsInv(spec, w, events[0]);
      StepIsTimely(spec, w, events[0], delay);
      RotationsAreTimely(spec, Step(spec, w, events[0]), events[1..], delay);
    }
  }

  /** With credentials the database accepts, the first cycle in which all calls succeed rotates the
      password and dates the rotation. */
  lemma FirstSuccessRotates(spec: Spec, calls: Calls, w: World)
    requires spec.tick >= 1 && spec.enable && !spec.source.NoSource? && Initial(w) && AllSucceed(calls)
    requires w.source.password == w.dbPassword != ""
    ensures var v := Step(spec, w, Reconcile(calls));
      && v.recorded == [Persisted(w.now, spec.tick)] && v.rotations == 1
      && v.vaultPassword == Some(calls.newPassword) && v.dbPassword == calls.newPassword
  {
    hide ToMap, AddOrReplace;
    PayloadHasPasswordIff(spec, Retrieved(spec, w.source, false));
    var c := Configure(spec, calls, w);
    assert !c.failed && CanRotate(c.w);
  }

  // ---- Main results: the password ----

  /** In every reachable state with a rotation on record, Vault holds the password of the database. */
  lemma RecordedPasswordIsKept(spec: Spec, w: World, events: seq<Event>)
    requires spec.tick >= 1 && Initial(w) && "password" !in spec.specific
    ensures var v := Run(spec, w, events); v.recorded != [] ==> v.vaultPassword == Some(v.dbPassword)
  {
    RunKeepsInv(spec, w, events);
  }

  /** With a rotation on record, a configuration payload carries a password exactly if one is set
      among the database-specific settings. */
  lemma RecordedPayloadHasPasswordIff(spec: Spec, w: World)
    requires w.resource.status.lastRotation.Some?
    ensures "password" in ToMap(spec, Retrieved(spec, w.source, true)) <==> "password" in spec.specific
  {
    PayloadHasPasswordIff(spec, Retrieved(spec, w.source, true));
  }

  // ---- Main results: access ----

  /** Vault gets into the database. */
  predicate InSync(w: World) {
    w.configured ==> w.vaultPassword == Some(w.dbPassword)
  }

  /** A cycle gets a configuration written. */
  predicate Writes(spec: Spec, calls: Calls, w: World) {
    && (w.resource.status.lastRotation.Some? || (!spec.source.NoSource? && calls.retrieve))
    && calls.read && !(w.configured && calls.equivalent) && calls.write.Applied()
  }

  /** The configuration that a cycle writes. */
  function PayloadNow(spec: Spec, w: World): map<string, Value> {
    ToMap(spec, Retrieved(spec, w.source, w.resource.status.lastRotation.Some?))
  }

  /** The password Vault holds after a configuration write. */
  function PasswordAfterWrite(spec: Spec, w: World): Option<string> {
    if w.resource.status.lastRotation.None? && w.source.password != "" then Some(w.source.password)
    else if "password" in spec.specific then Some(spec.specific["password"])
    else w.vaultPassword
  }

  lemma ConfigureEffect(spec: Spec, calls: Calls, w: World)
    ensures var c := Configure(spec, calls, w).w;
      && c == w.(resource := c.resource, configured := c.configured, vaultPassword := c.vaultPassword,
                 payloads := c.payloads)
      && c.resource.status == w.resource.status
      && c.configured == (w.configured || Writes(spec, calls, w))
      && c.vaultPassword == (if Writes(spec, calls, w) then PasswordAfterWrite(spec, w) else w.vaultPassword)
      && c.payloads == if Writes(spec, calls, w) then w.payloads + [PayloadNow(spec, w)] else w.payloads
  {
    hide ToMap, AddOrReplace;
    var recorded := w.resource.status.lastRotation.Some?;
    var password := Retrieved(spec, w.source, recorded).password;
    assert password == if recorded then "" else w.source.password;
    PayloadHasPasswordIff(spec, Retrieved(spec, w.source, recorded));
  }

  /** With no rotation on record, the user name and password of a payload are those of the spec and the
      source; a random secret is a source of passwords only. Afterwards they are those of the spec alone. */
  lemma CredentialsOfPayload(spec: Spec, w: World)
    ensures var p, recorded := PayloadNow(spec, w), w.resource.status.lastRotation.Some?;
      var named := !recorded && !spec.source.FromRandomSecret? && w.source.username != "";
      && (spec.username != "" ==> "username" in p && p["username"] == Text(spec.username))
      && (spec.username == "" && named ==> "username" in p && p["username"] == Text(w.source.username))
      && (spec.username == "" && !named ==> ("username" in p <==> "username" in spec.specific))
      && (!recorded && w.source.password != "" ==> "password" in p && p["password"] == Text(w.source.password))
      && (recorded || w.source.password == "" ==> ("password" in p <==> "password" in spec.specific))
  {
    hide ToMap;
    var retrieved := Retrieved(spec, w.source, w.resource.status.lastRotation.Some?);
    UsernameSettings(spec, retrieved);
    PayloadHasPasswordIff(spec, retrieved);
  }

  /** The configuration is brought about exactly if the calls that takes succeed. */
  lemma ConfigureSucceedsIff(spec: Spec, calls: Calls, w: World)
    ensures var outdated := !(w.configured && calls.equivalent);
      !Configure(spec, calls, w).failed <==>
        && (w.resource.status.lastRotation.Some? || (!spec.source.NoSource? && calls.retrieve))
        && calls.read && (outdated ==> calls.write.Done?)
        && calls.status.Done? && (!w.resource.finalizer ==> calls.finalizer.Done?)
  {
    hide ToMap, AddOrReplace;
  }

  /** A configuration that succeeded is the one of the present spec and source, or was judged equivalent. */
  lemma ConfiguredIsCurrent(spec: Spec, calls: Calls, w: World)
    requires !Configure(spec, calls, w).failed
    ensures var c := Configure(spec, calls, w).w;
      && c.configured
      && (c.payloads == w.payloads + [PayloadNow(spec, w)] || (c == w.(resource := c.resource) && calls.equivalent))
  {
    hide Configure, PayloadNow, PasswordAfterWrite;
    ConfigureSucceedsIff(spec, calls, w);
    ConfigureEffect(spec, calls, w);
  }

  /** A cycle rotates the password exactly if its configuration succeeds, a rotation is due, and Vault can
      log in and carries it out: due is the first one, and any later one after 95% of the period. */
  lemma RotatesIff(spec: Spec, calls: Calls, w: World)
    requires spec.tick >= 1 && spec.period >= 0
    ensures var c, v := Configure(spec, calls, w), Step(spec, w, Reconcile(calls));
      var last := w.resource.status.lastRotation;
      var due := last.None? || (spec.period > 0 && 20 * (w.now - last.value) > 19 * spec.period);
      var rotates := !c.failed && spec.enable && due && CanRotate(c.w) && calls.rotate.Applied();
      && v.rotations == (if rotates then w.rotations + 1 else w.rotations)
      && v.dbPassword == (if rotates then calls.newPassword else w.dbPassword)
  {
    hide Configure, AddOrReplace;
    ConfigureEffect(spec, calls, w);
  }

  /** A cycle succeeds exactly if its configuration does and so do a rotation that is due and its record. */
  lemma CycleSucceedsIff(spec: Spec, calls: Calls, w: World)
    requires spec.tick >= 1
    ensures var c := Configure(spec, calls, w);
      !Cycle(spec, calls, w).result.Error? <==>
        !c.failed && (NeedsRotation(spec, c.w) ==> CanRotate(c.w) && calls.rotate.Done? && calls.record.Done?)
  {
    hide Configure, AddOrReplace;
  }

  /** A rotation is carried out only in sync, and leaves Vault in sync. */
  lemma RotateKeepsSync(spec: Spec, calls: Calls, w: World)
    requires spec.tick >= 1
    ensures InSync(Rotate(spec, calls, w).w) <==> InSync(w)
  {
    hide AddOrReplace;
  }

  /** Vault in sync loses access in a step exactly if that writes a configuration which leaves it a
      password that the database does not accept. */
  lemma LosesSyncIff(spec: Spec, w: World, e: Event)
    requires spec.tick >= 1 && InSync(w)
    ensures InSync(Step(spec, w, e)) <==>
      !(e.Reconcile? && Writes(spec, e.calls, w) && PasswordAfterWrite(spec, w) != Some(w.dbPassword))
  {
    hide Configure, Rotate, PasswordAfterWrite, Writes;
    if e.Reconcile? {
      ConfigureEffect(spec, e.calls, w);
      RotateKeepsSync(spec, e.calls, Configure(spec, e.calls, w).w);
    }
  }

  /** What keeps the operator in sync: the source is right until a rotation is on record. */
  predicate Accepted(spec: Spec, w: World) {
    && Inv(spec, w) && InSync(w) && w.rotations == |w.recorded|
    && (w.recorded == [] ==> w.source.password == w.dbPassword != "")
  }

  lemma StepStaysAccepted(spec: Spec, w: World, e: Event)
    requires spec.tick >= 1 && "password" !in spec.specific && Accepted(spec, w)
    requires RecordSurvives(e) && !e.ChangeSource?
    ensures Accepted(spec, Step(spec, w, e))
  {
    StepKeepsInv(spec, w, e);
    StepRecords(spec, w, e);
    LosesSyncIff(spec, w, e);
    UnrotatedKeepsPassword(spec, w, e);
  }

  lemma UnrotatedKeepsPassword(spec: Spec, w: World, e: Event)
    requires spec.tick >= 1
    ensures var v := Step(spec, w, e);
      && v.rotations >= w.rotations && |v.recorded| >= |w.recorded|
      && (v.rotations == w.rotations ==> v.dbPassword == w.dbPassword)
      && (!e.ChangeSource? ==> v.source == w.source)
  {
    hide Configure, ToMap, AddOrReplace;
    if e.Reconcile? {
      ConfigureEffect(spec, e.calls, w);
    }
  }

  lemma {:induction false} RunStaysAccepted(spec: Spec, w: World, events: seq<Event>)
    requires spec.tick >= 1 && "password" !in spec.specific && Accepted(spec, w)
    requires forall e <- events :: RecordSurvives(e) && !e.ChangeSource?
    ensures Accepted(spec, Run(spec, w, events))
    decreases |events|
  {
    if events != [] {
      StepStaysAccepted(spec, w, events[0]);
      RunStaysAccepted(spec, Step(spec, w, events[0]), events[1..]);
    }
  }

  /** With credentials the database accepts, and no record of a rotation lost, every run keeps Vault
      in sync and is never locked out. */
  lemma AccessIsKept(spec: Spec, w: World, events: seq<Event>)
    requires spec.tick >= 1 && "password" !in spec.specific && Initial(w) && w.source.password == w.dbPassword != ""
    requires forall e <- events :: RecordSurvives(e) && !e.ChangeSource?
    ensures InSync(Run(spec, w, events)) && !LockedOut(spec, Run(spec, w, events))
  {
    RunStaysAccepted(spec, w, events);
  }

  /** A rotation whose record is refused twice is followed by a configuration write that puts the old
      password back in Vault, which then no longer gets into the database. */
  lemma LostRecordRestoresOldPassword(spec: Spec, w: World, c: Calls) returns (a: Calls, b: Calls)
    requires spec.tick >= 1 && spec.enable && "password" !in spec.specific && !spec.source.NoSource?
    requires Initial(w) && w.source.password == w.dbPassword != ""
    requires c.newPassword != w.dbPassword
    ensures var v := Run(spec, w, [Reconcile(a), Reconcile(b)]);
      && v.recorded == [] && v.rotations == 1 && v.dbPassword == c.newPassword
      && v.vaultPassword == Some(w.dbPassword) && LockedOut(spec, v)
  {
    a := c.(retrieve := true, read := true, write := Done, status := Done, finalizer := Done,
            rotate := Done, record := Refused, retryStatus := Refused);
    b := c.(retrieve := true, read := true, equivalent := false, write := Done,
            status := Refused, retryStatus := Refused);
    PayloadHasPasswordIff(spec, Retrieved(spec, w.source, false));
    var w0 := Configure(spec, a, w);
    assert !w0.failed && CanRotate(w0.w);
    var w1 := Step(spec, w, Reconcile(a));
    assert w1.dbPassword == c.newPassword && w1.recorded == [] && w1.rotations == 1;
    var w2 := Step(spec, w1, Reconcile(b));
    assert w2.vaultPassword == Some(w.source.password);
    var events := [Reconcile(a), Reconcile(b)];
    assert events[1..] == [Reconcile(b)] && events[1..][1..] == [];
    assert Run(spec, w, events) == Run(spec, w1, [Reconcile(b)]);
    assert Run(spec, w1, [Reconcile(b)]) == Run(spec, w2, []);
  }

  /** No rotation is on record, and both Vault and the source hold a password the database rejects. */
  predicate LockedOut(spec: Spec, w: World) {
    && w.resource.status.lastRotation.None? && w.recorded == [] && w.configured
    && w.source.password != "" && w.source.password != w.dbPassword
    && w.vaultPassword == Some(w.source.password)
  }

  lemma ConfigureStaysLockedOut(spec: Spec, w: World, calls: Calls)
    requires LockedOut(spec, w) && "password" !in spec.specific
    ensures var c := Configure(spec, calls, w).w; LockedOut(spec, c) && c.rotations == w.rotations
  {
    PayloadHasPasswordIff(spec, Retrieved(spec, w.source, false));
  }

  lemma StepStaysLockedOut(spec: Spec, w: World, e: Event)
    requires spec.tick >= 1 && LockedOut(spec, w) && "password" !in spec.specific && !e.ChangeSource?
    ensures LockedOut(spec, Step(spec, w, e)) && Step(spec, w, e).rotations == w.rotations
  {
    if e.Reconcile? {
      ConfigureStaysLockedOut(spec, w, e.calls);
      var c := Configure(spec, e.calls, w).w;
      assert !CanRotate(c);
      assert LockedOut(spec, Rotate(spec, e.calls, c).w);
    }
  }

  /** The operator does not get out of that by itself. */
  lemma {:induction false} LockedOutForGood(spec: Spec, w: World, events: seq<Event>)
    requires spec.tick >= 1 && LockedOut(spec, w) && "password" !in spec.specific
    requires forall e <- events :: !e.ChangeSource?
    ensures LockedOut(spec, Run(spec, w, events)) && Run(spec, w, events).rotations == w.rotations
    decreases |events|
  {
    if events != [] {
      StepStaysLockedOut(spec, w, events[0]);
      LockedOutForGood(spec, Step(spec, w, events[0]), events[1..]);
    }
  }

  // ---- The controller ----

  class DatabaseSecretEngineConfigReconciler {
    const spec: Spec
    const store: ObjectStore<Status>
    var now: int
    var source: Credentials
    var retrieved: Credentials
    var configured: bool
    var vaultPassword: Option<string>
    var dbPassword: string
    var rotations: nat
    ghost var recorded: seq<int>
    ghost var payloads: seq<map<string, Value>>
    var due: Option<int>

    constructor (spec: Spec, now: int, source: Credentials, dbPassword: string)
      ensures this.spec == spec && Initial(State()) && fresh(store)
      ensures this.now == now && this.source == source && this.dbPassword == dbPassword
    {
      this.spec, this.now, this.source, this.dbPassword := spec, now, source, dbPassword;
      store := new ObjectStore<Status>(Stored([], Status(None), false));
      retrieved, configured, vaultPassword, rotations, due := Credentials("", ""), false, None, 0, None;
      recorded, payloads := [], [];
    }

    ghost function State(): World
      reads this, store
    {
      World(now, store.stored, source, configured, vaultPassword, dbPassword, rotations, recorded, payloads, due)
    }

    method AddSpecific(base: map<string, Value>) returns (payload: map<string, Value>)
      ensures payload == base + Specific(spec.specific)
    {
      payload := base;
      var keys := spec.specific.Keys;
      while keys != {}
        invariant keys <= spec.specific.Keys
        invariant payload.Keys == base.Keys + (spec.specific.Keys - keys)
        invariant forall k | k in payload ::
          payload[k] == if k in spec.specific && k !in keys then Text(spec.specific[k]) else base[k]
        decreases |keys|
      {
        var k :| k in keys;
        keys := keys - {k};
        payload := payload[k := Text(spec.specific[k])];
      }
    }

    static method SetUnlessEmpty(base: map<string, Value>, key: string, value: string)
      returns (payload: map<string, Value>)
      ensures payload == base + TextUnlessEmpty(key, value)
    {
      payload := base;
      if value != "" {
        payload := payload[key := Text(value)];
      }
    }

    /** The payload, built key by key. */
    method ToPayload() returns (payload: map<string, Value>)
      ensures payload == ToMap(spec, retrieved)
    {
      payload := AddSpecific(Before(spec));
      if spec.username != "" {
        payload := SetUnlessEmpty(payload, "username", spec.username);
      } else {
        payload := SetUnlessEmpty(payload, "username", retrieved.username);
      }
      PutIsMerge(payload, "disable_escaping", Flag(spec.disableEscaping));
      payload := payload["disable_escaping" := Flag(spec.disableEscaping)];
      payload := SetUnlessEmpty(payload, "password", retrieved.password);
    }

    method SetInternalCredentials(available: bool) returns (failed: bool)
      modifies this`retrieved
      ensures var skipped := store.stored.status.lastRotation.Some?;
        && (failed <==> !skipped && (spec.source.NoSource? || !available))
        && (!failed && !skipped ==> retrieved == Retrieved(spec, source, false))
        && (failed || skipped ==> retrieved == old(retrieved))
    {
      if store.stored.status.lastRotation.Some? {
        return false;
      }
      if spec.source.NoSource? || !available {
        return true;
      }
      if spec.source.FromRandomSecret? || spec.username != "" {
        retrieved := Credentials(spec.username, source.password);
      } else {
        retrieved := source;
      }
      return false;
    }

    method CreateOrUpdate(payload: map<string, Value>, calls: Calls) returns (failed: bool)
      modifies this`configured, this`vaultPassword, this`payloads
      ensures var writes := calls.read && !(old(configured) && calls.equivalent);
        && (failed <==> !calls.read || (writes && !calls.write.Done?))
        && configured == (old(configured) || (writes && calls.write.Applied()))
        && payloads == (if writes && calls.write.Applied() then old(payloads) + [payload] else old(payloads))
        && vaultPassword == if writes && calls.write.Applied() && "password" in payload && payload["password"].Text?
                            then Some(payload["password"].text) else old(vaultPassword)
    {
      if !calls.read {
        return true;
      }
      if configured && calls.equivalent {
        return false;
      }
      if calls.write.Applied() {
        configured := true;
        payloads := payloads + [payload];
        if "password" in payload && payload["password"].Text? {
          vaultPassword := Some(payload["password"].text);
        }
      }
      return !calls.write.Done?;
    }

    /** The generic cycle, on an object just read from the API server. */
    method ReconcileConfiguration(calls: Calls) returns (failed: bool)
      modifies this`retrieved, this`configured, this`vaultPassword, this`payloads, store
      ensures Configured(State(), failed) == Configure(spec, calls, old(State()))
    {
      retrieved := Credentials("", "");
      failed := SetInternalCredentials(calls.retrieve);
      if !failed {
        var payload := ToPayload();
        failed := CreateOrUpdate(payload, calls);
      }
      failed := store.ManageOutcomeWithRequeue(store.stored.status, failed, true, spec.generation,
                                               calls.status, calls.finalizer);
    }

    /** Vault carries out a rotation only with the password the database accepts. */
    method WriteRotation(call: CallOutcome, newPassword: string) returns (failed: bool)
      modifies this`vaultPassword, this`dbPassword, this`rotations
      ensures var applied := CanRotate(old(State())) && call.Applied();
        && State() == (if applied
            then old(State()).(vaultPassword := Some(newPassword), dbPassword := newPassword,
                               rotations := old(rotations) + 1)
            else old(State()))
        && (failed <==> !(applied && call.Done?))
    {
      if !configured || vaultPassword != Some(dbPassword) || call.Refused? {
        return true;
      }
      vaultPassword, dbPassword, rotations := Some(newPassword), newPassword, rotations + 1;
      return !call.Done?;
    }

    /** Also returns the status held in memory. */
    method RotateRootPassword(calls: Calls) returns (failed: bool, memory: Status)
      requires spec.tick >= 1
      modifies this`vaultPassword, this`dbPassword, this`rotations, this`recorded, store
      ensures var v := old(State()); var applied := CanRotate(v) && calls.rotate.Applied();
        var v1 := if applied then v.(vaultPassword := Some(calls.newPassword), dbPassword := calls.newPassword,
                                     rotations := v.rotations + 1) else v;
        if !(applied && calls.rotate.Done?) then failed && memory == v.resource.status && State() == v1
        else
          && memory == Status(Some(Persisted(now, spec.tick))) && (failed <==> !calls.record.Done?)
          && State() == if calls.record.Applied() then Record(spec, v1, v1.resource.conditions) else v1
    {
      memory := store.stored.status;
      failed := WriteRotation(calls.rotate, calls.newPassword);
      if failed {
        return;
      }
      memory := Status(Some(Persisted(now, spec.tick)));
      failed := store.UpdateStatus(store.stored.conditions, memory, calls.record);
      if calls.record.Applied() {
        recorded := recorded + [memory.lastRotation.value];
      }
    }

    method RotateAndReport(calls: Calls) returns (result: Result)
      requires spec.tick >= 1
      modifies this`vaultPassword, this`dbPassword, this`rotations, this`recorded, store
      ensures Rotated(State(), result) == Rotate(spec, calls, old(State()))
    {
      var failed, memory := RotateRootPassword(calls);
      if !failed {
        return if spec.period != 0 then Requeue(spec.period) else NoRequeue;
      }
      failed := store.ManageOutcomeWithRequeue(memory, true, true, spec.generation, calls.retryStatus, Refused);
      if CanRotate(old(State())) && calls.rotate.Done? && calls.record.Refused? && !calls.retryStatus.Refused? {
        recorded := recorded + [memory.lastRotation.value];
      }
      return Error;
    }

    method RunCycle(calls: Calls) returns (result: Result)
      requires spec.tick >= 1
      modifies this`retrieved, this`configured, this`vaultPassword, this`dbPassword, this`rotations, this`recorded
      modifies this`payloads, store
      ensures Rotated(State(), result) == Cycle(spec, calls, old(State()))
    {
      var failed := ReconcileConfiguration(calls);
      if failed {
        return Error;
      }
      if spec.enable {
        var last := store.stored.status.lastRotation;
        if last.None? {
          result := RotateAndReport(calls);
          return;
        }
        if spec.period != 0 {
          if TimeToRotate(now, last.value, spec.period) {
            result := RotateAndReport(calls);
          } else {
            result := Requeue(last.value + spec.period - now);
          }
          return;
        }
      }
      return NoRequeue;
    }

    method Reconcile(calls: Calls)
      requires spec.tick >= 1
      modifies this, store
      ensures State() == Step(spec, old(State()), Event.Reconcile(calls))
    {
      hide Cycle;
      var result := RunCycle(calls);
      due := if result.Requeue? && result.after > 0 then Some(now + result.after) else None;
    }
  }
}
