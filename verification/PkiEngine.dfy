/** The step machine of a PKI engine configuration:
    controllers/vaultresourcecontroller/vaultpkiengineresourcereconciler.go,
    api/v1alpha1/pkisecretengineconfig_types.go and api/v1alpha1/utils/vautlpkiengineobject.go. */
module PkiEngine {
  import opened Basics
  import opened Persistence

  type Config = map<string, string>

  datatype Spec = Spec(
    root: bool,                     // spec.type is "root", otherwise "intermediate"
    exportKey: bool,                // spec.privateKeyType is "exported"
    internalSign: bool,             // spec.internalSign names another PKI configuration
    externalSign: bool,             // spec.externalSignSecret names a Secret
    common: Config,                 // the settings common to all requests, as far as they are given
    generation: int)

  datatype Status = Status(generated: bool, exported: bool, signed: bool)

  datatype SignRequest = SignRequest(csr: string, certificate: Option<string>)

  datatype ConfigPath = UrlsPath | CrlPath
  datatype ConfigPayload = Urls | Crl
  datatype ConfigWrite = ConfigWrite(path: ConfigPath, payload: ConfigPayload)

  /** What is stored in Kubernetes, and what Vault has been asked for so far. */
  datatype World = World(
    resource: Stored<Status>,
    secret: Option<string>,         // the CSR in the Secret named after the resource
    generated: seq<string>,         // the CSRs returned by the successful Generate calls
    signs: seq<SignRequest>,
    submitted: seq<string>,         // certificates written to intermediate/set-signed
    configs: seq<ConfigWrite>,      // the configuration writes that got through
    lost: nat,                      // cycles that generated but could not store their status
    deleting: bool)                 // deletion of the resource has been requested

  /** What happens to the calls of one cycle. */
  datatype Calls = Calls(
    generate: Option<string>, createSecret: CallOutcome, getSecret: bool,
    sign: Option<string>, getExternal: Option<string>, submit: bool,
    urls: Option<Config>, writeUrls: CallOutcome,  // what is read at the path of the URL configuration
    crl: Option<Config>, writeCrl: CallOutcome,    // what is read at the path of the CRL configuration
    status: CallOutcome, release: CallOutcome)

  datatype Event = Reconcile(calls: Calls) | DeleteSecret | RequestDeletion

  /** A cycle under way: the world it has changed, the status and the CSR it holds in memory. */
  datatype Cycle = Cycle(w: World, status: Status, csr: string, issue: bool)

  // ---- One cycle ----

  const COMMON_KEYS := {
    "common_name", "alt_names", "ip_sans", "uri_sans", "other_sans", "ttl", "format", "private_key_format", "key_type",
    "key_bits", "max_path_length", "exclude_cn_from_sans", "permitted_dns_domains", "ou", "organization", "country",
    "locality", "province", "street_address", "postal_code", "serial_number"
  }

  /** The payload of requests, which has all the common settings. */
  function Common(spec: Spec): Config {
    map k | k in COMMON_KEYS :: if k in spec.common then spec.common[k] else ""
  }

  /** What was read at a path is compared with the payload of requests, whatever is configured there. */
  predicate Equivalent(spec: Spec, answer: Config) {
    answer == Common(spec)
  }

  function Generate(spec: Spec, calls: Calls, c: Cycle): Cycle {
    if c.status.generated then c
    else if calls.generate.None? then c.(issue := true)
    else
      var csr := if spec.root then "" else calls.generate.value;
      var w := c.w.(generated := c.w.generated + [csr]);
      var c' := c.(w := w, status := c.status.(generated := true));
      if !spec.exportKey then c'.(csr := csr, status := c'.status.(exported := false))
      else if w.secret.Some? then c'.(issue := true)
      else
        var c'' := if calls.createSecret.Applied() then c'.(w := w.(secret := Some(csr))) else c';
        if !calls.createSecret.Done? then c''.(issue := true)
        else c''.(csr := csr, status := c''.status.(exported := true))
  }

  /** The CSR to be signed: the one in memory or else the one in the Secret. */
  function CsrToSign(c: Cycle, calls: Calls): Option<string> {
    if c.csr != "" then Some(c.csr)
    else if calls.getSecret then c.w.secret
    else None
  }

  function Submit(c: Cycle, certificate: string, calls: Calls): Cycle {
    var c' := c.(w := c.w.(submitted := c.w.submitted + [certificate]));
    if calls.submit then c'.(status := c'.status.(signed := true)) else c'.(issue := true)
  }

  function Sign(spec: Spec, calls: Calls, c: Cycle): Cycle {
    if spec.root || c.status.signed then c
    else if spec.internalSign then
      var csr := CsrToSign(c, calls);
      if csr.None? then c.(issue := true)
      else
        var c' := c.(csr := csr.value, w := c.w.(signs := c.w.signs + [SignRequest(csr.value, calls.sign)]));
        if calls.sign.None? then c'.(issue := true) else Submit(c', calls.sign.value, calls)
    else if !spec.externalSign || calls.getExternal.None? then c.(issue := true)
    else Submit(c, calls.getExternal.value, calls)
  }

  /** CreateOrUpdateConfig: reads at the path it is given, but writes at the CRL path. */
  function Configure(spec: Spec, payload: ConfigPayload, answer: Option<Config>, write: CallOutcome, c: Cycle): Cycle {
    if answer.None? then c.(issue := true)
    else if Equivalent(spec, answer.value) then c
    else
      var w := if write.Applied() then c.w.(configs := c.w.configs + [ConfigWrite(CrlPath, payload)]) else c.w;
      c.(w := w, issue := !write.Done?)
  }

  /** The steps in order, each only if the one before raised no issue. */
  function Work(spec: Spec, calls: Calls, w: World): Cycle {
    var c1 := Generate(spec, calls, Cycle(w, w.resource.status, "", false));
    if c1.issue then c1
    else
      var c2 := Sign(spec, calls, c1);
      if c2.issue then c2
      else
        var c3 := Configure(spec, Urls, calls.urls, calls.writeUrls, c2);
        if c3.issue then c3
        else Configure(spec, Crl, calls.crl, calls.writeCrl, c3)
  }

  /** The state after a cycle, and whether the cycle is reported as failed, and so retried. */
  datatype Cycled = Cycled(w: World, failed: bool)

  /** The status of a cycle is stored at its end, whether or not it raised an issue. */
  function Conclude(spec: Spec, status: CallOutcome, generatedBefore: nat, c: Cycle): Cycled {
    var m := ManageOutcome(c.w.resource, c.w.resource.conditions, c.status, c.issue, false, spec.generation,
                           status, Done);
    var lost := if |c.w.generated| > generatedBefore && status.Refused? then c.w.lost + 1 else c.w.lost;
    Cycled(c.w.(resource := m.stored, lost := lost), m.failed)
  }

  function ReconcileOnce(spec: Spec, calls: Calls, w: World): Cycled {
    Conclude(spec, calls.status, |w.generated|, Work(spec, calls, w))
  }

  /** The engine is not deletable: all there is to clean up is a finalizer. */
  function ReconcileDeletion(spec: Spec, calls: Calls, w: World): Cycled {
    if !w.resource.finalizer then Cycled(w, false)
    else
      var r := if calls.release.Applied() then w.resource.(finalizer := false) else w.resource;
      if calls.release.Done? then Cycled(w.(resource := r), false)
      else
        var m := ManageOutcome(r, r.conditions, r.status, true, false, spec.generation, calls.status, Done);
        Cycled(w.(resource := m.stored), m.failed)
  }

  function CycleOf(spec: Spec, calls: Calls, w: World): Cycled {
    if w.deleting then ReconcileDeletion(spec, calls, w) else ReconcileOnce(spec, calls, w)
  }

  function Step(spec: Spec, w: World, e: Event): World {
    match e
    case Reconcile(calls) => CycleOf(spec, calls, w).w
    case DeleteSecret => w.(secret := None)
    case RequestDeletion => w.(deleting := true)
  }

  function Run(spec: Spec, w: World, events: seq<Event>): World
    decreases |events|
  {
    if events == [] then w else Run(spec, Step(spec, w, events[0]), events[1..])
  }

  predicate Initial(w: World) {
    && w.resource == Stored([], Status(false, false, false), false)
    && w.secret.None? && w.generated == [] && w.signs == [] && w.submitted == [] && w.configs == []
    && w.lost == 0 && !w.deleting
  }

  // ---- What every step keeps ----

  predicate FlagsOrdered(spec: Spec, s: Status) {
    && (s.signed ==> s.generated && !spec.root)
    && (s.exported ==> s.generated && spec.exportKey)
  }

  predicate Inv(spec: Spec, w: World) {
    && FlagsOrdered(spec, w.resource.status)
    && !w.resource.finalizer
    // each successful Generate is on record, or its record was lost
    && |w.generated| == w.lost + (if w.resource.status.generated then 1 else 0)
    // the Secret and every sign request carry a CSR that was generated
    && (w.secret.Some? ==> w.secret.value in w.generated)
    && (forall s <- w.signs :: s.csr in w.generated)
    && (spec.root ==> w.signs == [] && w.submitted == [])
    // configuration comes after generation and, for an intermediate, after a submitted certificate
    && (w.configs != [] ==> w.generated != [] && (spec.root || w.submitted != []))
    && (w.resource.status.signed ==> w.submitted != [])
    && (forall c <- w.configs :: c.path == CrlPath)
  }

  predicate CycleInv(spec: Spec, w: World, c: Cycle) {
    && FlagsOrdered(spec, c.status)
    && c.w.resource == w.resource && c.w.lost == w.lost
    && |c.w.generated| == |w.generated| + (if c.status.generated && !w.resource.status.generated then 1 else 0)
    && (w.resource.status.generated ==> c.status.generated)
    && (w.resource.status.exported ==> c.status.exported)
    && (w.resource.status.signed ==> c.status.signed)
    && (c.status.generated ==> c.w.generated != [])
    && (c.csr == "" || c.csr in c.w.generated)
    && (c.w.secret.Some? ==> c.w.secret.value in c.w.generated)
    && (forall s <- c.w.signs :: s.csr in c.w.generated)
    && (spec.root ==> c.w.signs == [] && c.w.submitted == [])
    && (c.w.configs != [] ==> c.w.generated != [] && (spec.root || c.w.submitted != []))
    && (c.status.signed ==> c.w.submitted != [])
    && (forall k <- c.w.configs :: k.path == CrlPath)
  }

  lemma GenerateKeeps(spec: Spec, calls: Calls, w: World)
    requires Inv(spec, w)
    ensures var c := Generate(spec, calls, Cycle(w, w.resource.status, "", false));
      CycleInv(spec, w, c) && (!c.issue ==> c.status.generated) && c.w.configs == w.configs
  {
    var c := Generate(spec, calls, Cycle(w, w.resource.status, "", false));
    assert forall x <- w.generated :: x in c.w.generated;
  }

  lemma SubmitKeeps(spec: Spec, calls: Calls, w: World, c: Cycle, certificate: string)
    requires CycleInv(spec, w, c) && c.status.generated && !c.issue && !spec.root
    ensures var c' := Submit(c, certificate, calls);
      CycleInv(spec, w, c') && (!c'.issue ==> c'.status.signed) && c'.status.generated
      && c'.w.configs == c.w.configs && c'.w.generated == c.w.generated
  {
  }

  lemma SignKeeps(spec: Spec, calls: Calls, w: World, c: Cycle)
    requires CycleInv(spec, w, c) && c.status.generated && !c.issue
    ensures var c' := Sign(spec, calls, c);
      CycleInv(spec, w, c') && (!c'.issue ==> spec.root || c'.status.signed) && c'.status.generated
      && c'.w.configs == c.w.configs && c'.w.generated == c.w.generated
  {
    hide Submit;
    if !spec.root && !c.status.signed {
      if spec.internalSign {
        var csr := CsrToSign(c, calls);
        if csr.Some? && calls.sign.Some? {
          var signs := c.w.signs + [SignRequest(csr.value, calls.sign)];
          SubmitKeeps(spec, calls, w, c.(csr := csr.value, w := c.w.(signs := signs)), calls.sign.value);
        }
      } else if calls.getExternal.Some? {
        SubmitKeeps(spec, calls, w, c, calls.getExternal.value);
      }
    }
  }

  lemma ConfigureKeeps(spec: Spec, payload: ConfigPayload, answer: Option<Config>, write: CallOutcome,
                       w: World, c: Cycle)
    requires CycleInv(spec, w, c) && c.status.generated && (spec.root || c.status.signed) && !c.issue
    ensures var c' := Configure(spec, payload, answer, write, c);
      CycleInv(spec, w, c') && c'.status == c.status && c'.w.generated == c.w.generated
  {
  }

  /** Configuration is written only by a cycle that holds a generated and, for an intermediate,
      signed engine. */
  lemma WorkKeeps(spec: Spec, calls: Calls, w: World)
    requires Inv(spec, w)
    ensures var c := Work(spec, calls, w);
      CycleInv(spec, w, c)
      && (c.w.configs != w.configs ==> c.status.generated && (spec.root || c.status.signed))
  {
    var c1 := Generate(spec, calls, Cycle(w, w.resource.status, "", false));
    GenerateKeeps(spec, calls, w);
    if !c1.issue {
      var c2 := Sign(spec, calls, c1);
      SignKeeps(spec, calls, w, c1);
      if !c2.issue {
        var c3 := Configure(spec, Urls, calls.urls, calls.writeUrls, c2);
        ConfigureKeeps(spec, Urls, calls.urls, calls.writeUrls, w, c2);
        if !c3.issue {
          ConfigureKeeps(spec, Crl, calls.crl, calls.writeCrl, w, c3);
        }
      }
    }
  }

  /** Flags only ever go up. */
  predicate Monotone(s: Status, t: Status) {
    (s.generated ==> t.generated) && (s.exported ==> t.exported) && (s.signed ==> t.signed)
  }

  lemma StepKeepsInv(spec: Spec, w: World, e: Event)
    requires Inv(spec, w)
    ensures Inv(spec, Step(spec, w, e)) && Monotone(w.resource.status, Step(spec, w, e).resource.status)
  {
    if e.Reconcile? {
      WorkKeeps(spec, e.calls, w);
    }
  }

  lemma {:induction false} RunKeepsInv(spec: Spec, w: World, events: seq<Event>)
    requires Inv(spec, w)
    ensures Inv(spec, Run(spec, w, events)) && Monotone(w.resource.status, Run(spec, w, events).resource.status)
    decreases |events|
  {
    if events != [] {
      StepKeepsInv(spec, w, events[0]);
      RunKeepsInv(spec, Step(spec, w, events[0]), events[1..]);
    }
  }

  // ---- Main results ----

  /** In every run the flags are monotone and ordered; a root is never signed; configuration
      follows generation and signing. */
  lemma OrderedProgress(spec: Spec, w: World, events: seq<Event>, later: seq<Event>)
    requires Initial(w)
    ensures var v := Run(spec, w, events);
      && Monotone(v.resource.status, Run(spec, v, later).resource.status)
      && (v.resource.status.signed ==> v.resource.status.generated && v.submitted != [])
      && (v.resource.status.exported ==> v.resource.status.generated && spec.exportKey)
      && (spec.root ==> v.signs == [] && v.submitted == [] && !v.resource.status.signed)
      && (v.configs != [] ==> v.generated != [] && (spec.root || v.submitted != []))
      && !v.resource.finalizer
  {
    RunKeepsInv(spec, w, events);
    RunKeepsInv(spec, Run(spec, w, events), later);
  }

  /** The number of successful Generate calls is the number of lost status writes, plus one once
      generation is on record. So there is at most one exactly until a loss has been made up for. */
  lemma GenerateIsConserved(spec: Spec, w: World, events: seq<Event>)
    requires Initial(w)
    ensures var v := Run(spec, w, events);
      && |v.generated| == v.lost + (if v.resource.status.generated then 1 else 0)
      && (|v.generated| <= 1 <==> v.lost == 0 || (v.lost == 1 && !v.resource.status.generated))
  {
    RunKeepsInv(spec, w, events);
  }

  lemma {:induction false} NoRefusalNoLoss(spec: Spec, w: World, events: seq<Event>)
    requires forall e <- events :: e.Reconcile? ==> !e.calls.status.Refused?
    requires Inv(spec, w)
    ensures Run(spec, w, events).lost == w.lost
    decreases |events|
  {
    if events != [] {
      StepKeepsInv(spec, w, events[0]);
      assert events[0] in events;
      if events[0].Reconcile? {
        WorkKeeps(spec, events[0].calls, w);
      }
      NoRefusalNoLoss(spec, Step(spec, w, events[0]), events[1..]);
    }
  }

  /** If every status update is applied, at most one Generate succeeds, however often export or
      signing fail. */
  lemma GenerateOnce(spec: Spec, w: World, events: seq<Event>)
    requires Initial(w) && forall e <- events :: e.Reconcile? ==> !e.calls.status.Refused?
    ensures |Run(spec, w, events).generated| <= 1
  {
    RunKeepsInv(spec, w, events);
    NoRefusalNoLoss(spec, w, events);
  }

  /** Every sign request carries a CSR that Generate returned: the one CSR, if status writes are not lost. */
  lemma CsrContinuity(spec: Spec, w: World, events: seq<Event>)
    requires Initial(w)
    ensures var v := Run(spec, w, events);
      && (forall s <- v.signs :: s.csr in v.generated)
      && (v.lost == 0 ==> forall s <- v.signs :: v.generated == [s.csr])
  {
    RunKeepsInv(spec, w, events);
    var v := Run(spec, w, events);
    forall s | s in v.signs && v.lost == 0 ensures v.generated == [s.csr] {
      assert s.csr in v.generated && |v.generated| == 1;
    }
  }

  lemma GenerateLeavesSigning(spec: Spec, calls: Calls, c: Cycle)
    ensures var c' := Generate(spec, calls, c); c'.w.signs == c.w.signs && c'.w.submitted == c.w.submitted
  {
  }

  lemma ConfigureLeavesSigning(spec: Spec, payload: ConfigPayload, answer: Option<Config>, write: CallOutcome, c: Cycle)
    ensures var c' := Configure(spec, payload, answer, write, c);
      c'.w.signs == c.w.signs && c'.w.submitted == c.w.submitted
  {
  }

  lemma WorkSigns(spec: Spec, calls: Calls, w: World)
    ensures var c1 := Generate(spec, calls, Cycle(w, w.resource.status, "", false));
      var c2 := if c1.issue then c1 else Sign(spec, calls, c1); var c := Work(spec, calls, w);
      && c1.w.signs == w.signs && c1.w.submitted == w.submitted
      && c.w.signs == c2.w.signs && c.w.submitted == c2.w.submitted
  {
    hide Generate, Sign, Configure;
    GenerateLeavesSigning(spec, calls, Cycle(w, w.resource.status, "", false));
    var c1 := Generate(spec, calls, Cycle(w, w.resource.status, "", false));
    var c2 := Sign(spec, calls, c1);
    var c3 := Configure(spec, Urls, calls.urls, calls.writeUrls, c2);
    ConfigureLeavesSigning(spec, Urls, calls.urls, calls.writeUrls, c2);
    ConfigureLeavesSigning(spec, Crl, calls.crl, calls.writeCrl, c3);
  }

  /** A certificate submitted by an internally signed intermediate is the one that the sign request
      of the same cycle returned. */
  lemma SubmitsWhatWasSigned(spec: Spec, calls: Calls, w: World)
    requires spec.internalSign && !spec.root
    ensures var v := ReconcileOnce(spec, calls, w).w;
      v.submitted != w.submitted ==>
        exists csr, certificate ::
          && v.signs == w.signs + [SignRequest(csr, Some(certificate))]
          && v.submitted == w.submitted + [certificate]
  {
    hide Generate, Work, ManageOutcome;
    WorkSigns(spec, calls, w);
    var c1 := Generate(spec, calls, Cycle(w, w.resource.status, "", false));
    if !c1.issue && !c1.status.signed && CsrToSign(c1, calls).Some? && calls.sign.Some? {
      assert ReconcileOnce(spec, calls, w).w.signs ==
        w.signs + [SignRequest(CsrToSign(c1, calls).value, Some(calls.sign.value))];
    }
  }

  /** Once generation is on record and the Secret is missing, an unsigned intermediate that signs
      internally is stuck for good: its CSR is gone. An export that failed ends here, and so does a
      first signing that failed when the key is not exported. */
  lemma {:induction false} LostCsrIsLostForGood(spec: Spec, w: World, events: seq<Event>)
    requires Inv(spec, w) && spec.internalSign && !spec.root
    requires w.resource.status.generated && !w.resource.status.signed && w.secret.None?
    ensures var v := Run(spec, w, events);
      && v.signs == w.signs && v.submitted == w.submitted && v.configs == w.configs
      && v.secret.None? && !v.resource.status.signed
    decreases |events|
  {
    if events != [] {
      StepKeepsInv(spec, w, events[0]);
      LostCsrIsLostForGood(spec, Step(spec, w, events[0]), events[1..]);
    }
  }

  /** With generation on record, a cycle sends a sign request exactly if it can read the Secret. */
  lemma RecoversIffSecretReadable(spec: Spec, calls: Calls, w: World)
    requires spec.internalSign && !spec.root && w.resource.status.generated && !w.resource.status.signed
    ensures var v := ReconcileOnce(spec, calls, w).w;
      v.signs == (if calls.getSecret && w.secret.Some?
                  then w.signs + [SignRequest(w.secret.value, calls.sign)] else w.signs)
  {
  }

  /** A lost status write breaks continuity: the second Generate leaves the first CSR in the Secret,
      and that is the one sent to be signed. */
  lemma StaleCsrAfterLostStatus(c: Calls, first: string, second: string) returns (events: seq<Event>)
    requires first != "" && first != second
    ensures var spec := Spec(false, true, true, false, map[], 1);
      var v := Run(spec, World(Stored([], Status(false, false, false), false), None, [], [], [], [], 0, false), events);
      v.generated == [first, second] && v.signs != [] && v.signs[|v.signs| - 1].csr == first
  {
    var spec := Spec(false, true, true, false, map[], 1);
    var w := World(Stored([], Status(false, false, false), false), None, [], [], [], [], 0, false);
    var a := c.(generate := Some(first), createSecret := Done, sign := None, status := Refused);
    var b := c.(generate := Some(second), status := Done);
    var d := c.(getSecret := true, sign := None, status := Done);
    events := [Reconcile(a), Reconcile(b), Reconcile(d)];
    var w1 := Step(spec, w, events[0]);
    assert w1.secret == Some(first) && w1.generated == [first] && !w1.resource.status.generated;
    var w2 := Step(spec, w1, events[1]);
    assert w2.generated == [first, second] && w2.resource.status.generated && !w2.resource.status.signed;
    var w3 := Step(spec, w2, events[2]);
    assert events[1..][0] == events[1] && events[1..][1..] == [events[2]] && [events[2]][1..] == [];
    assert Run(spec, w, events) == Run(spec, w1, events[1..]);
    assert Run(spec, w1, events[1..]) == Run(spec, w2, [events[2]]);
    assert Run(spec, w2, [events[2]]) == Run(spec, w3, []);
  }

  // ---- What is configured ----

  /** What the configuration writes leave at each path: the latest payload. */
  function Configuration(configs: seq<ConfigWrite>): map<ConfigPath, ConfigPayload> {
    if configs == [] then map[]
    else
      var before, last := configs[..|configs| - 1], configs[|configs| - 1];
      Configuration(before)[last.path := last.payload]
  }

  // ---- Progress ----

  /** Generation is on record, or is answered and, for an exported key, stored in a Secret of its own. */
  predicate GenerateReady(spec: Spec, calls: Calls, w: World) {
    || w.resource.status.generated
    || (calls.generate.Some? && (spec.exportKey ==> w.secret.None? && calls.createSecret.Done?))
  }

  /** The CSR was generated in this cycle, or can be read from the Secret. */
  predicate CsrAtHand(spec: Spec, calls: Calls, w: World) {
    var first := !w.resource.status.generated;
    || (first && calls.generate.Some? && calls.generate.value != "")
    || (calls.getSecret && (w.secret.Some? || (first && spec.exportKey)))
  }

  predicate SignReady(spec: Spec, calls: Calls, w: World) {
    || spec.root
    || w.resource.status.signed
    || (spec.internalSign && CsrAtHand(spec, calls, w) && calls.sign.Some? && calls.submit)
    || (!spec.internalSign && spec.externalSign && calls.getExternal.Some? && calls.submit)
  }

  predicate ConfigReady(spec: Spec, answer: Option<Config>, write: CallOutcome) {
    answer.Some? && (answer.value != Common(spec) ==> write.Done?)
  }

  /** The certificate that is due, as far as it is answered. */
  function Certificate(spec: Spec, calls: Calls): seq<string> {
    var answer := if spec.internalSign then calls.sign else calls.getExternal;
    if answer.Some? then [answer.value] else []
  }

  lemma GenerateSucceedsIff(spec: Spec, calls: Calls, w: World)
    ensures var c := Generate(spec, calls, Cycle(w, w.resource.status, "", false));
      && (!c.issue <==> GenerateReady(spec, calls, w))
      && c.status.signed == w.resource.status.signed
      && (!c.issue && !spec.root ==> (CsrToSign(c, calls).Some? <==> CsrAtHand(spec, calls, w)))
  {
  }

  /** A signing succeeds exactly if it is not needed or its calls succeed, and submits the certificate that
      the sign request returned, or the one in the external Secret. */
  lemma SignSucceedsIff(spec: Spec, calls: Calls, c: Cycle)
    requires !c.issue
    ensures var c' := Sign(spec, calls, c);
      var done := spec.root || c.status.signed;
      var internal := spec.internalSign && CsrToSign(c, calls).Some? && calls.sign.Some? && calls.submit;
      var external := !spec.internalSign && spec.externalSign && calls.getExternal.Some? && calls.submit;
      && (!c'.issue <==> done || internal || external)
      && (!c'.issue ==> c'.w.submitted == c.w.submitted + (if done then [] else Certificate(spec, calls)))
  {
  }

  /** A cycle succeeds exactly if all the calls its kind still needs do. It has then submitted the right
      certificate, if one was due. */
  lemma CycleSucceedsIff(spec: Spec, calls: Calls, w: World)
    requires !w.deleting
    ensures var r := CycleOf(spec, calls, w);
      && (!r.failed <==>
            && GenerateReady(spec, calls, w) && SignReady(spec, calls, w)
            && ConfigReady(spec, calls.urls, calls.writeUrls) && ConfigReady(spec, calls.crl, calls.writeCrl)
            && calls.status.Done?)
      && (!r.failed ==> !Work(spec, calls, w).issue)
      && (!r.failed ==> r.w.resource.status == Work(spec, calls, w).status && Succeeded(r.w.resource.conditions))
      && var done := spec.root || w.resource.status.signed;
      (!r.failed ==> r.w.submitted == w.submitted + (if done then [] else Certificate(spec, calls)))
  {
    hide Generate, Sign, CsrToSign, CsrAtHand, Common, AddOrReplace;
    SuccessIsRemembered(OutcomeCondition(false, spec.generation), Work(spec, calls, w).w.resource.conditions);
    GenerateSucceedsIff(spec, calls, w);
    GenerateLeavesSigning(spec, calls, Cycle(w, w.resource.status, "", false));
    var c1 := Generate(spec, calls, Cycle(w, w.resource.status, "", false));
    if !c1.issue {
      SignSucceedsIff(spec, calls, c1);
    }
  }

  function ConfigWrites(spec: Spec, calls: Calls): seq<ConfigWrite> {
    (if calls.urls == Some(Common(spec)) then [] else [ConfigWrite(CrlPath, Urls)])
    + (if calls.crl == Some(Common(spec)) then [] else [ConfigWrite(CrlPath, Crl)])
  }

  /** A cycle without issue leaves a generated and, for an intermediate, signed engine, and has sent
      exactly the configuration that was not equivalent. */
  lemma CompleteCycle(spec: Spec, calls: Calls, w: World)
    requires Inv(spec, w)
    ensures var c := Work(spec, calls, w);
      !c.issue ==>
        && c.status.generated && (spec.root || c.status.signed)
        && (spec.exportKey && !w.resource.status.generated ==> c.status.exported)
        && calls.urls.Some? && calls.crl.Some?
        && c.w.configs == w.configs + ConfigWrites(spec, calls)
  {
    hide Generate, Sign, Common, FlagsOrdered;
    var c1 := Generate(spec, calls, Cycle(w, w.resource.status, "", false));
    GenerateKeeps(spec, calls, w);
    GenerateExports(spec, calls, w);
    if !c1.issue {
      SignKeeps(spec, calls, w, c1);
      SignKeepsExported(spec, calls, c1);
      hide CycleInv, Inv;
    }
  }

  lemma GenerateExports(spec: Spec, calls: Calls, w: World)
    ensures var c := Generate(spec, calls, Cycle(w, w.resource.status, "", false));
      !c.issue && spec.exportKey && !w.resource.status.generated ==> c.status.exported
  {
  }

  lemma SignKeepsExported(spec: Spec, calls: Calls, c: Cycle)
    ensures Sign(spec, calls, c).status.exported == c.status.exported
  {
  }

  lemma {:induction false} OnlyCrlPathIsConfigured(configs: seq<ConfigWrite>)
    requires forall c <- configs :: c.path == CrlPath
    ensures Configuration(configs).Keys <= {CrlPath}
  {
    if configs != [] {
      var before := configs[..|configs| - 1];
      assert forall c <- before :: c in configs;
      OnlyCrlPathIsConfigured(before);
      assert configs[|configs| - 1] in configs;
    }
  }

  /** No run configures anything under the path of the URL configuration. */
  lemma UrlsPathStaysEmpty(spec: Spec, w: World, events: seq<Event>)
    requires Initial(w)
    ensures UrlsPath !in Configuration(Run(spec, w, events).configs)
  {
    RunKeepsInv(spec, w, events);
    OnlyCrlPathIsConfigured(Run(spec, w, events).configs);
  }

  lemma ConfigurationOfAppend(configs: seq<ConfigWrite>, c: ConfigWrite)
    ensures Configuration(configs + [c]) == Configuration(configs)[c.path := c.payload]
  {
    assert (configs + [c])[..|configs|] == configs;
  }

  /** The CRL path holds this configuration. */
  predicate Holds(w: World, payload: ConfigPayload) {
    CrlPath in Configuration(w.configs) && Configuration(w.configs)[CrlPath] == payload
  }

  /** A cycle without issue leaves the CRL configuration at the CRL path exactly if it wrote that, or
      wrote nothing and it was there; otherwise the URL configuration takes its place. */
  lemma CrlPathAfterCycle(spec: Spec, calls: Calls, w: World)
    requires Inv(spec, w)
    ensures var c := Work(spec, calls, w);
      !c.issue ==>
        && var urls, crl := calls.urls != Some(Common(spec)), calls.crl != Some(Common(spec));
        && (Holds(c.w, Crl) <==> crl || (!urls && Holds(w, Crl)))
        && (Holds(c.w, Urls) <==> !crl && (urls || Holds(w, Urls)))
  {
    CompleteCycle(spec, calls, w);
    ConfigurationOfWrites(spec, w.configs, calls);
    hide Work, Inv;
  }

  lemma ConfigurationOfWrites(spec: Spec, configs: seq<ConfigWrite>, calls: Calls)
    ensures Configuration(configs + ConfigWrites(spec, calls)) ==
      if calls.crl != Some(Common(spec)) then Configuration(configs)[CrlPath := Crl]
      else if calls.urls != Some(Common(spec)) then Configuration(configs)[CrlPath := Urls]
      else Configuration(configs)
  {
    hide Configuration;
    var u, c := ConfigWrite(CrlPath, Urls), ConfigWrite(CrlPath, Crl);
    ConfigurationOfAppend(configs, u);
    ConfigurationOfAppend(configs, c);
    ConfigurationOfAppend(configs + [u], c);
    assert configs + ([u] + [c]) == configs + [u] + [c];
    assert [u] + [] == [u] && [] + [c] == [c] && configs + ([] + []) == configs;
  }

  /** What Vault answers for a URL or a CRL configuration, or for none, does not have all the settings
      common to requests. */
  predicate Ordinary(answer: Option<Config>) {
    answer.Some? ==> !(COMMON_KEYS <= answer.value.Keys)
  }

  /** An ordinary configuration is never found equivalent, even if it is as desired: every cycle without
      issue writes both configurations again, and leaves that of the CRL. */
  lemma OrdinaryCycleWritesBoth(spec: Spec, calls: Calls, w: World)
    requires Inv(spec, w) && Ordinary(calls.urls) && Ordinary(calls.crl)
    ensures var c := Work(spec, calls, w);
      !c.issue ==>
        && c.w.configs == w.configs + [ConfigWrite(CrlPath, Urls), ConfigWrite(CrlPath, Crl)]
        && Holds(c.w, Crl)
  {
    assert Common(spec).Keys == COMMON_KEYS;
    CompleteCycle(spec, calls, w);
    CrlPathAfterCycle(spec, calls, w);
    hide Work, Inv;
    assert ConfigWrites(spec, calls) == [ConfigWrite(CrlPath, Urls), ConfigWrite(CrlPath, Crl)];
  }

  // ---- Which CSR ----

  /** The exported Secret, if it is there, holds the CSR of the latest Generate. */
  predicate Current(w: World) {
    w.secret.Some? ==> w.generated != [] && w.secret.value == w.generated[|w.generated| - 1]
  }

  /** The cycle generates a CSR other than that in the Secret. */
  predicate Outdates(spec: Spec, w: World, e: Event) {
    e.Reconcile? && !w.deleting && !w.resource.status.generated && e.calls.generate.Some? && w.secret.Some?
    && w.secret.value != if spec.root then "" else e.calls.generate.value
  }

  /** A Secret that holds the latest CSR goes stale exactly in a cycle that generates another one. This
      takes a generation that is not on record although the Secret of an earlier one is there: a lost
      status write. */
  lemma GoesStaleIff(spec: Spec, w: World, e: Event)
    requires Current(w)
    ensures Current(Step(spec, w, e)) <==> !Outdates(spec, w, e)
    ensures Inv(spec, w) && Outdates(spec, w, e) ==> w.lost > 0
  {
    hide ManageOutcome, Generate;
    if e.Reconcile? && !w.deleting {
      GenerateCsr(spec, e.calls, w);
      WorkKeepsCsr(spec, e.calls, w);
    }
  }

  lemma GenerateCsr(spec: Spec, calls: Calls, w: World)
    ensures var c := Generate(spec, calls, Cycle(w, w.resource.status, "", false));
      var generates := !w.resource.status.generated && calls.generate.Some?;
      var csr := if spec.root || !generates then "" else calls.generate.value;
      && c.w.generated == (if generates then w.generated + [csr] else w.generated)
      && (w.secret.Some? || !generates ==> c.w.secret == w.secret)
      && (generates ==> c.w.secret.None? || w.secret.Some? || c.w.secret == Some(csr))
  {
  }

  lemma WorkKeepsCsr(spec: Spec, calls: Calls, w: World)
    ensures var c1, c := Generate(spec, calls, Cycle(w, w.resource.status, "", false)), Work(spec, calls, w);
      c.w.generated == c1.w.generated && c.w.secret == c1.w.secret
  {
    hide Generate;
  }

  /** One request has been sent since, for this CSR. */
  predicate Requests(w: World, v: World, csr: string) {
    |v.signs| == |w.signs| + 1 && v.signs[..|w.signs|] == w.signs && v.signs[|w.signs|].csr == csr
  }

  /** With generation on record, a request that is sent carries the latest CSR exactly if the Secret does. */
  lemma SendsLatestIff(spec: Spec, calls: Calls, w: World)
    requires w.resource.status.generated && !w.deleting && w.generated != []
    ensures var v := Step(spec, w, Reconcile(calls));
      v.signs != w.signs ==>
        v.generated == w.generated && (Requests(w, v, w.generated[|w.generated| - 1]) <==> Current(w))
  {
    hide ManageOutcome, Work;
    WorkSigns(spec, calls, w);
    WorkKeepsCsr(spec, calls, w);
  }

  /** In the cycle that generates it, a CSR is sent from memory. */
  lemma SendsGenerated(spec: Spec, calls: Calls, w: World)
    requires !w.resource.status.generated && !w.deleting && calls.generate.Some? && calls.generate.value != ""
    ensures var v := Step(spec, w, Reconcile(calls));
      v.signs != w.signs ==>
        Requests(w, v, calls.generate.value) && v.generated == w.generated + [calls.generate.value]
  {
    hide ManageOutcome, Work, Generate;
    GenerateCsr(spec, calls, w);
    GenerateRemembers(spec, calls, w);
    WorkSigns(spec, calls, w);
    WorkKeepsCsr(spec, calls, w);
  }

  lemma GenerateRemembers(spec: Spec, calls: Calls, w: World)
    requires !w.resource.status.generated && calls.generate.Some?
    ensures var c := Generate(spec, calls, Cycle(w, w.resource.status, "", false));
      c.issue || spec.root || c.csr == calls.generate.value
  {
  }

  /** Once deletion is requested nothing more is asked of Vault. */
  lemma {:induction false} DeletionIsQuiet(spec: Spec, w: World, events: seq<Event>)
    requires Inv(spec, w) && w.deleting
    ensures var v := Run(spec, w, events);
      v.generated == w.generated && v.signs == w.signs && v.submitted == w.submitted && v.configs == w.configs
    decreases |events|
  {
    if events != [] {
      StepKeepsInv(spec, w, events[0]);
      DeletionIsQuiet(spec, Step(spec, w, events[0]), events[1..]);
    }
  }

  // ---- The reconciler ----

  class VaultPKIEngineResource {
    const spec: Spec
    const store: ObjectStore<Status>
    var secret: Option<string>
    var generated: seq<string>
    var signs: seq<SignRequest>
    var submitted: seq<string>
    var configs: seq<ConfigWrite>
    ghost var lost: nat
    var deleting: bool

    // the instance being reconciled
    var status: Status
    var cSR: string
    var signedIntermediate: string

    constructor (spec: Spec)
      ensures Initial(State()) && fresh(store) && this.spec == spec
    {
      this.spec := spec;
      status := Status(false, false, false);
      store := new ObjectStore<Status>(Stored([], Status(false, false, false), false));
      secret, generated, signs, submitted, configs, lost := None, [], [], [], [], 0;
      deleting := false;
      cSR, signedIntermediate := "", "";
    }

    ghost function State(): World
      reads this, store
    {
      World(store.stored, secret, generated, signs, submitted, configs, lost, deleting)
    }

    ghost function UnderWay(issue: bool): Cycle
      reads this, store
    {
      Cycle(State(), status, cSR, issue)
    }

    method CreateExported(csr: string, call: CallOutcome) returns (exported: bool, failed: bool)
      modifies this`secret, this`cSR
      ensures !spec.exportKey ==> !exported && !failed && secret == old(secret)
      ensures spec.exportKey ==> failed == (old(secret).Some? || !call.Done?)
      ensures spec.exportKey ==> secret == if old(secret).None? && call.Applied() then Some(csr) else old(secret)
      ensures exported == (spec.exportKey && !failed)
      ensures cSR == if failed || spec.root then old(cSR) else csr
    {
      exported := spec.exportKey;
      if exported {
        if secret.Some? {
          return false, true;
        }
        if call.Applied() {
          secret := Some(csr);
        }
        if !call.Done? {
          return false, true;
        }
      }
      if !spec.root {
        cSR := csr;
      }
      failed := false;
    }

    method GenerateAndExport(calls: Calls) returns (failed: bool)
      requires cSR == ""
      modifies this`secret, this`cSR, this`generated, this`status
      ensures UnderWay(failed) == Generate(spec, calls, old(UnderWay(false)))
    {
      if !status.generated {
        if calls.generate.None? {
          return true;
        }
        var csr := if spec.root then "" else calls.generate.value;
        generated := generated + [csr];
        status := status.(generated := true);
        var exported;
        exported, failed := CreateExported(csr, calls.createSecret);
        if failed {
          return;
        }
        status := status.(exported := exported);
      }
      failed := false;
    }

    method SetIntermediate(calls: Calls) returns (failed: bool)
      requires !spec.root
      modifies this`cSR, this`signedIntermediate, this`signs, this`submitted
      ensures !status.signed ==>
        var c := Sign(spec, calls, old(UnderWay(false)));
        Cycle(State(), if failed then status else status.(signed := true), cSR, failed) == c
    {
      if spec.internalSign {
        if cSR == "" {
          if !calls.getSecret || secret.None? {
            return true;
          }
          cSR := secret.value;
        }
        signs := signs + [SignRequest(cSR, calls.sign)];
        if calls.sign.None? {
          return true;
        }
        signedIntermediate := calls.sign.value;
      } else {
        if !spec.externalSign {
          return true;
        }
        if calls.getExternal.None? {
          return true;
        }
        signedIntermediate := calls.getExternal.value;
      }
      submitted := submitted + [signedIntermediate];
      failed := !calls.submit;
    }

    method CreateOrUpdateConfig(payload: ConfigPayload, answer: Option<Config>, write: CallOutcome)
      returns (failed: bool)
      modifies this`configs
      ensures UnderWay(failed) == Configure(spec, payload, answer, write, old(UnderWay(false)))
    {
      if answer.None? {
        return true;
      }
      if !Equivalent(spec, answer.value) {
        if write.Applied() {
          configs := configs + [ConfigWrite(CrlPath, payload)];
        }
        return !write.Done?;
      }
      failed := false;
    }

    method SignUnlessSigned(calls: Calls) returns (failed: bool)
      modifies this`status, this`cSR, this`signedIntermediate, this`signs, this`submitted
      ensures UnderWay(failed) == Sign(spec, calls, old(UnderWay(false)))
    {
      hide Submit;
      var signed := spec.root || status.signed;
      if signed {
        return false;
      }
      failed := SetIntermediate(calls);
      if !failed {
        status := status.(signed := true);
      }
    }

    method ManageReconcileLogic(calls: Calls) returns (failed: bool)
      requires status == store.stored.status && cSR == ""
      modifies this
      ensures UnderWay(failed) == Work(spec, calls, old(State()))
    {
      hide Generate, Sign, Configure;
      failed := GenerateAndExport(calls);
      if failed {
        return;
      }
      failed := SignUnlessSigned(calls);
      if failed {
        return;
      }
      failed := CreateOrUpdateConfig(Urls, calls.urls, calls.writeUrls);
      if failed {
        return;
      }
      failed := CreateOrUpdateConfig(Crl, calls.crl, calls.writeCrl);
    }

    /** Stores the outcome of the cycle. */
    method StoreOutcome(issue: bool, call: CallOutcome, ghost generatedBefore: nat) returns (failed: bool)
      modifies store, this`lost
      ensures Cycled(State(), failed) == Conclude(spec, call, generatedBefore, old(UnderWay(issue)))
    {
      failed := store.ManageOutcomeWithRequeue(status, issue, false, spec.generation, call, Done);
      if |generated| > generatedBefore && call.Refused? {
        lost := lost + 1;
      }
    }

    method CleanUp(calls: Calls) returns (failed: bool)
      modifies store
      ensures Cycled(State(), failed) == ReconcileDeletion(spec, calls, old(State()))
    {
      if !store.stored.finalizer {
        return false;
      }
      failed := store.UpdateFinalizer(false, calls.release);
      if failed {
        failed := store.ManageOutcomeWithRequeue(store.stored.status, true, false, spec.generation, calls.status, Done);
      }
    }

    method Reconcile(calls: Calls) returns (failed: bool)
      modifies this, store
      ensures Cycled(State(), failed) == CycleOf(spec, calls, old(State()))
    {
      if deleting {
        failed := CleanUp(calls);
        return;
      }
      status, cSR, signedIntermediate := store.stored.status, "", "";
      ghost var before := |generated|;
      failed := ManageReconcileLogic(calls);
      failed := StoreOutcome(failed, calls.status, before);
    }
  }
}
