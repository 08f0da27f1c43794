/** The controller of controllers/vaultsecret_controller.go, proved against the protocol. */
module VaultSecretController {
  import opened Basics
  import opened Persistence
  import opened VaultSecret
  import HashData
  import RefreshDuration

  class VaultSecretReconciler {
    const env: Setting
    const store: ObjectStore<Status>
    var now: int
    var phase: Phase
    var secret: Option<Secret>
    var queued: bool
    var due: Option<int>
    ghost var writes: nat

    constructor (env: Setting, now: int, secret: Option<Secret>)
      requires secret.Some? ==> !IsOwner(env.spec, secret.value)
      ensures this.env == env && this.now == now && this.secret == secret && Initial(env, State()) && fresh(store)
    {
      this.env, this.now, this.secret := env, now, secret;
      store := new ObjectStore<Status>(Stored([], Status(None, None, []), false));
      phase, queued, due, writes := Live, true, None, 0;
    }

    ghost function State(): World
      reads this, store
    {
      World(now, phase, store.stored, secret, queued, due, writes)
    }

    // ---- Ownership and drift ----

    static method FindOwner(spec: Spec, s: Secret) returns (found: bool)
      ensures found <==> IsOwner(spec, s)
      ensures found <==> exists r <- s.owners :: r.name == spec.name && r.uid == spec.uid && r.kind == VAULT_SECRET_KIND
    {
      for i := 0 to |s.owners|
        invariant forall r <- s.owners[..i] :: !Refers(spec, r)
      {
        if Refers(spec, s.owners[i]) {
          return true;
        }
      }
      return false;
    }

    static method IsOwnedSecretByController(s: Secret) returns (found: bool)
      ensures found <==> IsOwnedByController(s)
      ensures found <==> exists r <- s.owners :: r.kind == VAULT_SECRET_KIND
    {
      for i := 0 to |s.owners|
        invariant forall r <- s.owners[..i] :: r.kind != VAULT_SECRET_KIND
      {
        if s.owners[i].kind == VAULT_SECRET_KIND {
          return true;
        }
      }
      return false;
    }

    /** The update predicate of the watch on Secrets. */
    method UpdateFunc(s: Secret) returns (accepted: bool)
      ensures accepted <==> WatchAcceptsUpdate(env.sha, s)
    {
      var owned := IsOwnedSecretByController(s);
      if owned {
        var hash := Annotation(s, HASH_ANNOTATION);
        if hash.None? {
          return true;
        }
        var actual := HashData.Compute(env.sha, s.data);
        return hash.value != actual;
      }
      return false;
    }

    /** The delete predicate of the watch on Secrets. */
    method DeleteFunc(s: Secret) returns (accepted: bool)
      ensures accepted <==> IsOwnedByController(s)
    {
      accepted := IsOwnedSecretByController(s);
    }

    /** None stands for an error. */
    method DecideSync(calls: Calls) returns (sync: Option<bool>)
      ensures sync == ShouldSync(env, calls, State())
    {
      if !calls.lookup {
        return None;
      }
      if secret.None? {
        return Some(true);
      }
      var owner := FindOwner(env.spec, secret.value);
      if !owner {
        return None;
      }
      if secret.value.annotations.None? {
        return Some(true);
      }
      var annotations := secret.value.annotations.value;
      if HASH_ANNOTATION !in annotations {
        return Some(true);
      }
      var actual := HashData.Compute(env.sha, secret.value.data);
      if annotations[HASH_ANNOTATION] != actual {
        return Some(true);
      }
      var status := store.stored.status;
      if status.last.Some? {
        var duration, ok :=
          RefreshDuration.CalculateDuration(env.spec.refreshPeriod, env.spec.refreshThreshold, status.leases);
        if !ok {
          return Some(false);
        }
        if !(status.last.value + duration < now) {
          return Some(false);
        }
      }
      return Some(true);
    }

    // ---- Synchronization ----

    /** Renders the templates in whatever order the map hands them out, up to the first failure. */
    method RenderAll(values: map<string, Values>) returns (data: Option<map<Bytes, Bytes>>)
      ensures data == if AllRender(env, values) then Some(Rendered(env, values)) else None
    {
      var stringData := env.spec.stringData;
      var bytesData: map<Bytes, Bytes> := map[];
      var left := stringData.Keys;
      while left != {}
        invariant left <= stringData.Keys
        invariant bytesData.Keys == stringData.Keys - left
        invariant forall k <- bytesData :: env.render(stringData[k], values) == Some(bytesData[k])
        decreases |left|
      {
        var k :| k in left;
        left := left - {k};
        var rendered := env.render(stringData[k], values);
        if rendered.None? {
          return None;
        }
        bytesData := bytesData[k := rendered.value];
      }
      assert bytesData == Rendered(env, values);
      return Some(bytesData);
    }

    method MergeAnnotations(base: map<string, string>) returns (annotations: map<string, string>)
      ensures annotations == base + env.spec.annotations
    {
      annotations := base;
      var left := env.spec.annotations.Keys;
      while left != {}
        invariant left <= env.spec.annotations.Keys
        invariant annotations.Keys == base.Keys + (env.spec.annotations.Keys - left)
        invariant forall k <- annotations ::
          annotations[k] == if k in env.spec.annotations && k !in left then env.spec.annotations[k] else base[k]
        decreases |left|
      {
        var k :| k in left;
        left := left - {k};
        annotations := annotations[k := env.spec.annotations[k]];
      }
    }

    method FormatK8sSecret(values: map<string, Values>) returns (s: Option<Secret>)
      ensures s == if AllRender(env, values) then Some(Formatted(env, values)) else None
    {
      var data := RenderAll(values);
      if data.None? {
        return None;
      }
      var hash := HashData.Compute(env.sha, data.value);
      var annotations := MergeAnnotations(map[HASH_ANNOTATION := hash]);
      return Some(Secret(data.value, Some(annotations), [Reference(env.spec)]));
    }

    /** Reads the definitions in order, up to the first failure. */
    method ReadDefinitions(calls: Calls) returns (g: Option<Gathered>)
      ensures g == Gather(env.spec.definitions, calls.answers, |env.spec.definitions|)
    {
      var definitions := env.spec.definitions;
      var values: map<string, Values>, leases: seq<RefreshDuration.DefinitionStatus> := map[], [];
      for i := 0 to |definitions|
        invariant Gather(definitions, calls.answers, i) == Some(Gathered(values, leases))
      {
        var read := ReadOf(calls.answers, i);
        if read.Unreadable? {
          NothingAfterFailure(definitions, calls.answers, i, |definitions|);
          return None;
        }
        leases := leases + [RefreshDuration.DefinitionStatus(definitions[i], read.lease)];
        values := values[definitions[i] := Payload(read)];
      }
      return Some(Gathered(values, leases));
    }

    method CreateOrUpdateResource(s: Secret, lookup: bool, call: CallOutcome) returns (failed: bool, notified: bool)
      modifies this`secret, this`writes
      ensures var applied := lookup && call.Applied();
        && (failed <==> !lookup || !call.Done?)
        && secret == (if applied then Some(s) else old(secret))
        && writes == (if applied then old(writes) + 1 else old(writes))
        && (notified <==> applied && old(secret).Some? && UpdateQueues(env, s))
    {
      if !lookup {
        return true, false;
      }
      notified := false;
      if call.Applied() {
        if secret.Some? {
          var accepted := UpdateFunc(s);
          notified := accepted && Routed(env.spec, s);
        }
        secret, writes := Some(s), writes + 1;
      }
      failed := !call.Done?;
    }

    method ManageSyncLogic(calls: Calls)
      returns (leases: Option<seq<RefreshDuration.DefinitionStatus>>, notified: bool)
      modifies this`secret, this`writes
      ensures Attempt(State(), leases, notified) == Sync(env, calls, old(State()))
    {
      hide Gather, Formatted, UpdateQueues;
      var g := ReadDefinitions(calls);
      if g.None? {
        return None, false;
      }
      var s := FormatK8sSecret(g.value.values);
      if s.None? {
        return None, false;
      }
      var failed;
      failed, notified := CreateOrUpdateResource(s.value, calls.lookupAgain, calls.write);
      return if failed then None else Some(g.value.leases), notified;
    }

    // ---- One cycle ----

    method ReportFailure(calls: Calls, ghost notified: bool) returns (result: Result)
      modifies store
      ensures Outcome(State(), result, notified) == Fail(env, calls, old(State()), notified)
    {
      var failed := store.ManageOutcomeWithRequeue(store.stored.status, true, true, env.spec.generation,
                                                   calls.status, calls.finalizer);
      assert failed;
      return Error;
    }

    /** Schedules the next update, counted from the latest one. */
    method ScheduleNext(calls: Calls, last: Option<int>, memory: Status, ghost notified: bool) returns (result: Result)
      requires last.Some?
      modifies store
      ensures Outcome(State(), result, notified) == Conclude(env, calls, old(State()), last, memory, notified)
    {
      var status := memory;
      var duration, ok :=
        RefreshDuration.CalculateDuration(env.spec.refreshPeriod, env.spec.refreshThreshold, status.leases);
      if !ok {
        status := status.(next := None);
        var failed := store.ManageOutcomeWithRequeue(status, false, true, env.spec.generation,
                                                     calls.status, calls.finalizer);
        return if failed then Error else NoRequeue;
      }
      var nextUpdateTime := last.value + duration;
      status := status.(next := Some(Persisted(nextUpdateTime, SECOND)));
      var nextSchedule := nextUpdateTime - now;
      if !(nextSchedule > 0) {
        nextSchedule := SECOND;
      }
      var failed := store.ManageOutcomeWithRequeue(status, false, true, env.spec.generation,
                                                   calls.status, calls.finalizer);
      return if failed then Error else Requeue(nextSchedule);
    }

    method ReconcileSecret(calls: Calls) returns (result: Result, notified: bool)
      modifies this`secret, this`writes, store
      ensures Outcome(State(), result, notified) == ReconcileLive(env, calls, old(State()))
    {
      hide Fail, Conclude, Sync, ShouldSync;
      var sync := DecideSync(calls);
      notified := false;
      if sync.None? {
        result := ReportFailure(calls, notified);
        return;
      }
      var last, status := store.stored.status.last, store.stored.status;
      if sync.value {
        var leases;
        leases, notified := ManageSyncLogic(calls);
        if leases.None? {
          result := ReportFailure(calls, notified);
          return;
        }
        last := Some(now);
        status := Status(Some(Persisted(now, SECOND)), status.next, leases.value);
      }
      result := ScheduleNext(calls, last, status, notified);
    }

    /** DeleteResourceIfExists does not ask who owns the Secret. */
    method ManageCleanUpLogic(call: CallOutcome) returns (failed: bool, notified: bool)
      modifies this`secret
      ensures secret == if call.Applied() then None else old(secret)
      ensures notified <==> call.Applied() && old(secret).Some? && DeletionQueues(env.spec, old(secret).value)
      ensures failed <==> !call.Done?
    {
      notified := false;
      if call.Applied() && secret.Some? {
        var accepted := DeleteFunc(secret.value);
        notified := accepted && Routed(env.spec, secret.value);
        secret := None;
      }
      failed := !call.Done?;
    }

    method ReconcileDeletion(calls: Calls) returns (result: Result, notified: bool)
      modifies this`secret, store
      ensures Outcome(State(), result, notified) == ReconcileTerminating(env, calls, old(State()))
    {
      hide Report;
      if !store.stored.finalizer {
        return NoRequeue, false;
      }
      var failed;
      failed, notified := ManageCleanUpLogic(calls.delete);
      if failed {
        result := ReportFailure(calls, notified);
        return;
      }
      failed := store.UpdateFinalizer(false, calls.release);
      if failed {
        result := ReportFailure(calls, notified);
        return;
      }
      result := NoRequeue;
    }

    /** One cycle of the work queue. */
    method Reconcile(calls: Calls)
      modifies this, store
      ensures State() == Step(env, old(State()), Event.Reconcile(calls))
    {
      hide ReconcileLive, ReconcileTerminating;
      if !queued {
        return;
      }
      var result, notified := NoRequeue, false;
      if phase.Terminating? {
        result, notified := ReconcileDeletion(calls);
        if !store.stored.finalizer {
          phase := Gone;
        }
      } else if phase.Live? {
        result, notified := ReconcileSecret(calls);
      }
      match result
      case Error =>
      case NoRequeue => queued := notified;
      case Requeue(after) => queued, due := notified, Earlier(due, now + after);
    }
  }

  lemma {:induction false} NothingAfterFailure(definitions: seq<string>, answers: seq<Read>, i: nat, n: nat)
    requires i < n <= |definitions| && ReadOf(answers, i).Unreadable?
    ensures Gather(definitions, answers, n).None?
  {
    if i < n - 1 {
      NothingAfterFailure(definitions, answers, i, n - 1);
    }
  }
}
