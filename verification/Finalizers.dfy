/** The reconcile and clean-up protocol of Vault resources:
    controllers/vaultresourcecontroller/vaultresourcereconciler.go. */
module Finalizers {
  import opened Basics
  import opened Persistence

  /** The custom resource in the API server, and the Vault entry at its path. */
  datatype World = World(
    phase: Phase,
    resource: Stored<()>,
    othersHold: bool,   // another controller's finalizer is present
    entry: Option<Payload>,
    deleteCalls: nat)   // DeleteIfExists calls made so far
  {
    predicate InVault() {
      entry.Some?
    }
  }

  type Payload = map<string, string>

  /** What the resource asks for, and which entries it takes as equivalent to that. */
  datatype Kind = Kind(deletable: bool, generation: int, desired: Payload, equivalent: Payload -> bool)

  /** What happens to the calls of one cycle. */
  datatype Calls = Calls(
    prepare: bool, tls: bool, read: bool, write: CallOutcome,
    delete: CallOutcome, release: CallOutcome,
    status: CallOutcome, finalizer: CallOutcome)

  datatype Event =
    | Reconcile(calls: Calls)
    | RequestDeletion
    | OthersRelease
    | VaultLosesEntry
    | VaultChangesEntry(payload: Payload)

  // ---- One step ----

  /** The state after a cycle, and whether the cycle is reported as failed, and so retried. */
  datatype Cycled = Cycled(w: World, failed: bool)

  function Manage(w: World, kind: Kind, issue: bool, calls: Calls): Cycled {
    var m := ManageOutcome(w.resource, w.resource.conditions, (), issue, kind.deletable, kind.generation,
                           calls.status, calls.finalizer);
    Cycled(w.(resource := m.stored), m.failed)
  }

  /** CreateOrUpdate reaches its write when nothing before it fails and the entry is missing or outdated. */
  predicate Writes(w: World, kind: Kind, calls: Calls) {
    calls.prepare && calls.tls && calls.read && !(w.entry.Some? && kind.equivalent(w.entry.value))
  }

  function Written(w: World, kind: Kind, calls: Calls): World {
    if Writes(w, kind, calls) && calls.write.Applied() then w.(entry := Some(kind.desired)) else w
  }

  predicate Issue(w: World, kind: Kind, calls: Calls) {
    !(calls.prepare && calls.tls && calls.read) || (Writes(w, kind, calls) && !calls.write.Done?)
  }

  function ReconcileLive(w: World, kind: Kind, calls: Calls): Cycled {
    Manage(Written(w, kind, calls), kind, Issue(w, kind, calls), calls)
  }

  /** With nobody's finalizer left, the API server lets the resource go. */
  function Settle(w: World): World {
    if w.phase.Terminating? && !w.resource.finalizer && !w.othersHold then w.(phase := Gone) else w
  }

  predicate CallsDelete(w: World, kind: Kind) {
    kind.deletable && Succeeded(w.resource.conditions)
  }

  function Deleted(w: World, calls: Calls): World {
    w.(deleteCalls := w.deleteCalls + 1, entry := if calls.delete.Applied() then None else w.entry)
  }

  function Released(w: World): World {
    w.(resource := w.resource.(finalizer := false))
  }

  function ReconcileTerminating(w: World, kind: Kind, calls: Calls): Cycled {
    if !w.resource.finalizer then Cycled(w, false)
    else
      var calling := CallsDelete(w, kind);
      var w' := if calling then Deleted(w, calls) else w;
      if calling && !calls.delete.Done? then Manage(w', kind, true, calls)
      else
        var w'' := if calls.release.Applied() then Released(w') else w';
        if calls.release.Done? then Cycled(Settle(w''), false)
        else
          var c := Manage(w'', kind, true, calls);
          c.(w := Settle(c.w))
  }

  function Cycle(w: World, kind: Kind, calls: Calls): Cycled {
    match w.phase
    case Live => ReconcileLive(w, kind, calls)
    case Terminating => ReconcileTerminating(w, kind, calls)
    case Gone => Cycled(w, false)
  }

  function Step(w: World, kind: Kind, e: Event): World {
    match e
    case Reconcile(calls) => Cycle(w, kind, calls).w
    case RequestDeletion =>
      if !w.phase.Live? then w
      else Settle(w.(phase := Terminating))
    case OthersRelease => Settle(w.(othersHold := false))
    case VaultLosesEntry => w.(entry := None)
    case VaultChangesEntry(payload) => if w.entry.Some? then w.(entry := Some(payload)) else w
  }

  function Run(w: World, kind: Kind, events: seq<Event>): World
    decreases |events|
  {
    if events == [] then w else Run(Step(w, kind, events[0]), kind, events[1..])
  }

  /** A freshly created resource; other controllers may already hold it. */
  predicate Initial(w: World) {
    w.phase.Live? && w.resource == Stored([], (), false) && w.entry.None? && w.deleteCalls == 0
  }

  // ---- What every step keeps ----

  predicate Inv(w: World, kind: Kind) {
    && OnePerKind(w.resource.conditions)
    && (w.resource.finalizer ==> kind.deletable && Succeeded(w.resource.conditions))
    && (!kind.deletable ==> w.deleteCalls == 0)
    && (w.phase.Gone? ==> !w.resource.finalizer)
  }

  lemma ManageKeepsInv(w: World, kind: Kind, issue: bool, calls: Calls)
    requires OnePerKind(w.resource.conditions)
    requires w.resource.finalizer ==> kind.deletable && Succeeded(w.resource.conditions)
    ensures var w' := Manage(w, kind, issue, calls).w;
      && OnePerKind(w'.resource.conditions)
      && (w'.resource.finalizer ==> kind.deletable && Succeeded(w'.resource.conditions))
      && (w.resource.finalizer ==> w'.resource.finalizer)
      && (issue ==> w'.resource.finalizer == w.resource.finalizer)
      && (Succeeded(w.resource.conditions) ==> Succeeded(w'.resource.conditions))
  {
    OutcomeKeepsSuccess(w.resource, (), issue, kind.deletable, kind.generation, calls.status, calls.finalizer);
  }

  lemma TerminatingKeepsInv(w: World, kind: Kind, calls: Calls)
    requires Inv(w, kind) && w.phase.Terminating?
    ensures Inv(ReconcileTerminating(w, kind, calls).w, kind)
    ensures Succeeded(w.resource.conditions) ==> Succeeded(ReconcileTerminating(w, kind, calls).w.resource.conditions)
  {
    hide ManageOutcome;
    if w.resource.finalizer {
      var w' := Deleted(w, calls);
      ManageKeepsInv(w', kind, true, calls);
      ManageKeepsInv(Released(w'), kind, true, calls);
    }
  }

  lemma StepKeepsInv(w: World, kind: Kind, e: Event)
    requires Inv(w, kind)
    ensures Inv(Step(w, kind, e), kind)
    ensures Succeeded(w.resource.conditions) ==> Succeeded(Step(w, kind, e).resource.conditions)
  {
    match e
    case Reconcile(calls) =>
      if w.phase.Live? {
        ManageKeepsInv(Written(w, kind, calls), kind, Issue(w, kind, calls), calls);
      } else if w.phase.Terminating? {
        TerminatingKeepsInv(w, kind, calls);
      }
    case _ =>
  }

  lemma {:induction false} RunKeepsInv(w: World, kind: Kind, events: seq<Event>)
    requires Inv(w, kind)
    ensures Inv(Run(w, kind, events), kind)
    ensures Succeeded(w.resource.conditions) ==> Succeeded(Run(w, kind, events).resource.conditions)
    decreases |events|
  {
    if events != [] {
      StepKeepsInv(w, kind, events[0]);
      RunKeepsInv(Step(w, kind, events[0]), kind, events[1..]);
    }
  }

  // ---- Main results ----

  /** In every run, whatever calls fail, a resource that carries the finalizer has its success on
      record, and success once on record stays there. */
  lemma FinalizerImpliesSuccess(w: World, kind: Kind, events: seq<Event>, later: seq<Event>)
    requires Initial(w)
    ensures var v := Run(w, kind, events);
      && (v.resource.finalizer ==> kind.deletable && Succeeded(v.resource.conditions))
      && (Succeeded(v.resource.conditions) ==> Succeeded(Run(v, kind, later).resource.conditions))
  {
    RunKeepsInv(w, kind, events);
    RunKeepsInv(Run(w, kind, events), kind, later);
  }

  /** Success and finalizer go on record only in a cycle of a live object that ends with the entry in Vault. */
  lemma SuccessIsEarned(w: World, kind: Kind, e: Event)
    requires Inv(w, kind)
    ensures var v := Step(w, kind, e);
      Succeeded(v.resource.conditions) && !Succeeded(w.resource.conditions) ==>
        e.Reconcile? && w.phase.Live? && UpToDate(w, v, kind) && e.calls.prepare && e.calls.tls && e.calls.read
    ensures var v := Step(w, kind, e);
      v.resource.finalizer && !w.resource.finalizer ==> w.phase.Live? && UpToDate(w, v, kind)
  {
    if e.Reconcile? && w.phase.Live? {
      SuccessNeedsNoIssue(w, kind, e.calls);
    } else if e.Reconcile? && w.phase.Terminating? {
      hide ManageOutcome;
      var w' := Deleted(w, e.calls);
      FailureEarnsNothing(w', kind, e.calls);
      FailureEarnsNothing(w, kind, e.calls);
      FailureEarnsNothing(Released(w), kind, e.calls);
      FailureEarnsNothing(Released(w'), kind, e.calls);
    }
  }

  lemma FailureEarnsNothing(w: World, kind: Kind, calls: Calls)
    ensures var v := Manage(w, kind, true, calls).w;
      && (Succeeded(v.resource.conditions) ==> Succeeded(w.resource.conditions))
      && v.resource.finalizer == w.resource.finalizer
  {
    SuccessIsRemembered(OutcomeCondition(true, kind.generation), w.resource.conditions);
  }

  lemma SuccessNeedsNoIssue(w: World, kind: Kind, calls: Calls)
    ensures var v := ReconcileLive(w, kind, calls).w;
      var earned := Succeeded(v.resource.conditions) && !Succeeded(w.resource.conditions);
      earned || (v.resource.finalizer && !w.resource.finalizer) ==>
        UpToDate(w, v, kind) && calls.prepare && calls.tls && calls.read
  {
    if Issue(w, kind, calls) {
      FailureEarnsNothing(Written(w, kind, calls), kind, calls);
    }
  }

  /** The entry is what the resource asks for, or is the one found before and judged equivalent. */
  predicate UpToDate(w: World, v: World, kind: Kind) {
    v.entry == Some(kind.desired) || (v.entry.Some? && v.entry == w.entry && kind.equivalent(v.entry.value))
  }

  /** A cycle of a live object changes the entry exactly if it is missing or not equivalent and the calls
      get through: to what the resource asks for. */
  lemma EntryIsUpdatedIff(w: World, kind: Kind, calls: Calls)
    requires w.phase.Live?
    ensures var outdated := w.entry.None? || !kind.equivalent(w.entry.value);
      var reached := calls.prepare && calls.tls && calls.read && calls.write.Applied();
      Cycle(w, kind, calls).w.entry == if outdated && reached then Some(kind.desired) else w.entry
  {
    hide ManageOutcome;
  }

  /** It succeeds exactly if all the calls that it needs do, and then entry, success and finalizer are as
      they should. */
  lemma LiveSucceedsIff(w: World, kind: Kind, calls: Calls)
    requires Inv(w, kind) && w.phase.Live?
    ensures var c := Cycle(w, kind, calls); var outdated := w.entry.None? || !kind.equivalent(w.entry.value);
      && (!c.failed <==>
            && calls.prepare && calls.tls && calls.read && (outdated ==> calls.write.Done?)
            && calls.status.Done? && (kind.deletable && !w.resource.finalizer ==> calls.finalizer.Done?))
      && (!c.failed ==>
            && UpToDate(w, c.w, kind) && Succeeded(c.w.resource.conditions)
            && c.w.resource.finalizer == kind.deletable)
  {
    hide ManageOutcome;
    OutcomeIsRecorded(w.resource, (), Issue(w, kind, calls), kind.deletable, kind.generation,
                      calls.status, calls.finalizer);
    OutcomeKeepsSuccess(w.resource, (), Issue(w, kind, calls), kind.deletable, kind.generation,
                        calls.status, calls.finalizer);
  }

  /** A cycle of a terminating object that our finalizer holds succeeds exactly if the deletion, where
      success is on record, and the release do. */
  lemma TerminatingSucceedsIff(w: World, kind: Kind, calls: Calls)
    requires Inv(w, kind) && w.phase.Terminating? && w.resource.finalizer
    ensures !Cycle(w, kind, calls).failed <==> calls.delete.Done? && calls.release.Done?
  {
    hide AddOrReplace;
  }

  /** The step in which the finalizer goes away has deleted the Vault entry first. */
  lemma ReleaseComesAfterDelete(w: World, kind: Kind, events: seq<Event>, e: Event)
    requires Initial(w)
    ensures var v := Run(w, kind, events);
      v.resource.finalizer && !Step(v, kind, e).resource.finalizer ==>
        && v.phase.Terminating? && e.Reconcile? && e.calls.delete.Done?
        && Step(v, kind, e).deleteCalls == v.deleteCalls + 1 && !Step(v, kind, e).InVault()
  {
    var v := Run(w, kind, events);
    RunKeepsInv(w, kind, events);
    if v.resource.finalizer && !Step(v, kind, e).resource.finalizer {
      if v.phase.Live? && e.Reconcile? {
        ManageKeepsInv(Written(v, kind, e.calls), kind, Issue(v, kind, e.calls), e.calls);
      } else {
        var v' := Deleted(v, e.calls);
        ManageKeepsInv(v', kind, true, e.calls);
      }
    }
  }

  /** Nothing recreates the entry once the resource is being deleted without our finalizer. */
  lemma {:induction false} NothingRecreates(w: World, kind: Kind, events: seq<Event>)
    requires Inv(w, kind) && !w.phase.Live? && !w.resource.finalizer && !w.InVault()
    ensures var v := Run(w, kind, events); !v.InVault() && !v.resource.finalizer && !v.phase.Live?
    decreases |events|
  {
    if events != [] {
      StepKeepsInv(w, kind, events[0]);
      NothingRecreates(Step(w, kind, events[0]), kind, events[1..]);
    }
  }

  /** An object being deleted: released by a cycle that deleted the entry, or never protected. */
  lemma {:induction false} AfterDeletionRequest(w: World, kind: Kind, after: seq<Event>)
    requires Inv(w, kind) && !w.phase.Live?
    ensures var v := Run(w, kind, after);
      && (w.resource.finalizer && v.phase.Gone? ==> !v.InVault())
      && (!w.resource.finalizer ==> v.InVault() == (w.InVault() && VaultLosesEntry !in after))
    decreases |after|
  {
    if after != [] {
      var u := Step(w, kind, after[0]);
      StepKeepsInv(w, kind, after[0]);
      AfterDeletionRequest(u, kind, after[1..]);
      assert after == [after[0]] + after[1..];
      if w.resource.finalizer {
        TerminatingStep(w, kind, after[0]);
        if !u.resource.finalizer {
          NothingRecreates(u, kind, after[1..]);
        }
      }
    } else if w.resource.finalizer {
      assert !w.phase.Gone?;
    }
  }

  lemma TerminatingStep(w: World, kind: Kind, e: Event)
    requires Inv(w, kind) && w.phase.Terminating? && w.resource.finalizer
    ensures var v := Step(w, kind, e); !v.phase.Live? && (!v.resource.finalizer ==> !v.InVault())
  {
    if e.Reconcile? {
      var w' := Deleted(w, e.calls);
      ManageKeepsInv(w', kind, true, e.calls);
      ManageKeepsInv(Released(w'), kind, true, e.calls);
    }
  }

  lemma {:induction false} RunConcat(w: World, kind: Kind, before: seq<Event>, after: seq<Event>)
    ensures Run(w, kind, before + after) == Run(Run(w, kind, before), kind, after)
    decreases |before|
  {
    if before == [] {
      assert before + after == after;
    } else {
      assert (before + after)[1..] == before[1..] + after;
      RunConcat(Step(w, kind, before[0]), kind, before[1..], after);
    }
  }

  /** Deletion is requested of a live object. Once the object is gone, its entry is still there if and
      only if it was there at the request, the finalizer had not been persisted by then, and nobody
      else removed the entry afterwards. */
  lemma OrphanIff(w: World, kind: Kind, before: seq<Event>, after: seq<Event>)
    requires Initial(w) && Run(w, kind, before).phase.Live?
    ensures var u, v := Run(w, kind, before), Run(w, kind, before + [RequestDeletion] + after);
      v.phase.Gone? ==> (v.InVault() <==> u.InVault() && !u.resource.finalizer && VaultLosesEntry !in after)
  {
    var u := Run(w, kind, before);
    RunKeepsInv(w, kind, before);
    StepKeepsInv(u, kind, RequestDeletion);
    RunConcat(w, kind, before + [RequestDeletion], after);
    RunConcat(w, kind, before, [RequestDeletion]);
    var d := Step(u, kind, RequestDeletion);
    assert Run(u, kind, [RequestDeletion]) == Run(d, kind, []);
    AfterDeletionRequest(d, kind, after);
  }

  /** Such a run: the write succeeds, the status update is refused, and the user deletes. */
  lemma UnprotectedWriteIsOrphaned(kind: Kind, c: Calls)
    ensures var calls := c.(prepare := true, tls := true, read := true, write := Done, status := Refused);
      var v := Run(World(Live, Stored([], (), false), false, None, 0), kind, [Reconcile(calls), RequestDeletion]);
      v.phase.Gone? && v.InVault()
  {
    var calls := c.(prepare := true, tls := true, read := true, write := Done, status := Refused);
    var w := World(Live, Stored([], (), false), false, None, 0);
    var w1 := Step(w, kind, Reconcile(calls));
    assert w1.InVault() && !w1.resource.finalizer && w1.phase.Live?;
    var events := [Reconcile(calls), RequestDeletion];
    assert events[1..] == [RequestDeletion] && events[1..][1..] == [];
    assert Run(w, kind, events) == Run(w1, kind, [RequestDeletion]);
    assert Run(w1, kind, [RequestDeletion]) == Run(Step(w1, kind, RequestDeletion), kind, []);
  }

  /** Kinds that are not deletable never get a finalizer and are never deleted in Vault. */
  lemma NonDeletableIsLeftAlone(w: World, kind: Kind, events: seq<Event>)
    requires Initial(w) && !kind.deletable
    ensures var v := Run(w, kind, events); !v.resource.finalizer && v.deleteCalls == 0
  {
    RunKeepsInv(w, kind, events);
  }

  /** If all calls succeed, one cycle brings the entry about, with success and finalizer on record. */
  lemma SuccessfulCycleSettles(w: World, kind: Kind, calls: Calls)
    requires Inv(w, kind) && w.phase.Live? && calls.prepare && calls.tls && calls.read
    requires calls.write.Done? && calls.status.Done? && calls.finalizer.Done?
    ensures var v := Step(w, kind, Reconcile(calls));
      v.InVault() && Succeeded(v.resource.conditions) && v.resource.finalizer == kind.deletable
  {
    hide AddOrReplace;
    SuccessIsRemembered(OutcomeCondition(false, kind.generation), w.resource.conditions);
  }

  /** If its calls succeed and nobody else holds the object, one cycle lets object and entry go. */
  lemma SuccessfulDeletionCompletes(w: World, kind: Kind, calls: Calls)
    requires Inv(w, kind) && w.phase.Terminating? && w.resource.finalizer && !w.othersHold
    requires calls.delete.Done? && calls.release.Done?
    ensures var v := Step(w, kind, Reconcile(calls)); v.phase.Gone? && !v.InVault()
  {
  }

  // ---- The reconciler ----

  class VaultResource {
    const kind: Kind
    const store: ObjectStore<()>
    var phase: Phase
    var othersHold: bool
    var entry: Option<Payload>
    var deleteCalls: nat

    constructor (kind: Kind, othersHold: bool)
      ensures Initial(State()) && fresh(store) && this.kind == kind
    {
      this.kind := kind;
      store := new ObjectStore<()>(Stored([], (), false));
      phase, this.othersHold, entry, deleteCalls := Live, othersHold, None, 0;
    }

    ghost function State(): World
      reads this, store
    {
      World(phase, store.stored, othersHold, entry, deleteCalls)
    }

    method DeleteIfExists(call: CallOutcome) returns (failed: bool)
      modifies this`entry, this`deleteCalls
      ensures deleteCalls == old(deleteCalls) + 1 && entry == if call.Applied() then None else old(entry)
      ensures failed <==> !call.Done?
    {
      deleteCalls := deleteCalls + 1;
      if call.Applied() {
        entry := None;
      }
      failed := !call.Done?;
    }

    /** Calls DeleteIfExists for each condition that records success: once, as there is one per kind. */
    method ManageCleanUpLogic(call: CallOutcome) returns (failed: bool)
      requires OnePerKind(store.stored.conditions)
      modifies this`entry, this`deleteCalls
      ensures !CallsDelete(old(State()), kind) ==> !failed && State() == old(State())
      ensures CallsDelete(old(State()), kind) ==>
        State() == old(State()).(deleteCalls := old(deleteCalls) + 1,
                                 entry := if call.Applied() then None else old(entry))
      ensures CallsDelete(old(State()), kind) ==> (failed <==> !call.Done?)
    {
      if !kind.deletable {
        return false;
      }
      var conditions := store.stored.conditions;
      ghost var called := false;
      for i := 0 to |conditions|
        invariant called <==>
          exists j | 0 <= j < i :: conditions[j].kind == RECONCILE_SUCCESSFUL && conditions[j].isTrue
        invariant !called ==> State() == old(State())
        invariant called ==> call.Done?
        invariant called ==>
          State() == old(State()).(deleteCalls := old(deleteCalls) + 1,
                                 entry := if call.Applied() then None else old(entry))
      {
        if conditions[i].isTrue && conditions[i].kind == RECONCILE_SUCCESSFUL {
          failed := DeleteIfExists(call);
          called := true;
          if failed {
            return;
          }
        }
      }
      failed := false;
    }

    /** Reads the entry and writes what is asked for if that is missing or not equivalent. */
    method CreateOrUpdate(calls: Calls) returns (failed: bool)
      modifies this`entry
      ensures var outdated := old(entry).None? || !kind.equivalent(old(entry).value);
        && entry == (if calls.read && outdated && calls.write.Applied() then Some(kind.desired) else old(entry))
        && (failed <==> !calls.read || (outdated && !calls.write.Done?))
    {
      if !calls.read {
        return true;
      }
      if entry.Some? {
        if kind.equivalent(entry.value) {
          return false;
        }
      }
      if calls.write.Applied() {
        entry := Some(kind.desired);
      }
      return !calls.write.Done?;
    }

    /** PrepareInternalValues, PrepareTLSConfig and CreateOrUpdate in turn. */
    method ManageReconcileLogic(calls: Calls) returns (failed: bool)
      modifies this`entry
      ensures State() == Written(old(State()), kind, calls) && failed == Issue(old(State()), kind, calls)
    {
      if !calls.prepare {
        return true;
      }
      if !calls.tls {
        return true;
      }
      failed := CreateOrUpdate(calls);
    }

    method ManageOutcomeOf(failed: bool, calls: Calls) returns (reported: bool)
      modifies store
      ensures Cycled(State(), reported) == Manage(old(State()), kind, failed, calls)
    {
      hide ManageOutcome;
      reported := store.ManageOutcomeWithRequeue((), failed, kind.deletable, kind.generation,
                                                 calls.status, calls.finalizer);
    }

    method ReconcileDeletion(calls: Calls) returns (failed: bool)
      requires OnePerKind(store.stored.conditions) && phase.Terminating?
      modifies this, store
      ensures Cycled(State(), failed) == ReconcileTerminating(old(State()), kind, calls)
    {
      hide Manage, Succeeded, OnePerKind;
      if !store.stored.finalizer {
        return false;
      }
      failed := ManageCleanUpLogic(calls.delete);
      if failed {
        failed := ManageOutcomeOf(true, calls);
        return;
      }
      failed := store.UpdateFinalizer(false, calls.release);
      if failed {
        failed := ManageOutcomeOf(true, calls);
      }
      if !store.stored.finalizer && !othersHold {
        phase := Gone;
      }
    }

    method Reconcile(calls: Calls) returns (failed: bool)
      requires OnePerKind(store.stored.conditions)
      modifies this, store
      ensures Cycled(State(), failed) == Cycle(old(State()), kind, calls)
    {
      hide Manage, Succeeded, Written, Issue, ReconcileTerminating;
      if phase.Gone? {
        return false;
      }
      if phase.Terminating? {
        failed := ReconcileDeletion(calls);
        return;
      }
      failed := ManageReconcileLogic(calls);
      failed := ManageOutcomeOf(failed, calls);
    }
  }
}
