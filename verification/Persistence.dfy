/** How every controller records the outcome of a cycle: AddOrReplaceCondition of
    api/v1alpha1/utils/commons.go and ManageOutcomeWithRequeue of
    controllers/vaultresourcecontroller/utils.go. */
module Persistence {
  import opened Basics

  const RECONCILE_SUCCESSFUL := "ReconcileSuccessful"
  const RECONCILE_FAILED := "ReconcileFailed"

  datatype Condition = Condition(kind: string, isTrue: bool, generation: int)

  /** The list is declared as a map keyed by kind. */
  predicate OnePerKind(conditions: seq<Condition>) {
    forall i, j | 0 <= i < j < |conditions| :: conditions[i].kind != conditions[j].kind
  }

  /** The position of the first condition of a kind, or the length of the list. */
  function IndexOf(kind: string, conditions: seq<Condition>): (n: nat)
    ensures n <= |conditions|
    ensures n < |conditions| ==> conditions[n].kind == kind
    ensures forall i | 0 <= i < n :: conditions[i].kind != kind
  {
    if conditions == [] || conditions[0].kind == kind then 0 else 1 + IndexOf(kind, conditions[1..])
  }

  function AddOrReplace(c: Condition, conditions: seq<Condition>): seq<Condition> {
    var n := IndexOf(c.kind, conditions);
    if n < |conditions| then conditions[n := c] else conditions + [c]
  }

  /** The list read as a map from kind to condition. */
  function Lookup(kind: string, conditions: seq<Condition>): Option<Condition> {
    var n := IndexOf(kind, conditions);
    if n < |conditions| then Some(conditions[n]) else None
  }

  /** The list behaves as a last-writer-wins map by kind and keeps at most one entry per kind. */
  lemma AddOrReplaceIsMapUpdate(c: Condition, conditions: seq<Condition>, kind: string)
    ensures OnePerKind(conditions) ==> OnePerKind(AddOrReplace(c, conditions))
    ensures Lookup(kind, AddOrReplace(c, conditions)) ==
      if kind == c.kind then Some(c) else Lookup(kind, conditions)
  {
    var r, n := AddOrReplace(c, conditions), IndexOf(c.kind, conditions);
    assert r[n] == c;
    assert forall i | 0 <= i < |conditions| && i != n :: r[i] == conditions[i];
    var m := IndexOf(kind, r);
    if kind != c.kind {
      var l := IndexOf(kind, conditions);
      assert l < |conditions| ==> r[l].kind == kind && m <= l;
      assert m < |r| ==> m != n && conditions[m].kind == kind;
    }
  }

  /** The condition list says that some cycle succeeded. */
  predicate Succeeded(conditions: seq<Condition>) {
    exists i | 0 <= i < |conditions| :: conditions[i].kind == RECONCILE_SUCCESSFUL && conditions[i].isTrue
  }

  /** What the API server stores of a custom resource, besides its immutable spec. */
  datatype Stored<S> = Stored(conditions: seq<Condition>, status: S, finalizer: bool)

  datatype Managed<S> = Managed(stored: Stored<S>, failed: bool)

  function OutcomeCondition(issue: bool, generation: int): Condition {
    if issue then Condition(RECONCILE_FAILED, false, generation)
    else Condition(RECONCILE_SUCCESSFUL, true, generation)
  }

  /** Status and finalizer are persisted by two separate calls; the second is made only after the
      first succeeded, and only for a deletable object without issue that lacks the finalizer. */
  function ManageOutcome<S>(o: Stored<S>, conditions: seq<Condition>, status: S, issue: bool, deletable: bool,
                            generation: int, statusCall: CallOutcome, finalizerCall: CallOutcome): Managed<S>
  {
    var o' :=
      if statusCall.Refused? then o
      else o.(conditions := AddOrReplace(OutcomeCondition(issue, generation), conditions), status := status);
    if !statusCall.Done? then Managed(o', true)
    else if deletable && !issue && !o'.finalizer then
      Managed(if finalizerCall.Refused? then o' else o'.(finalizer := true), !finalizerCall.Done?)
    else Managed(o', issue)
  }

  lemma SuccessIsRemembered(c: Condition, conditions: seq<Condition>)
    requires c == OutcomeCondition(!c.isTrue, c.generation)
    ensures Succeeded(conditions) || c.isTrue ==> Succeeded(AddOrReplace(c, conditions))
    ensures Succeeded(AddOrReplace(c, conditions)) ==> Succeeded(conditions) || c.isTrue
  {
    var n, r := IndexOf(c.kind, conditions), AddOrReplace(c, conditions);
    assert r[n] == c;
    assert forall i | 0 <= i < |conditions| && i != n :: r[i] == conditions[i];
    assert RECONCILE_FAILED != RECONCILE_SUCCESSFUL by {
      assert RECONCILE_FAILED[9] != RECONCILE_SUCCESSFUL[9];
    }
  }

  /** Whichever calls fail: success once recorded stays recorded, and a finalizer is only ever
      added to an object that has recorded success. */
  lemma OutcomeKeepsSuccess<S>(o: Stored<S>, status: S, issue: bool, deletable: bool,
                               generation: int, statusCall: CallOutcome, finalizerCall: CallOutcome)
    requires OnePerKind(o.conditions)
    ensures var r := ManageOutcome(o, o.conditions, status, issue, deletable, generation, statusCall, finalizerCall);
      && OnePerKind(r.stored.conditions)
      && (Succeeded(o.conditions) ==> Succeeded(r.stored.conditions))
      && (r.stored.finalizer && !o.finalizer ==> deletable && !issue && Succeeded(r.stored.conditions))
      && (o.finalizer ==> r.stored.finalizer)
      && (!r.failed ==> !issue && Succeeded(r.stored.conditions) && (deletable ==> r.stored.finalizer))
      && (issue ==> r.failed)
  {
    var c := OutcomeCondition(issue, generation);
    AddOrReplaceIsMapUpdate(c, o.conditions, c.kind);
    SuccessIsRemembered(c, o.conditions);
  }

  /** What becomes of an outcome: it is stored, with the status, exactly if the status update is applied;
      the finalizer is added exactly if it is called for and its update is applied; and the cycle is
      reported as failed exactly if there is an issue or a call made in it is not done. */
  lemma OutcomeIsRecorded<S>(o: Stored<S>, status: S, issue: bool, deletable: bool,
                             generation: int, statusCall: CallOutcome, finalizerCall: CallOutcome)
    ensures var r := ManageOutcome(o, o.conditions, status, issue, deletable, generation, statusCall, finalizerCall);
      var c := if issue then Condition(RECONCILE_FAILED, false, generation)
               else Condition(RECONCILE_SUCCESSFUL, true, generation);
      var adds := deletable && !issue && !o.finalizer;
      && (statusCall.Applied() ==> r.stored.status == status && Lookup(c.kind, r.stored.conditions) == Some(c))
      && (statusCall.Refused? ==> r.stored == o)
      && (r.stored.finalizer <==> o.finalizer || (adds && statusCall.Done? && finalizerCall.Applied()))
      && (r.failed <==> issue || !statusCall.Done? || (adds && !finalizerCall.Done?))
  {
    var c := OutcomeCondition(issue, generation);
    AddOrReplaceIsMapUpdate(c, o.conditions, c.kind);
  }

  method AddOrReplaceCondition(c: Condition, conditions: seq<Condition>) returns (r: seq<Condition>)
    ensures r == AddOrReplace(c, conditions)
  {
    r := conditions;
    for i := 0 to |r|
      invariant r == conditions && i <= IndexOf(c.kind, conditions)
    {
      if c.kind == r[i].kind {
        r := r[i := c];
        return;
      }
    }
    r := r + [c];
  }

  /** The API server's copy of one object. */
  class ObjectStore<S> {
    var stored: Stored<S>

    constructor (stored: Stored<S>)
      ensures this.stored == stored
    {
      this.stored := stored;
    }

    method UpdateStatus(conditions: seq<Condition>, status: S, call: CallOutcome) returns (failed: bool)
      modifies this
      ensures call.Refused? ==> stored == old(stored)
      ensures !call.Refused? ==> stored == old(stored).(conditions := conditions, status := status)
      ensures failed <==> !call.Done?
    {
      if !call.Refused? {
        stored := stored.(conditions := conditions, status := status);
      }
      failed := !call.Done?;
    }

    method UpdateFinalizer(present: bool, call: CallOutcome) returns (failed: bool)
      modifies this
      ensures stored == if call.Refused? then old(stored) else old(stored).(finalizer := present)
      ensures failed <==> !call.Done?
    {
      if !call.Refused? {
        stored := stored.(finalizer := present);
      }
      failed := !call.Done?;
    }

    /** Returns whether the cycle is reported as failed, and so retried. */
    method ManageOutcomeWithRequeue(status: S, issue: bool, deletable: bool, generation: int,
                                    statusCall: CallOutcome, finalizerCall: CallOutcome)
      returns (failed: bool)
      modifies this
      ensures Managed(stored, failed) ==
        ManageOutcome(old(stored), old(stored).conditions, status, issue, deletable, generation,
                      statusCall, finalizerCall)
    {
      var condition;
      if !issue {
        condition := Condition(RECONCILE_SUCCESSFUL, true, generation);
      } else {
        condition := Condition(RECONCILE_FAILED, false, generation);
      }
      var conditions := AddOrReplaceCondition(condition, stored.conditions);
      failed := UpdateStatus(conditions, status, statusCall);
      if failed {
        return;
      }
      if deletable && !issue && !stored.finalizer {
        failed := UpdateFinalizer(true, finalizerCall);
        return;
      }
      failed := issue;
    }
  }
}
