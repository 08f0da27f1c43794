/** One-off and periodically refreshed random secrets: controllers/randomsecret_controller.go. */
module RandomSecret {
  import opened Basics
  import opened Persistence

  datatype Spec = Spec(refresh: Option<int>, retain: bool, generation: int)

  datatype Status = Status(last: Option<int>)  // lastVaultSecretUpdate

  datatype World = World(
    now: int,
    phase: Phase,
    resource: Stored<Status>,
    value: Option<string>,     // what Vault holds at the path of the secret
    queued: bool,
    due: Option<int>,          // when a delayed requeue falls due
    writtenAt: seq<int>,       // the operator's writes to Vault
    foreignCreations: nat,     // values others put where there was none
    removals: nat              // values removed, by the operator or by others
  )

  /** What happens to the calls of one cycle. `answered` tells whether the existence check gets an answer;
      `memory` whether the object in memory still shows a finalizer that an update just tried to add. */
  datatype Calls = Calls(
    context: bool, answered: bool, generated: Option<string>, write: CallOutcome,
    status1: CallOutcome, finalizer1: CallOutcome, memory: bool,
    status: CallOutcome, finalizer: CallOutcome,
    delete: CallOutcome, release: CallOutcome)

  datatype Event =
    | Reconcile(calls: Calls)
    | Tick(elapsed: nat)
    | Restart
    | Resync            // replayed update, with drift detection enabled
    | RequestDeletion
    | ForeignWrite(value: string)
    | ForeignDelete

  // ---- One step ----

  predicate NotDue(spec: Spec, w: World) {
    match w.resource.status.last
    case None => false
    case Some(last) => spec.refresh.None? || !(last + spec.refresh.value < w.now)
  }

  /** A one-off secret is not created where a value is known to exist. */
  predicate Adopts(spec: Spec, calls: Calls, w: World) {
    w.resource.status.last.None? && spec.refresh.None? && calls.answered && w.value.Some?
  }

  function Written(w: World, value: string): World {
    w.(value := Some(value), writtenAt := w.writtenAt + [w.now])
  }

  function Removed(w: World): World {
    if w.value.Some? then w.(value := None, removals := w.removals + 1) else w
  }

  datatype Outcome = Outcome(w: World, result: Result)

  function Fail(spec: Spec, calls: Calls, w: World): Outcome {
    var m := ManageOutcome(w.resource, w.resource.conditions, w.resource.status, true, true, spec.generation,
                           calls.status, calls.finalizer);
    Outcome(w.(resource := m.stored), Error)
  }

  /** Records success. A positive delay makes the code record it twice, ignoring what becomes of the
      first attempt. */
  function Succeed(spec: Spec, calls: Calls, w: World, status: Status): Outcome {
    var twice := spec.refresh.Some? && spec.refresh.value > 0;
    var r :=
      if twice then ManageOutcome(w.resource, w.resource.conditions, status, false, true, spec.generation,
                                  calls.status1, calls.finalizer1).stored
      else w.resource;
    var m := ManageOutcome(r, r.conditions, status, false, !(twice && calls.status1.Done? && calls.memory),
                           spec.generation, calls.status, calls.finalizer);
    Outcome(w.(resource := m.stored),
            if m.failed then Error
            else if spec.refresh.None? then NoRequeue
            else if twice then Requeue(spec.refresh.value)
            else Requeue(SECOND))
  }

  function ReconcileLive(spec: Spec, calls: Calls, w: World): Outcome {
    if !calls.context then Fail(spec, calls, w)
    else if NotDue(spec, w) then Outcome(w, NoRequeue)
    else if Adopts(spec, calls, w) then Succeed(spec, calls, w, w.resource.status)
    else if calls.generated.None? then Fail(spec, calls, w)
    else
      var w' := if calls.write.Applied() then Written(w, calls.generated.value) else w;
      if !calls.write.Done? then Fail(spec, calls, w')
      else Succeed(spec, calls, w', Status(Some(Persisted(w.now, SECOND))))
  }

  function ReconcileTerminating(spec: Spec, calls: Calls, w: World): Outcome {
    if !calls.context then Fail(spec, calls, w)
    else if !w.resource.finalizer then Outcome(w, NoRequeue)
    else
      var w' := if !spec.retain && calls.delete.Applied() then Removed(w) else w;
      if !spec.retain && !calls.delete.Done? then Fail(spec, calls, w')
      else
        var w'' := if calls.release.Applied() then w'.(resource := w'.resource.(finalizer := false)) else w';
        if calls.release.Done? then Outcome(w'', NoRequeue) else Fail(spec, calls, w'')
  }

  /** The work queue after a cycle, and the API server after a finalizer was released. */
  function Settle(o: Outcome): World {
    var w := if o.w.phase.Terminating? && !o.w.resource.finalizer then o.w.(phase := Gone) else o.w;
    match o.result
    case Error => w
    case NoRequeue => w.(queued := false)
    case Requeue(after) => w.(queued := false, due := Earlier(w.due, w.now + after))
  }

  /** A delayed requeue fires strictly after it fell due. */
  function Advance(w: World, elapsed: nat): World {
    var now := w.now + elapsed;
    if w.due.Some? && w.due.value < now then w.(now := now, queued := true, due := None) else w.(now := now)
  }

  function Step(spec: Spec, w: World, e: Event): World {
    match e
    case Reconcile(calls) =>
      if !w.queued then w
      else (match w.phase
        case Live => Settle(ReconcileLive(spec, calls, w))
        case Terminating => Settle(ReconcileTerminating(spec, calls, w))
        case Gone => w.(queued := false))
    case Tick(elapsed) => Advance(w, elapsed)
    case Restart => w.(queued := true, due := None)
    case Resync => if w.phase.Gone? then w else w.(queued := true)
    case RequestDeletion =>
      if !w.phase.Live? then w
      else w.(phase := if w.resource.finalizer then Terminating else Gone, queued := true)
    case ForeignWrite(value) =>
      w.(value := Some(value), foreignCreations := if w.value.None? then w.foreignCreations + 1 else w.foreignCreations)
    case ForeignDelete => Removed(w)
  }

  function Run(spec: Spec, w: World, events: seq<Event>): World
    decreases |events|
  {
    if events == [] then w else Run(spec, Step(spec, w, events[0]), events[1..])
  }

  predicate Initial(w: World) {
    && w.phase.Live? && w.resource == Stored([], Status(None), false) && w.value.None? && w.queued && w.due.None?
    && w.writtenAt == [] && w.foreignCreations == 0 && w.removals == 0
  }

  // ---- Progress ----

  predicate Due(spec: Spec, w: World) {
    match w.resource.status.last
    case None => true
    case Some(last) => spec.refresh.Some? && last + spec.refresh.value < w.now
  }

  /** A cycle of a live object ends well if all its calls do. */
  lemma AllDoneSucceeds(spec: Spec, w: World, calls: Calls)
    requires calls.context && calls.generated.Some? && calls.write.Done? && calls.status.Done? && calls.finalizer.Done?
    ensures !ReconcileLive(spec, calls, w).result.Error?
  {
    hide AddOrReplace;
  }

  /** A cycle that ends well has done what was due: unless it found a value to adopt, or came early, Vault
      holds the generated value, written once and dated now. If it was due, success is on record, too. */
  lemma SuccessProvides(spec: Spec, w: World, calls: Calls)
    requires OnePerKind(w.resource.conditions)
    ensures var o := ReconcileLive(spec, calls, w);
      var adopts := spec.refresh.None? && w.resource.status.last.None? && calls.answered && w.value.Some?;
      !o.result.Error? ==>
        && (Due(spec, w) ==> o.w.value.Some? && Succeeded(o.w.resource.conditions))
        && (!Due(spec, w) ==> o.w == w)
        && (adopts ==> o.w.value == w.value && o.w.writtenAt == w.writtenAt && o.w.resource.status == w.resource.status)
        && (Due(spec, w) && !adopts ==>
              && o.w.value == calls.generated && o.w.writtenAt == w.writtenAt + [w.now]
              && o.w.resource.status.last == Some(Persisted(w.now, SECOND)))
  {
    if calls.context && !NotDue(spec, w) {
      if Adopts(spec, calls, w) {
        SucceedRecords(spec, calls, w, w.resource.status);
      } else if calls.generated.Some? {
        SucceedRecords(spec, calls, Written(w, calls.generated.value), Status(Some(Persisted(w.now, SECOND))));
      }
    }
    hide Succeed, Fail;
  }

  lemma SucceedRecords(spec: Spec, calls: Calls, w: World, status: Status)
    requires OnePerKind(w.resource.conditions)
    ensures var o := Succeed(spec, calls, w, status);
      && o.w == w.(resource := o.w.resource)
      && (!o.result.Error? ==> o.w.resource.status == status && Succeeded(o.w.resource.conditions))
  {
    hide AddOrReplace;
    var twice := spec.refresh.Some? && spec.refresh.value > 0;
    var r :=
      if twice then ManageOutcome(w.resource, w.resource.conditions, status, false, true, spec.generation,
                                  calls.status1, calls.finalizer1).stored
      else w.resource;
    OutcomeKeepsSuccess(w.resource, status, false, true, spec.generation, calls.status1, calls.finalizer1);
    OutcomeKeepsSuccess(r, status, false, !(twice && calls.status1.Done? && calls.memory), spec.generation,
                        calls.status, calls.finalizer);
  }

  /** A cycle leaves its object queued exactly if it fails. */
  lemma QueuedIff(spec: Spec, w: World, calls: Calls)
    requires w.queued && !w.phase.Gone?
    ensures var o := if w.phase.Live? then ReconcileLive(spec, calls, w) else ReconcileTerminating(spec, calls, w);
      Step(spec, w, Reconcile(calls)).queued <==> o.result.Error?
  {
    hide ManageOutcome;
  }

  predicate Timed(w: World) {
    w.due.Some? ==> w.now <= w.due.value
  }

  /** No requeue is ever overdue. */
  lemma {:induction false} RequeuesFire(spec: Spec, w: World, events: seq<Event>)
    requires Timed(w)
    ensures Timed(Run(spec, w, events))
    decreases |events|
  {
    if events != [] {
      StepKeepsTimed(spec, w, events[0]);
      RequeuesFire(spec, Step(spec, w, events[0]), events[1..]);
    }
  }

  lemma StepKeepsTimed(spec: Spec, w: World, e: Event)
    requires Timed(w)
    ensures Timed(Step(spec, w, e))
  {
    hide ManageOutcome;
  }

  // ---- One-off secrets ----

  /** A one-off cycle without an update on record that ends well leaves a value in Vault: the one it found,
      or else the generated one, written once and dated now. */
  lemma OneOffProvides(spec: Spec, w: World, calls: Calls)
    requires spec.refresh.None? && w.resource.status.last.None? && OnePerKind(w.resource.conditions)
    ensures var o := ReconcileLive(spec, calls, w); var found := calls.answered && w.value.Some?;
      !o.result.Error? ==>
        && o.w.value == (if found then w.value else calls.generated) && o.w.value.Some?
        && o.w.writtenAt == (if found then w.writtenAt else w.writtenAt + [w.now])
        && o.w.resource.status.last == (if found then None else Some(Persisted(w.now, SECOND)))
  {
    hide ReconcileLive;
    SuccessProvides(spec, w, calls);
  }

  predicate Truthful(e: Event) {
    e.Reconcile? ==> e.calls.answered
  }

  /** Values do not appear or vanish without being counted. */
  predicate Balanced(w: World) {
    |w.writtenAt| + w.foreignCreations == w.removals + (if w.value.Some? then 1 else 0)
  }

  lemma CycleKeepsBalance(spec: Spec, w: World, calls: Calls)
    requires spec.refresh.None? && Balanced(w)
    ensures calls.answered ==> Balanced(ReconcileLive(spec, calls, w).w)
    ensures Balanced(ReconcileTerminating(spec, calls, w).w)
  {
    hide ManageOutcome;
  }

  lemma StepKeepsBalance(spec: Spec, w: World, e: Event)
    requires spec.refresh.None? && Balanced(w) && Truthful(e)
    ensures Balanced(Step(spec, w, e))
  {
    hide ReconcileLive, ReconcileTerminating;
    if e.Reconcile? {
      CycleKeepsBalance(spec, w, e.calls);
    }
  }

  /** With a truthful existence check the operator's own value is written at most once between
      removals: every write fills a gap that nobody else filled. This holds whatever happens to the
      status updates. */
  lemma {:induction false} OneOffIsConserved(spec: Spec, w: World, events: seq<Event>)
    requires spec.refresh.None? && Balanced(w)
    requires forall e <- events :: Truthful(e)
    ensures Balanced(Run(spec, w, events))
    ensures |Run(spec, w, events).writtenAt| <= Run(spec, w, events).removals + 1
    decreases |events|
  {
    if events != [] {
      StepKeepsBalance(spec, w, events[0]);
      OneOffIsConserved(spec, Step(spec, w, events[0]), events[1..]);
    }
  }

  /** A cycle of a live one-off secret changes an existing value exactly when no update is on record,
      the existence check gets no answer, and a different value is then written. */
  lemma OneOffOverwritesIff(spec: Spec, w: World, calls: Calls)
    requires spec.refresh.None? && w.phase.Live? && w.queued && w.value.Some?
    ensures Step(spec, w, Reconcile(calls)).value != w.value <==>
      calls.context && w.resource.status.last.None? && !calls.answered && calls.write.Applied()
      && calls.generated.Some? && calls.generated != w.value
  {
  }

  /** A value that was there first is adopted with success and, unless retained, deleted along with
      the object. */
  lemma AdoptedValueIsDeleted(spec: Spec, w: World, c: Calls, value: string)
    requires Initial(w) && spec.refresh.None? && !spec.retain
    ensures var calls := c.(context := true, answered := true, status := Done, finalizer := Done, delete := Done);
      var v := Run(spec, w, [ForeignWrite(value), Reconcile(calls), RequestDeletion, Reconcile(calls)]);
      v.value.None? && v.writtenAt == [] && v.removals == 1
  {
    var calls := c.(context := true, answered := true, status := Done, finalizer := Done, delete := Done);
    var w1 := Step(spec, w, ForeignWrite(value));
    var w2 := Step(spec, w1, Reconcile(calls));
    var w3 := Step(spec, w2, RequestDeletion);
    var w4 := Step(spec, w3, Reconcile(calls));
    assert w2.value.Some? && w2.resource.finalizer && w2.writtenAt == [];
    assert w4.value.None?;
    var events := [ForeignWrite(value), Reconcile(calls), RequestDeletion, Reconcile(calls)];
    assert events[1..] == [Reconcile(calls), RequestDeletion, Reconcile(calls)];
    assert events[1..][1..] == [RequestDeletion, Reconcile(calls)];
    assert events[1..][1..][1..] == [Reconcile(calls)];
    assert Run(spec, w, events) == Run(spec, w1, events[1..]);
    assert Run(spec, w1, events[1..]) == Run(spec, w2, events[1..][1..]);
    assert Run(spec, w2, events[1..][1..]) == Run(spec, w3, [Reconcile(calls)]);
    assert Run(spec, w3, [Reconcile(calls)]) == Run(spec, w4, []);
  }

  // ---- Periodic secrets: spacing ----

  /** A write that happened is known to the operator and got on record. */
  predicate Survives(spec: Spec, e: Event) {
    e.Reconcile? ==>
      !e.calls.write.ReplyLost?
      && (e.calls.status.Applied() || (spec.refresh.Some? && spec.refresh.value > 0 && e.calls.status1.Applied()))
  }

  predicate Apart(period: int, writtenAt: seq<int>, i: nat)
    requires 0 < i < |writtenAt|
  {
    Persisted(writtenAt[i - 1], SECOND) + period < writtenAt[i]
  }

  predicate Spaced(period: int, writtenAt: seq<int>) {
    forall i | 0 < i < |writtenAt| :: Apart(period, writtenAt, i)
  }

  predicate LastWriteRecorded(w: World) {
    w.writtenAt != [] ==> w.resource.status.last == Some(Persisted(w.writtenAt[|w.writtenAt| - 1], SECOND))
  }

  lemma AppendKeepsSpaced(period: int, writtenAt: seq<int>, now: int)
    requires Spaced(period, writtenAt)
    requires writtenAt != [] ==> Persisted(writtenAt[|writtenAt| - 1], SECOND) + period < now
    ensures Spaced(period, writtenAt + [now])
  {
    var r := writtenAt + [now];
    forall i | 0 < i < |r|
      ensures Apart(period, r, i)
    {
      if i < |writtenAt| {
        assert Apart(period, writtenAt, i);
      }
    }
  }

  lemma LiveKeepsRecord(spec: Spec, w: World, calls: Calls)
    requires spec.refresh.Some? && LastWriteRecorded(w) && Survives(spec, Reconcile(calls))
    ensures var v := ReconcileLive(spec, calls, w).w;
      && LastWriteRecorded(v)
      && (v.writtenAt == w.writtenAt || (v.writtenAt == w.writtenAt + [w.now] && !NotDue(spec, w)))
  {
  }

  lemma LiveKeepsSpaced(spec: Spec, w: World, calls: Calls)
    requires spec.refresh.Some? && LastWriteRecorded(w) && Spaced(spec.refresh.value, w.writtenAt)
    requires Survives(spec, Reconcile(calls))
    ensures var v := ReconcileLive(spec, calls, w).w; LastWriteRecorded(v) && Spaced(spec.refresh.value, v.writtenAt)
  {
    LiveKeepsRecord(spec, w, calls);
    if !NotDue(spec, w) {
      AppendKeepsSpaced(spec.refresh.value, w.writtenAt, w.now);
    }
  }

  lemma TerminatingLeavesRecord(spec: Spec, w: World, calls: Calls)
    ensures var v := ReconcileTerminating(spec, calls, w).w;
      v.writtenAt == w.writtenAt && v.resource.status == w.resource.status && v.phase == w.phase
  {
  }

  lemma OthersLeaveRecord(spec: Spec, w: World, e: Event)
    requires e.Reconcile? ==> !w.phase.Live?
    ensures var v := Step(spec, w, e); v.writtenAt == w.writtenAt && v.resource.status == w.resource.status
  {
    if e.Reconcile? {
      TerminatingLeavesRecord(spec, w, e.calls);
    }
  }

  lemma StepKeepsSpaced(spec: Spec, w: World, e: Event)
    requires spec.refresh.Some? && LastWriteRecorded(w) && Spaced(spec.refresh.value, w.writtenAt) && Survives(spec, e)
    ensures LastWriteRecorded(Step(spec, w, e)) && Spaced(spec.refresh.value, Step(spec, w, e).writtenAt)
  {
    if e.Reconcile? && w.phase.Live? {
      LiveKeepsSpaced(spec, w, e.calls);
    } else {
      OthersLeaveRecord(spec, w, e);
    }
  }

  /** In every run in which writes get on record, each write comes strictly more than the period after
      the recorded time of the one before. */
  lemma {:induction false} WritesAreSpaced(spec: Spec, w: World, events: seq<Event>)
    requires spec.refresh.Some? && LastWriteRecorded(w) && Spaced(spec.refresh.value, w.writtenAt)
    requires forall e <- events :: Survives(spec, e)
    ensures Spaced(spec.refresh.value, Run(spec, w, events).writtenAt)
    decreases |events|
  {
    if events != [] {
      StepKeepsSpaced(spec, w, events[0]);
      WritesAreSpaced(spec, Step(spec, w, events[0]), events[1..]);
    }
  }

  /** A periodic cycle that ends well has written, or come early. In the first case it schedules the
      next one at a positive delay that is the period if that is positive, and one second otherwise. */
  lemma RequeueAfterWrite(spec: Spec, w: World, calls: Calls)
    requires spec.refresh.Some?
    ensures var o := ReconcileLive(spec, calls, w); var p := spec.refresh.value;
      && (o.result.NoRequeue? <==> calls.context && NotDue(spec, w))
      && (o.result.Requeue? ==> o.w.writtenAt == w.writtenAt + [w.now])
      && (o.result.Requeue? ==> o.w.resource.status.last == Some(Persisted(w.now, SECOND)))
      && (o.result.Requeue? ==> o.result.after == if p > 0 then p else SECOND)
  {
  }

  // ---- Periodic secrets: continuity ----

  /** Unless the object is going away, either a cycle is queued that will write, or a requeue is
      pending that does not fall due before the next write does. */
  predicate Continues(spec: Spec, w: World)
    requires spec.refresh.Some?
  {
    w.phase.Live? ==>
      match w.resource.status.last
      case None => w.queued
      case Some(last) =>
        || (w.queued && last + spec.refresh.value < w.now)
        || (w.due.Some? && last + spec.refresh.value <= w.due.value)
  }

  /** If a status update that carries the date of a new write is applied, the cycle hears that its
      status and its finalizer are stored. */
  predicate Reports(spec: Spec, e: Event) {
    e.Reconcile? && e.calls.context && e.calls.generated.Some? && e.calls.write.Done?
    && (e.calls.status.Applied() || (spec.refresh.Some? && spec.refresh.value > 0 && e.calls.status1.Applied()))
    ==> e.calls.status.Done? && e.calls.finalizer.Done?
  }

  /** A cycle writes ahead of a pending requeue, which will then come too early for the next write and
      keep the queue from taking up a later one. */
  predicate WritesAhead(spec: Spec, w: World, e: Event)
    requires spec.refresh.Some?
  {
    e.Reconcile? && w.queued && w.phase.Live? && w.due.Some? && ReconcileLive(spec, e.calls, w).result.Requeue?
    && w.due.value < Persisted(w.now, SECOND) + spec.refresh.value
  }

  predicate NeverAhead(spec: Spec, w: World, events: seq<Event>)
    requires spec.refresh.Some?
    decreases |events|
  {
    events != [] ==> !WritesAhead(spec, w, events[0]) && NeverAhead(spec, Step(spec, w, events[0]), events[1..])
  }

  lemma LiveEffect(spec: Spec, w: World, calls: Calls)
    requires spec.refresh.Some?
    ensures var o := ReconcileLive(spec, calls, w);
      && o.w.now == w.now && o.w.queued == w.queued && o.w.due == w.due && o.w.phase == w.phase
      && (o.result.Error? && Reports(spec, Reconcile(calls)) ==> o.w.resource.status == w.resource.status)
      && (o.result.Error? ==> !NotDue(spec, w) || !calls.context)
      && (o.result.NoRequeue? ==> o.w == w)
  {
    hide AddOrReplace;
    if calls.context && !NotDue(spec, w) && calls.generated.Some? && calls.write.Done? {
      SucceedEffect(spec, calls, Written(w, calls.generated.value), Status(Some(Persisted(w.now, SECOND))));
      hide Succeed;
    }
  }

  lemma SucceedEffect(spec: Spec, calls: Calls, w: World, status: Status)
    requires spec.refresh.Some?
    ensures var o := Succeed(spec, calls, w, status);
      && o.w == w.(resource := o.w.resource) && !o.result.NoRequeue?
      && (!calls.status.Applied() && !(spec.refresh.value > 0 && calls.status1.Applied()) ==>
            o.w.resource.status == w.resource.status)
      && (calls.status.Done? && calls.finalizer.Done? ==> !o.result.Error?)
  {
    hide AddOrReplace;
  }

  lemma LiveContinuesIff(spec: Spec, w: World, calls: Calls)
    requires spec.refresh.Some? && Continues(spec, w) && w.queued && w.phase.Live?
    requires Reports(spec, Reconcile(calls))
    ensures Continues(spec, Settle(ReconcileLive(spec, calls, w))) <==> !WritesAhead(spec, w, Reconcile(calls))
  {
    LiveEffect(spec, w, calls);
    RequeueAfterWrite(spec, w, calls);
    hide ReconcileLive, Reports;
  }

  /** An event other than a restart lets go of the refresh exactly if it writes ahead of a pending
      requeue. */
  lemma StepContinuesIff(spec: Spec, w: World, e: Event)
    requires spec.refresh.Some? && Continues(spec, w) && Reports(spec, e) && !e.Restart?
    ensures Continues(spec, Step(spec, w, e)) <==> !WritesAhead(spec, w, e)
  {
    hide ReconcileLive, ReconcileTerminating, Reports;
    if e.Reconcile? {
      if w.phase.Terminating? {
        TerminatingLeavesRecord(spec, w, e.calls);
      } else if w.phase.Live? && w.queued {
        LiveContinuesIff(spec, w, e.calls);
      }
    }
  }

  /** The refresh is never forgotten as long as the operator keeps running, cycles hear of the dates
      they store, and none of them writes ahead of a pending requeue. */
  lemma {:induction false} RefreshContinues(spec: Spec, w: World, events: seq<Event>)
    requires spec.refresh.Some? && Continues(spec, w) && NeverAhead(spec, w, events)
    requires forall e <- events :: Reports(spec, e) && !e.Restart?
    ensures Continues(spec, Run(spec, w, events))
    decreases |events|
  {
    hide Step, Reports;
    if events != [] {
      StepContinuesIff(spec, w, events[0]);
      RefreshContinues(spec, Step(spec, w, events[0]), events[1..]);
    }
  }

  /** Without resyncs no cycle writes ahead: what is queued is what was pending. */
  lemma {:induction false} WithoutResyncNeverAhead(spec: Spec, w: World, events: seq<Event>)
    requires spec.refresh.Some? && (w.queued && w.phase.Live? ==> w.due.None?)
    requires forall e <- events :: !e.Resync?
    ensures NeverAhead(spec, w, events)
    decreases |events|
  {
    if events != [] {
      assert events[0] in events;
      if events[0].Reconcile? {
        LiveEffect(spec, w, events[0].calls);
        TerminatingLeavesRecord(spec, w, events[0].calls);
      }
      hide ReconcileLive, ReconcileTerminating;
      WithoutResyncNeverAhead(spec, Step(spec, w, events[0]), events[1..]);
    }
  }

  /** Nothing is queued and nothing is pending. */
  predicate Forgotten(w: World) {
    !w.queued && w.due.None?
  }

  /** The exceptions are real. A cycle that follows a recorded write too soon, be it the first one
      after a restart or the retry of a cycle that recorded its write and failed, forgets the refresh. */
  lemma EarlyCycleForgetsIff(spec: Spec, w: World, calls: Calls)
    requires spec.refresh.Some? && w.phase.Live? && calls.context && w.queued && w.due.None?
    ensures Forgotten(Step(spec, w, Reconcile(calls))) <==>
      w.resource.status.last.Some? && w.now <= w.resource.status.last.value + spec.refresh.value
  {
    RequeueAfterWrite(spec, w, calls);
  }

  /** A first cycle that writes and records, but whose last status update is refused, and its retry. */
  lemma FailedReportForgetsRefresh(spec: Spec, w: World, c: Calls, value: string)
    requires Initial(w) && spec.refresh.Some? && spec.refresh.value >= SECOND
    ensures var calls := c.(context := true, generated := Some(value), write := Done,
                            status1 := Done, status := Refused);
      var v := Run(spec, w, [Reconcile(calls), Reconcile(calls)]);
      Forgotten(v) && v.phase.Live? && v.writtenAt == [w.now]
  {
    var calls := c.(context := true, generated := Some(value), write := Done, status1 := Done, status := Refused);
    var w1 := Step(spec, w, Reconcile(calls));
    assert w1.resource.status.last == Some(Persisted(w.now, SECOND)) && w1.queued;
    var w2 := Step(spec, w1, Reconcile(calls));
    var events := [Reconcile(calls), Reconcile(calls)];
    assert events[1..] == [Reconcile(calls)] && events[1..][1..] == [];
    assert Run(spec, w, events) == Run(spec, w1, [Reconcile(calls)]);
    assert Run(spec, w1, [Reconcile(calls)]) == Run(spec, w2, []);
  }

  /** A forgotten refresh stays forgotten: nothing is written until the next restart or resync. */
  lemma {:induction false} ForgottenForGood(spec: Spec, w: World, events: seq<Event>)
    requires Forgotten(w)
    requires forall e <- events :: !e.Restart? && !e.Resync? && !e.RequestDeletion?
    ensures Forgotten(Run(spec, w, events)) && Run(spec, w, events).writtenAt == w.writtenAt
    decreases |events|
  {
    if events != [] {
      assert events[0] in events;
      ForgottenForGood(spec, Step(spec, w, events[0]), events[1..]);
    }
  }

  // ---- Deletion ----

  /** A cycle of a terminating object removes the value exactly if our finalizer is there, the value is
      not to be retained and the call gets through: it does not matter who wrote it. */
  lemma CleanUpDeletesIff(spec: Spec, w: World, calls: Calls)
    requires w.phase.Terminating? && w.queued && w.value.Some?
    ensures var v := Step(spec, w, Reconcile(calls));
      && (v.value.None? <==> calls.context && w.resource.finalizer && !spec.retain && calls.delete.Applied())
      && (v.value.Some? ==> v.value == w.value)
  {
    hide ManageOutcome;
  }

  /** The finalizer goes away only after the value was deleted or is to be retained; a retained value
      survives every cycle of the deletion. */
  lemma CleanUpRespectsRetention(spec: Spec, w: World, calls: Calls)
    requires w.phase.Terminating?
    ensures var v := Step(spec, w, Reconcile(calls));
      && (w.resource.finalizer && !v.resource.finalizer ==> spec.retain || v.value.None?)
      && (spec.retain ==> v.value == w.value)
      && v.writtenAt == w.writtenAt
  {
  }

  /** If its calls succeed, one cycle of a terminating object lets the object go, and the value with it
      unless that is retained. */
  lemma SuccessfulDeletionCompletes(spec: Spec, w: World, calls: Calls)
    requires w.phase.Terminating? && w.queued && w.resource.finalizer
    requires calls.context && calls.delete.Done? && calls.release.Done?
    ensures var v := Step(spec, w, Reconcile(calls));
      v.phase.Gone? && !v.queued && v.value == if spec.retain then w.value else None
  {
  }

  // ---- The controller ----

  class RandomSecretReconciler {
    const spec: Spec
    const store: ObjectStore<Status>
    var now: int
    var phase: Phase
    var value: Option<string>
    var queued: bool
    var due: Option<int>
    ghost var writtenAt: seq<int>
    ghost var foreignCreations: nat
    ghost var removals: nat

    constructor (spec: Spec, now: int)
      ensures this.spec == spec && this.now == now && Initial(State()) && fresh(store)
    {
      this.spec, this.now := spec, now;
      store := new ObjectStore<Status>(Stored([], Status(None), false));
      phase, value, queued, due := Live, None, true, None;
      writtenAt, foreignCreations, removals := [], 0, 0;
    }

    ghost function State(): World
      reads this, store
    {
      World(now, phase, store.stored, value, queued, due, writtenAt, foreignCreations, removals)
    }

    method ReportFailure(calls: Calls) returns (result: Result)
      modifies store
      ensures Outcome(State(), result) == Fail(spec, calls, old(State()))
    {
      var failed := store.ManageOutcomeWithRequeue(store.stored.status, true, true, spec.generation,
                                                   calls.status, calls.finalizer);
      assert failed;
      return Error;
    }

    /** Returns whether the cycle failed, and the status to be recorded. */
    method ManageReconcileLogic(calls: Calls) returns (failed: bool, status: Status)
      requires !NotDue(spec, State())
      modifies this`value, this`writtenAt
      ensures var w := old(State());
        if Adopts(spec, calls, w) then !failed && State() == w && status == w.resource.status
        else if calls.generated.None? then failed && State() == w
        else
          && State() == (if calls.write.Applied() then Written(w, calls.generated.value) else w)
          && (failed <==> !calls.write.Done?)
          && (!failed ==> status == Status(Some(Persisted(now, SECOND))))
    {
      status := store.stored.status;
      if status.last.None? && spec.refresh.None? {
        var found := calls.answered && value.Some?;
        if found {
          return false, status;
        }
      }
      if calls.generated.None? {
        return true, status;
      }
      if calls.write.Applied() {
        value := calls.generated;
        writtenAt := writtenAt + [now];
      }
      if !calls.write.Done? {
        return true, status;
      }
      return false, Status(Some(Persisted(now, SECOND)));
    }

    method Conclude(calls: Calls, status: Status) returns (result: Result)
      requires spec.refresh.Some? ==> status == Status(Some(Persisted(now, SECOND)))
      modifies store
      ensures Outcome(State(), result) == Succeed(spec, calls, old(State()), status)
    {
      var failed;
      if spec.refresh.Some? {
        var last := now;  // in memory the time is not truncated yet
        var nextSchedule := last + spec.refresh.value - now;
        if nextSchedule > 0 {
          failed := store.ManageOutcomeWithRequeue(status, false, true, spec.generation,
                                                   calls.status1, calls.finalizer1);
          var shown := calls.status1.Done? && calls.memory;
          failed := store.ManageOutcomeWithRequeue(status, false, !shown, spec.generation,
                                                   calls.status, calls.finalizer);
          return if failed then Error else Requeue(nextSchedule);
        }
        failed := store.ManageOutcomeWithRequeue(status, false, true, spec.generation, calls.status, calls.finalizer);
        return if failed then Error else Requeue(SECOND);
      }
      failed := store.ManageOutcomeWithRequeue(status, false, true, spec.generation, calls.status, calls.finalizer);
      return if failed then Error else NoRequeue;
    }

    method ReconcileCreation(calls: Calls) returns (result: Result)
      modifies this`value, this`writtenAt, store
      ensures Outcome(State(), result) == ReconcileLive(spec, calls, old(State()))
    {
      if !calls.context {
        result := ReportFailure(calls);
        return;
      }
      var last := store.stored.status.last;
      if last.Some? && (spec.refresh.None? || !(last.value + spec.refresh.value < now)) {
        return NoRequeue;
      }
      var failed, status := ManageReconcileLogic(calls);
      if failed {
        result := ReportFailure(calls);
        return;
      }
      result := Conclude(calls, status);
    }

    method ManageCleanUpLogic(call: CallOutcome) returns (failed: bool)
      modifies this`value, this`removals
      ensures State() == if !spec.retain && call.Applied() then Removed(old(State())) else old(State())
      ensures failed <==> !spec.retain && !call.Done?
    {
      if spec.retain {
        return false;
      }
      if call.Applied() && value.Some? {
        value, removals := None, removals + 1;
      }
      return !call.Done?;
    }

    method ReconcileDeletion(calls: Calls) returns (result: Result)
      modifies this`value, this`removals, store
      ensures Outcome(State(), result) == ReconcileTerminating(spec, calls, old(State()))
    {
      if !calls.context {
        result := ReportFailure(calls);
        return;
      }
      if !store.stored.finalizer {
        return NoRequeue;
      }
      var failed := ManageCleanUpLogic(calls.delete);
      if !failed {
        failed := store.UpdateFinalizer(false, calls.release);
      }
      if failed {
        result := ReportFailure(calls);
        return;
      }
      return NoRequeue;
    }

    /** One cycle of the work queue. */
    method Reconcile(calls: Calls)
      modifies this, store
      ensures State() == Step(spec, old(State()), Event.Reconcile(calls))
    {
      if !queued {
        return;
      }
      var result := NoRequeue;
      if phase.Terminating? {
        result := ReconcileDeletion(calls);
        if !store.stored.finalizer {
          phase := Gone;
        }
      } else if phase.Live? {
        result := ReconcileCreation(calls);
      }
      match result
      case Error =>
      case NoRequeue => queued := false;
      case Requeue(after) => queued, due := false, Earlier(due, now + after);
    }
  }
}
