# A verified model of the Vault configuration operator

The operator keeps Vault and Kubernetes in line with custom resources. Its risks lie in small
event-driven state machines (reconcile cycles whose every call may fail, a status and a finalizer
that are persisted by separate writes, watch filters, timers) and in a few string and counting
algorithms. This project models them in Dafny and proves what they keep over whole runs.

Each controller is modelled twice. A function `Step` over an immutable `World` says what one event
does, and lemmas about `Run`, any sequence of events, state what the design promises. A class with
the fields and methods of the Go code does the same work imperatively, and its `Reconcile` method is
proved to change the state exactly as `Step` does. What happens to each call of a cycle is a free
parameter, so every theorem covers every pattern of failures. A call that changes something is
`Done`, `Refused`, or `ReplyLost`: applied, although the caller sees an error.

| file | subject |
|---|---|
| `Text`, `Rewriting`, `Policy` | accessor placeholders of a policy, resolved in a loop over an unordered map |
| `Paths`, `EngineMounts` | path cleansing, mount lookup, create-or-tune cycle |
| `ClientCache` | cache of authenticated Vault clients |
| `HashData` | the hash chained over the data of a Secret, relative to SHA-256 (section 6.2 of FIPS 180-4) |
| `RefreshDuration`, `VaultSecret`, `VaultSecretController` | generated Secrets: drift, self-healing, refresh |
| `Persistence`, `Finalizers` | conditions, outcome of a cycle, finalizers and clean-up |
| `NamespaceIndex` | namespaces selected by Kubernetes auth roles, and the inverse watch mapper |
| `PkiEngine` | generate, export, sign, configure |
| `DatabaseRotation` | root password rotation |
| `RandomSecret`, `PasswordGenerator` | one-off and periodic random secrets, password policies |

`dafny verify dfyconfig.toml` verifies the whole project.

## Where the code does not do what one would expect

The model follows the code; lemmas pin down each of these.

- Resolved policies depend on Go's map order exactly if an accessor occurs inside the placeholder of
  another mount (`PolicyAccessors.ResolutionIsConfluentIff`), and a placeholder can survive exactly if
  one occurs inside any placeholder (`ResolutionIsCompleteIff`).
- `CleansePath` is not idempotent on interior runs of three or more slashes
  (`Paths.CleanseIdempotentIff`).
- An identity shares its cache key with another five-part identity exactly if one of its components
  contains a colon (`ClientCache.CollidesIff`). The key does not mention the Vault connection either:
  the cache is right exactly if equal keys imply equal identity and connection (`CacheIsRightIff`).
- A refresh threshold above 100 schedules refreshes after leases have ended
  (`RefreshDuration.ThresholdIsSafeIff`).
- Self-healing fails exactly for specs whose annotations can contradict the hash
  (`VaultSecret.SelfHealingIff`; it holds if they do not set it, `SelfHealing`): the drift goes unnoticed until the next resync after a creation, and
  the Secret is rewritten without pause after an update (`OverrideEffects`).
- A cycle right after one that wrote may write again, as the recorded time has lost its fraction of a
  second: exactly if the hash is overridden or the duration is shorter than that fraction
  (`VaultSecret.WritesTwiceAtOnceIff`). Every later cycle writes exactly if the hash is overridden or
  the duration is not positive, as with a lease of no duration (`NeverRestsIff`).
- Deleting a VaultSecret deletes whatever Secret has the output name, whoever owns it
  (`VaultSecret.CleanUpDeletesIff`, `CleanUpDeletesForeignSecret`).
- A Vault entry written by a cycle whose status or finalizer update is lost outlives a deletion
  requested at that moment (`Finalizers.OrphanIff`, `UnprotectedWriteIsOrphaned`).
- One malformed selector, or a failed listing, blinds the namespace watch for all roles; those whose
  selection moves are then left wrongly bound (`NamespaceIndex.EventKeepsAgreementIff`,
  `MalformedSelectorBlindsOthers`).
- The URL configuration of a PKI engine is written under the path of the CRL configuration
  (`PkiEngine.UrlsPathStaysEmpty`, `CrlPathAfterCycle`), and both are compared with the payload of
  requests, so that they are written in every cycle (`OrdinaryCycleWritesBoth`). A lost CSR is never recovered
  (`LostCsrIsLostForGood`), and a stale one is sent exactly if a second CSR was generated after a lost
  status write (`GoesStaleIff`, `SendsLatestIff`, `StaleCsrAfterLostStatus`).
- A rotation that cannot be recorded is followed by a configuration write with the old password, and
  the operator locks itself out of the database (`DatabaseRotation.LostRecordRestoresOldPassword`,
  `LockedOutForGood`); without such a loss access is kept (`LosesSyncIff`, `AccessIsKept`).
- A one-off random secret overwrites an existing value if the existence check fails
  (`RandomSecret.OneOffOverwritesIff`), and deletes on clean-up a value it merely found
  (`CleanUpDeletesIff`, `AdoptedValueIsDeleted`).
- A periodic random secret is not refreshed again, short of a further restart or a resync, after a
  restart that comes before the refresh is due, or after a cycle that recorded its write but failed
  afterwards; a write ahead of a pending requeue has the next cycle come too early, too
  (`RandomSecret.EarlyCycleForgetsIff`, `FailedReportForgetsRefresh`, `StepContinuesIff`,
  `ForgottenForGood`).
- Only the first draw of a password can be accepted; the other 9999 attempts cannot succeed
  (`PasswordGenerator.OnlyTheFirstDrawCounts`, `RetryingIsUseless`). Bytes of a charset that do not stand where a rune starts
  are not counted (`CountIsExactIff`, `RejectedThoughCompliantIff`, `NonAsciiIsUndercounted`).

## Model

| member | source | states |
|---|---|---|
| `PolicyAccessors.ResolutionIsSimultaneous` | api/v1alpha1/policy_types.go:78-109 | for a sane listing in which no accessor occurs in another mount's placeholder, the loop in any order computes the one left-to-right substitution of all placeholders |
| `PolicyAccessors.ResolutionIsConfluentIff` | api/v1alpha1/policy_types.go:99-104 | all iteration orders agree on every policy if and only if no accessor occurs in the placeholder of another mount |
| `PolicyAccessors.ResolutionIsCompleteIff` | docs/policy-management.md:32-34 | no placeholder of a listed mount is left in any resolved policy if and only if no accessor occurs in any placeholder |
| `PolicyAccessors.ResolutionIsIdempotentIff` | api/v1alpha1/policy_types.go:78-109 | resolving a resolved policy changes nothing, for all policies and orders, if and only if no accessor occurs in any placeholder |
| `PolicyAccessors.FastPathAgrees` | api/v1alpha1/policy_types.go:79-83 | a policy that the regular expression does not match is left alone by the loop, whatever the listing |
| `PolicyAccessors.PlaceholderOfMount` | docs/policy-management.md:32-34 | a mount is referred to by its path between `${auth/` and `/@accessor}`, with or without the slash at the end of its listing |
| `PolicyAccessors.CrossingShowsTheOrder` | api/v1alpha1/policy_types.go:99-104 | an accessor inside another placeholder yields a policy and two orders with different results |
| `PolicyAccessors.EqualPathsShowTheOrder` | api/v1alpha1/policy_types.go:99-104 | two mounts with the same trimmed path and different accessors make the order show |
| `PolicyAccessors.Policy.PrepareInternalValues` | api/v1alpha1/policy_types.go:78-109 | errors exactly on a null listing with a match; otherwise the policy becomes the result of some order, which is the simultaneous substitution where that is defined |
| `Rewriting.FullOrderIsSimultaneous` | api/v1alpha1/policy_types.go:99-104 | repeated replacement of delimited words in any order is the simultaneous substitution if no replacement occurs in another word |
| `Rewriting.AbsorbOne` | api/v1alpha1/policy_types.go:102-103 | replacing one more word in a substituted text adds its rule to the substitution |
| `Paths.CleanseHalvesInterior` | api/v1alpha1/utils/commons.go:350-352 | a cleansed path has no outer slash, and each interior run of k slashes has become one of k/2, rounded up |
| `Paths.CleanseIdempotentIff` | api/v1alpha1/utils/commons.go:350-352 | cleansing twice equals cleansing once if and only if no interior run has three slashes or more |
| `Paths.CleanPathsStay` | api/v1alpha1/utils/commons.go:350-352 | the fixed points are exactly the paths without outer and double slashes |
| `Paths.LookupKeyIsCleansedMountPath` | api/v1alpha1/utils/vaultengineobject.go:48-72 | the key recovered from the API path of a mount is its cleansed mount path, whatever slashes the user wrote |
| `EngineMounts.LookupIsExact` | api/v1alpha1/utils/vaultengineobject.go:60-72 | in a listing as Vault gives it, the search finds precisely the mount stored under the key, in any iteration order |
| `EngineMounts.KeyOfNamedMount` | api/v1alpha1/secretenginemount_types.go:43-59 | every named secret or auth mount is looked up under a proper key, namely its cleansed mount point |
| `EngineMounts.MountPointIs` | api/v1alpha1/secretenginemount_types.go:43-59 | an engine with an ordinary path is mounted there under its name, a secret engine without one under its name alone; the name in the spec takes precedence |
| `EngineMounts.Engines.RetrieveAccessor` | api/v1alpha1/utils/vaultengineobject.go:48-72 | the loop returns an accessor of a matching mount, or nothing exactly if none matches |
| `EngineMounts.Engines.GetAccessor` | api/v1alpha1/utils/vaultengineobject.go:74-82 | found if and only if the mount exists, with its accessor |
| `EngineMounts.Engines.CreateOrUpdateTuneConfig` | api/v1alpha1/utils/vaultengineobject.go:84-97 | writes the desired tune configuration exactly if the one read is not equivalent, and fails exactly if the read or that write does |
| `EngineMounts.Engines.ManageReconcileLogic` | controllers/vaultresourcecontroller/vaultengineresourcereconciler.go:94-134 | after both preparations creates exactly an absent mount and otherwise tunes this one alone; succeeds exactly if the calls that takes do, and then reports the accessor of this mount, configured as desired |
| `EngineMounts.Engines.Reconcile` | controllers/vaultresourcecontroller/vaultengineresourcereconciler.go:109-132 | the same from the resource's own path: an existing mount is never created again |
| `ClientCache.CacheKeyIsInjective` | api/v1alpha1/utils/commons.go:203-205 | identities whose colons are confined to the path have distinct keys |
| `ClientCache.CollidesIff` | api/v1alpha1/utils/commons.go:203-205 | an identity shares its key with another one if and only if one of its components contains a colon |
| `ClientCache.CacheRefinesIdentityMap` | api/v1alpha1/utils/commons.go:124-138 | over any interleaving of Get, Put and Delete by callers with distinct keys, each Get answers the client stored latest for the same five-part identity and Vault connection and not deleted since |
| `ClientCache.CacheIsRightIff` | api/v1alpha1/utils/commons.go:203-236 | starting empty, every interleaving over a set of callers is answered right if and only if equal keys imply equal identity and equal connection |
| `ClientCache.PathColonsAreSafeIff` | api/v1alpha1/utils/commons.go:58-60 | among identities with colons in the path only that is so if and only if each identity uses one connection |
| `ClientCache.VaultClientCache.Get` | api/v1alpha1/utils/commons.go:124-130 | answers as the step function of the cache, changing nothing |
| `ClientCache.VaultClientCache.Put` | api/v1alpha1/utils/commons.go:132-134 | changes the cache as the step function does |
| `ClientCache.VaultClientCache.Delete` | api/v1alpha1/utils/commons.go:136-138 | changes the cache as the step function does |
| `HashData.AscendingIsUnique` | controllers/vaultsecretutils/hash.go:18-24 | a set of keys has one ascending enumeration, so the hash does not depend on map order |
| `HashData.LessIff` | controllers/vaultsecretutils/hash.go:24 | the order of keys is that of the first differing byte, prefixes first |
| `HashData.BreakOfHashes` | controllers/vaultsecretutils/hash.go:16-36 | two different maps of any sizes with equal hashes yield two inputs with one SHA-256 digest, or an input whose digest is all zeros |
| `HashData.BreakOfChains` | controllers/vaultsecretutils/hash.go:26-33 | finds the break by walking two chains with one root back from their ends |
| `HashData.RootExtends` | controllers/vaultsecretutils/hash.go:9-33 | the root of no data is all zeros, and an entry whose key comes last is hashed onto the root of the others, digest of the key before digest of the value |
| `HashData.HexIsInjective` | controllers/vaultsecretutils/hash.go:35 | the hexadecimal text determines the digest |
| `HashData.HexAt` | controllers/vaultsecretutils/hash.go:35 | each byte shows as two lower-case digits, the high one first |
| `HashData.SortStrings` | controllers/vaultsecretutils/hash.go:24 | the result is ascending in Go's byte order and has exactly the given keys |
| `HashData.CollectKeys` | controllers/vaultsecretutils/hash.go:18-22 | the keys are collected without repetition, in any order |
| `HashData.ChainUp` | controllers/vaultsecretutils/hash.go:26-33 | the loop computes the chain over the keys |
| `HashData.Compute` | controllers/vaultsecretutils/hash.go:16-36 | the whole computation is a function of the data, whatever order the map hands out its keys in |
| `RefreshDuration.SmallestIsMinimum` | controllers/vaultsecret_controller.go:224-230 | the running minimum from the largest integer is the true minimum of the leases |
| `RefreshDuration.CalculateDuration` | controllers/vaultsecret_controller.go:215-246 | the loop computes the specified duration, or reports it incalculable |
| `RefreshDuration.IncalculableIff` | controllers/vaultsecret_controller.go:213-246 | incalculable if and only if there is no refresh period and every lease has the sentinel value; a refresh period takes precedence over all leases |
| `RefreshDuration.WithinThresholdMeetsLeases` | controllers/vaultsecret_controller.go:237-240 | up to a threshold of 100 the duration exceeds no lease |
| `RefreshDuration.ThresholdIsSafeIff` | api/v1alpha1/vaultsecret_types.go:35-41 | refreshes come before every lease of every list ends if and only if the threshold is at most 100 |
| `RefreshDuration.DurationIsShareOfShortest` | controllers/vaultsecret_controller.go:224-240 | by lease, the duration is the threshold's share of the shortest lease, short of it by less than a second |
| `VaultSecret.WatchAgreesWithCycle` | controllers/vaultsecret_controller.go:421-471 | watch and cycle accept exactly the same drifts, and ownership as the cycle tests it implies ownership as the watch tests it |
| `VaultSecret.SelfHealingIff` | docs/secret-management.md:68 | in every run of edits of data and annotations, deletions, resyncs, failures and restarts a live object is queued whenever its Secret is missing, foreign, or does not carry the hash of its data, if and only if no Secret that Vault's answers can bring about has its hash overridden by the spec |
| `VaultSecret.StepHeals` | controllers/vaultsecret_controller.go:260-312 | every event keeps the invariant behind self-healing, for every spec that cannot override the hash |
| `VaultSecret.OverrideIsLeftAlone` | controllers/vaultsecret_controller.go:188-193 | for answers that build a Secret with an overridden hash, the run of one successful cycle that ends drifted and not queued |
| `VaultSecret.TamperingIsNoticed` | docs/secret-management.md:68 | whoever changes the data and keeps the hash gets the object queued or exhibits a break of SHA-256 |
| `VaultSecret.FormattedIsHealthyIff` | controllers/vaultsecret_controller.go:188-193 | a freshly built Secret carries the hash of its data if and only if the spec does not override the annotation with something else |
| `VaultSecret.GatherSucceedsIff` | controllers/vaultsecret_controller.go:318-350 | gathering succeeds if and only if every definition can be read, and reports the leases in order |
| `VaultSecret.GatherIsLatest` | controllers/vaultsecret_controller.go:352-362 | each name has the values of the last definition that bears it, taken from under "data" if there is a map |
| `VaultSecret.GatherNamesDefinitions` | controllers/vaultsecret_controller.go:352-362 | no other name is there for the templates |
| `VaultSecret.WrittenIsRendered` | controllers/vaultsecret_controller.go:168-213 | a cycle that writes leaves a Secret of ours that holds, under the keys of the spec, the templates rendered with what Vault answered, the last definition of each name counting, with the annotations of the spec and the hash |
| `VaultSecret.LeasesAreRecorded` | controllers/vaultsecret_controller.go:337-381 | a cycle that ends well has the leases of the Secret on record: those of the answers if it wrote it, and the recorded ones otherwise |
| `VaultSecret.OverrideEffects` | controllers/vaultsecret_controller.go:188-193 | after a successful cycle that wrote, the Secret is the one the answers of Vault build, and drifted exactly if its hash is overridden; then the object is queued again at once exactly if the Secret existed before, and by the next resync in any case |
| `VaultSecret.WritesAreJustified` | controllers/vaultsecret_controller.go:260-312 | a cycle writes exactly if the Secret is missing, drifted, never synchronized, or older than its duration, and all reads and renderings succeed; a foreign Secret is never changed and fails the cycle |
| `VaultSecret.SuccessIsFreshIff` | controllers/vaultsecret_controller.go:103-144 | a successful cycle records an update and leaves a Secret that needs nothing until the duration has passed, unless it wrote one whose hash the spec overrides |
| `VaultSecret.LiveSucceedsIff` | controllers/vaultsecret_controller.go:103-144 | a live cycle ends well if and only if the Secret is missing or ours, what there is reason to write gets written, and outcome and finalizer get stored |
| `VaultSecret.QueuedIff` | controllers/vaultsecret_controller.go:103-144 | a cycle leaves a live object queued if and only if it fails or updates the Secret to one whose hash is overridden |
| `VaultSecret.SuccessfulCycleSettles` | controllers/vaultsecret_controller.go:73-146 | if the name is free or ours and all calls succeed, one cycle records success, finalizer and update, and leaves a Secret that is healthy unless its hash is overridden |
| `VaultSecret.QuietUntilDue` | controllers/vaultsecret_controller.go:298-309 | from then on no cycle, restart, resync or passage of time writes before the recorded update plus the duration has passed |
| `VaultSecret.RefreshContinues` | controllers/vaultsecret_controller.go:119-144 | in every run, through failures and restarts, a live unqueued object with a duration has a requeue pending, due at most a second late |
| `VaultSecret.LiveKeepsTimed` | controllers/vaultsecret_controller.go:119-144 | a successful cycle without requeue has no duration, and any requeue is strictly positive, not before the duration has passed since the recorded update and at most a second after |
| `VaultSecret.NextUpdateIsWithinLeases` | controllers/vaultsecret_controller.go:127-136 | the next update a successful cycle records lies within the lease of every definition |
| `VaultSecret.NextUpdateIsRecorded` | controllers/vaultsecret_controller.go:119-136 | a cycle that ends well records as the next update the end of the duration, up to a second, or none without a duration |
| `VaultSecret.NextWriteIff` | controllers/vaultsecret_controller.go:260-312 | after a successful cycle, one at any time writes if and only if it can and the Secret is overridden or the duration has passed since the recorded update |
| `VaultSecret.WritesTwiceAtOnceIff` | controllers/vaultsecret_controller.go:298-312 | right after a successful write, at the same instant, a cycle that can writes again if and only if the Secret is overridden or the duration is less than the fraction of a second that the recorded time has lost |
| `VaultSecret.NeverRestsIff` | controllers/vaultsecret_controller.go:298-312 | cycles that can write at all times after the recorded update if and only if the Secret is overridden or the duration is not positive |
| `VaultSecret.ZeroDurationNeverRests` | controllers/vaultsecret_controller.go:127-143 | with such a duration every successful cycle asks for the next one a second later |
| `VaultSecret.CleanUpDeletesIff` | controllers/vaultsecret_controller.go:92-109 | a cycle of a terminating object deletes the Secret if and only if our finalizer is there and the call gets through, whoever owns the Secret |
| `VaultSecret.SuccessfulDeletionCompletes` | controllers/vaultsecret_controller.go:92-109 | if its calls succeed, one cycle of a terminating object lets object and Secret go |
| `VaultSecretController.VaultSecretReconciler.FindOwner` | controllers/vaultresourcecontroller/utils.go:65-76 | finds an owner exactly if one has the name, the UID and the kind of the object |
| `VaultSecretController.VaultSecretReconciler.IsOwnedSecretByController` | controllers/vaultsecret_controller.go:464-471 | the loop decides whether any owner is a VaultSecret |
| `VaultSecretController.VaultSecretReconciler.UpdateFunc` | controllers/vaultsecret_controller.go:422-438 | accepts exactly the owned Secrets whose annotation is not the hash of their data |
| `VaultSecretController.VaultSecretReconciler.DecideSync` | controllers/vaultsecret_controller.go:260-312 | decides or errs as the protocol specifies |
| `VaultSecretController.VaultSecretReconciler.FormatK8sSecret` | controllers/vaultsecret_controller.go:168-213 | in any map order, either all templates render and the specified Secret results, of which `VaultSecret.WrittenIsRendered` speaks, or nothing does |
| `VaultSecretController.VaultSecretReconciler.ReadDefinitions` | controllers/vaultsecret_controller.go:314-362 | the loop merges the values of all definitions by name, later ones winning, or fails with the first unreadable one |
| `VaultSecretController.VaultSecretReconciler.CreateOrUpdateResource` | controllers/vaultresourcecontroller/utils.go:260-297 | stores the Secret exactly if the lookup and the write get through, and tells whether the operator's own update queues the object |
| `VaultSecretController.VaultSecretReconciler.ManageSyncLogic` | controllers/vaultsecret_controller.go:314-381 | changes the state as the protocol's synchronization does |
| `VaultSecretController.VaultSecretReconciler.ScheduleNext` | controllers/vaultsecret_controller.go:119-144 | records the next update and asks for the specified requeue; the latest update it dereferences is there |
| `VaultSecretController.VaultSecretReconciler.Reconcile` | controllers/vaultsecret_controller.go:73-146 | one cycle changes the state exactly as the protocol's step |
| `Persistence.AddOrReplaceIsMapUpdate` | api/v1alpha1/utils/commons.go:45-54 | the condition list behaves as a last-writer-wins map by type and keeps at most one entry per type |
| `Persistence.OutcomeKeepsSuccess` | controllers/vaultresourcecontroller/utils.go:130-185 | whichever calls fail, recorded success stays, a finalizer is added only next to recorded success of a deletable object without issue, and a reported success has persisted both |
| `Persistence.OutcomeIsRecorded` | controllers/vaultresourcecontroller/utils.go:130-185 | outcome and status are stored exactly if the status update is applied, the finalizer is added exactly if it is called for and its update is applied, and the cycle fails exactly if there is an issue or one of its calls fails |
| `Persistence.AddOrReplaceCondition` | api/v1alpha1/utils/commons.go:45-54 | the loop computes the map update |
| `Persistence.ObjectStore.ManageOutcomeWithRequeue` | controllers/vaultresourcecontroller/utils.go:130-185 | persists status and finalizer by two separate calls as specified |
| `Finalizers.FinalizerImpliesSuccess` | controllers/vaultresourcecontroller/utils.go:154-174 | in every run a persisted finalizer implies a deletable kind with recorded success, and recorded success is never lost |
| `Finalizers.SuccessIsEarned` | controllers/vaultresourcecontroller/vaultresourcereconciler.go:62-115 | success and finalizer go on record only in a cycle of a live object that ends with the entry asked for, or an equivalent one that was there |
| `Finalizers.EntryIsUpdatedIff` | api/v1alpha1/utils/vaultobject.go:104-121 | a cycle of a live object changes the entry if and only if it is missing or not equivalent and the calls get through: to what the resource asks for |
| `Finalizers.LiveSucceedsIff` | controllers/vaultresourcecontroller/vaultresourcereconciler.go:62-115 | it succeeds if and only if all the calls it needs do, and then the entry is as asked for or equivalent, with success and, for a deletable kind, finalizer on record |
| `Finalizers.SuccessfulCycleSettles` | controllers/vaultresourcecontroller/vaultresourcereconciler.go:62-115 | if all calls succeed, one cycle brings the entry about, with success and, for a deletable kind, finalizer on record |
| `Finalizers.ReleaseComesAfterDelete` | controllers/vaultresourcecontroller/vaultresourcereconciler.go:44-59 | a step that removes the finalizer has deleted the Vault entry |
| `Finalizers.TerminatingSucceedsIff` | controllers/vaultresourcecontroller/vaultresourcereconciler.go:44-59 | a cycle of a terminating object that our finalizer holds succeeds if and only if deletion and release do |
| `Finalizers.SuccessfulDeletionCompletes` | controllers/vaultresourcecontroller/vaultresourcereconciler.go:44-59 | if its calls succeed and nobody else holds the object, one cycle lets object and entry go |
| `Finalizers.NothingRecreates` | controllers/vaultresourcecontroller/vaultresourcereconciler.go:44-47 | once the finalizer of an object being deleted is gone, nothing recreates entry or finalizer |
| `Finalizers.OrphanIff` | controllers/vaultresourcecontroller/vaultresourcereconciler.go:43-71 | with deletion requested of a live object between any two runs, the entry outlives the object if and only if it was there at the request, the finalizer was not persisted by then, and nobody else removes the entry afterwards |
| `Finalizers.UnprotectedWriteIsOrphaned` | controllers/vaultresourcecontroller/utils.go:154-174 | such a run: a write, a refused status update, a deletion |
| `Finalizers.NonDeletableIsLeftAlone` | controllers/vaultresourcecontroller/vaultresourcereconciler.go:74-77 | other kinds never get a finalizer and are never deleted |
| `Finalizers.VaultResource.ManageCleanUpLogic` | controllers/vaultresourcecontroller/vaultresourcereconciler.go:74-93 | the loop over the conditions calls delete exactly once if success is recorded, and not at all otherwise |
| `Finalizers.VaultResource.CreateOrUpdate` | api/v1alpha1/utils/vaultobject.go:104-121 | writes what is asked for exactly if the entry read is missing or not equivalent |
| `Finalizers.VaultResource.ManageReconcileLogic` | controllers/vaultresourcecontroller/vaultresourcereconciler.go:95-115 | prepares, creates or updates, and fails, as specified |
| `Finalizers.VaultResource.Reconcile` | controllers/vaultresourcecontroller/vaultresourcereconciler.go:43-71 | one cycle changes the state and reports failure exactly as the protocol does |
| `NamespaceIndex.FindSelectedIsSelection` | api/v1alpha1/kubernetesauthenginerole_types.go:117-138 | the query returns each selected namespace exactly once |
| `NamespaceIndex.MapperCoversMoves` | controllers/kubernetesauthenginerole_controller.go:95-112 | every role whose selection a namespace event moves is queued by it, if selectors are well-formed and listings succeed |
| `NamespaceIndex.AgreementSurvivesIff` | controllers/kubernetesauthenginerole_controller.go:95-112 | after a namespace event a bound role agrees with its selection if and only if the event does not move that |
| `NamespaceIndex.EventKeepsAgreementIff` | controllers/kubernetesauthenginerole_controller.go:95-137 | a namespace event leaves a role queued or in agreement if and only if it does not move the role's selection, or all selectors are well-formed and the mapper gets a listing for labels the role selects |
| `NamespaceIndex.EventKeepsInvIff` | controllers/kubernetesauthenginerole_controller.go:95-137 | the agreement of the whole index survives a namespace event if and only if the mapper hears of every role the event moves |
| `NamespaceIndex.IndexAgreement` | controllers/kubernetesauthenginerole_controller.go:87-137 | over any run with well-formed selectors and successful listings of the mapper, every role that is not queued is bound to exactly the namespaces its selector matches now, or to the stand-in if there are none |
| `NamespaceIndex.StepKeepsInv` | controllers/kubernetesauthenginerole_controller.go:87-137 | every event keeps that agreement |
| `NamespaceIndex.ReconcileSucceedsIff` | controllers/kubernetesauthenginerole_controller.go:59-84 | a reconcile takes a queued role off the queue if and only if the calls it needs succeed, and then the role is in agreement |
| `NamespaceIndex.KubernetesAuthEngineRole.FindSelectedNamespaceNames` | api/v1alpha1/kubernetesauthenginerole_types.go:117-138 | the loop computes the selection query, and fails exactly on a malformed selector or a failed listing |
| `NamespaceIndex.KubernetesAuthEngineRole.PrepareInternalValues` | api/v1alpha1/kubernetesauthenginerole_types.go:92-110 | hands over the selection, the stand-in, or the listed names |
| `NamespaceIndex.Controller.FindApplicableKubernetesAuthEngineRoles` | controllers/kubernetesauthenginerole_controller.go:115-137 | finds exactly the roles that select the labels, unless the listing fails or some selector is malformed |
| `NamespaceIndex.Controller.MapNamespace` | controllers/kubernetesauthenginerole_controller.go:95-112 | requests exactly the mapped roles |
| `NamespaceIndex.Controller.Reconcile` | controllers/kubernetesauthenginerole_controller.go:59-84 | one cycle changes the state exactly as the step |
| `PkiEngine.OrderedProgress` | controllers/vaultresourcecontroller/vaultpkiengineresourcereconciler.go:98-151 | in every run flags are monotone, signed and exported imply generated, a root is never signed, and configuration comes after generation and signing |
| `PkiEngine.CompleteCycle` | controllers/vaultresourcecontroller/vaultpkiengineresourcereconciler.go:98-151 | a cycle without issue leaves a generated, exported and signed engine as the kind demands, and has written exactly the configurations found to differ from the payload of requests |
| `PkiEngine.CycleSucceedsIff` | controllers/vaultresourcecontroller/vaultpkiengineresourcereconciler.go:98-151 | a cycle succeeds if and only if all the calls its kind still needs do; it has then stored its status and submitted the certificate that was due, the signed one or that in the external Secret |
| `PkiEngine.GenerateIsConserved` | controllers/vaultresourcecontroller/vaultpkiengineresourcereconciler.go:106-127 | successful Generate calls are exactly the lost status writes plus one once generation is on record |
| `PkiEngine.GenerateOnce` | controllers/vaultresourcecontroller/vaultpkiengineresourcereconciler.go:106-127 | if status updates are applied, Generate succeeds at most once, however often export or signing fail |
| `PkiEngine.CsrContinuity` | api/v1alpha1/pkisecretengineconfig_types.go:315-381 | every sign request in every run carries a CSR that Generate returned, the only one if no status write is lost |
| `PkiEngine.SubmitsWhatWasSigned` | api/v1alpha1/pkisecretengineconfig_types.go:315-381 | an internally signed certificate that is submitted is the one the sign request of the same cycle returned |
| `PkiEngine.RecoversIffSecretReadable` | api/v1alpha1/pkisecretengineconfig_types.go:318-340 | a later cycle sends a sign request if and only if it can read the exported Secret, with the CSR in it |
| `PkiEngine.LostCsrIsLostForGood` | api/v1alpha1/pkisecretengineconfig_types.go:276-309 | without that Secret an unsigned, generated intermediate makes no progress in any run |
| `PkiEngine.GoesStaleIff` | controllers/vaultresourcecontroller/vaultpkiengineresourcereconciler.go:106-127 | a Secret with the latest CSR goes stale if and only if a cycle generates another CSR while the Secret is there, which takes a lost status write |
| `PkiEngine.SendsLatestIff` | api/v1alpha1/pkisecretengineconfig_types.go:318-340 | with generation on record, a sign request carries the latest CSR if and only if the Secret does |
| `PkiEngine.SendsGenerated` | api/v1alpha1/pkisecretengineconfig_types.go:318-340 | in the cycle that generates it, the CSR in memory is the one sent |
| `PkiEngine.UrlsPathStaysEmpty` | api/v1alpha1/utils/vautlpkiengineobject.go:105-118 | no run leaves a configuration under the path of the URL configuration |
| `PkiEngine.CrlPathAfterCycle` | api/v1alpha1/utils/vautlpkiengineobject.go:105-118 | a cycle without issue leaves the CRL configuration at the CRL path if and only if it wrote that, or wrote nothing and it was there; it writes exactly where the answer differs from the payload of requests; otherwise the URL configuration is there if it was written or was there before |
| `PkiEngine.OrdinaryCycleWritesBoth` | api/v1alpha1/pkisecretengineconfig_types.go:439-442 | configurations as Vault answers them are never found equivalent: every cycle without issue writes both again and leaves that of the CRL at the CRL path |
| `PkiEngine.DeletionIsQuiet` | controllers/vaultresourcecontroller/vaultpkiengineresourcereconciler.go:43-87 | once deletion is requested no run asks anything more of Vault |
| `PkiEngine.VaultPKIEngineResource.SetIntermediate` | api/v1alpha1/pkisecretengineconfig_types.go:315-381 | signs and submits as specified, with the CSR from memory or the Secret |
| `PkiEngine.VaultPKIEngineResource.ManageReconcileLogic` | controllers/vaultresourcecontroller/vaultpkiengineresourcereconciler.go:98-151 | the steps with their early returns do the specified work |
| `PkiEngine.VaultPKIEngineResource.Reconcile` | controllers/vaultresourcecontroller/vaultpkiengineresourcereconciler.go:65-96 | one cycle changes the state and reports failure exactly as the protocol does |
| `DatabaseRotation.RotationsAreSpaced` | controllers/databasesecretengineconfig_controller.go:100-130 | in every run, whatever fails, consecutive recorded rotations are more than 95% of the period apart, and without a period at most one is recorded |
| `DatabaseRotation.RotationsAreTimely` | controllers/databasesecretengineconfig_controller.go:100-130 | if calls succeed and requeues fire within a delay, recorded rotations are at most the period plus the delay apart |
| `DatabaseRotation.RequeueIsBounded` | controllers/databasesecretengineconfig_controller.go:100-130 | every successful cycle schedules a requeue of at least 5% of the period and at most the period |
| `DatabaseRotation.FirstSuccessRotates` | controllers/databasesecretengineconfig_controller.go:100-112 | with credentials the database accepts, the first cycle in which all calls succeed rotates the password and dates the rotation |
| `DatabaseRotation.RotatesIff` | controllers/databasesecretengineconfig_controller.go:100-130 | a cycle rotates the password if and only if its configuration succeeds, rotation is enabled and due, and Vault can log in and carries it out |
| `DatabaseRotation.CycleSucceedsIff` | controllers/databasesecretengineconfig_controller.go:85-134 | a cycle succeeds if and only if its configuration does and so do a rotation that is due and its record |
| `DatabaseRotation.OneRotationWithoutPeriod` | controllers/databasesecretengineconfig_controller.go:100-130 | without a period nothing is rotated after the recorded rotation |
| `DatabaseRotation.EveryRotationIsRecorded` | controllers/databasesecretengineconfig_controller.go:136-147 | if no record is lost, rotations and records agree in number in every run; without a period the password is then rotated at most once |
| `DatabaseRotation.PayloadHasPasswordIff` | api/v1alpha1/databasesecretengineconfig_types.go:338-362 | a payload carries a password if and only if one was retrieved or is a database-specific setting, and which of them |
| `DatabaseRotation.PlainSettings` | api/v1alpha1/databasesecretengineconfig_types.go:338-352 | each plain setting is as in the spec unless a database-specific one replaces it |
| `DatabaseRotation.SpecificSettings` | api/v1alpha1/databasesecretengineconfig_types.go:350-361 | database-specific settings yield only to credentials and the escaping flag, and there are no further keys |
| `DatabaseRotation.CredentialsOfPayload` | api/v1alpha1/databasesecretengineconfig_types.go:137-211 | before a rotation is on record a payload has the user name of the spec, or else of the source, and the password of the source; afterwards it has neither from the source |
| `DatabaseRotation.ConfigureSucceedsIff` | controllers/vaultresourcecontroller/vaultresourcereconciler.go:62-115 | the configuration succeeds if and only if the calls it needs do |
| `DatabaseRotation.ConfiguredIsCurrent` | api/v1alpha1/utils/vaultobject.go:104-121 | a configuration that succeeded is the one of the present spec and source, or was judged equivalent |
| `DatabaseRotation.RecordedPayloadHasPasswordIff` | api/v1alpha1/databasesecretengineconfig_types.go:137-142 | after a recorded rotation a payload carries a password if and only if it is a database-specific setting |
| `DatabaseRotation.RecordedPasswordIsKept` | api/v1alpha1/databasesecretengineconfig_types.go:137-142 | in every reachable state after a recorded rotation Vault holds the password the database accepts |
| `DatabaseRotation.LosesSyncIff` | controllers/databasesecretengineconfig_controller.go:85-134 | Vault in sync with the database loses access in a step if and only if that writes a configuration which leaves a password the database does not accept |
| `DatabaseRotation.AccessIsKept` | controllers/databasesecretengineconfig_controller.go:85-147 | with credentials the database accepts and no record of a rotation lost, every run keeps Vault in sync and is never locked out |
| `DatabaseRotation.LockedOutForGood` | controllers/databasesecretengineconfig_controller.go:136-147 | from there no run of the operator rotates again or restores access |
| `DatabaseRotation.DatabaseSecretEngineConfigReconciler.ToPayload` | api/v1alpha1/databasesecretengineconfig_types.go:338-362 | the payload built key by key, in any map order, is the specified one |
| `DatabaseRotation.DatabaseSecretEngineConfigReconciler.SetInternalCredentials` | api/v1alpha1/databasesecretengineconfig_types.go:137-211 | retrieves nothing after a recorded rotation, and the specified credentials otherwise |
| `DatabaseRotation.DatabaseSecretEngineConfigReconciler.RotateRootPassword` | controllers/databasesecretengineconfig_controller.go:136-147 | rotates, then records; the outcome of each call determines the state |
| `DatabaseRotation.DatabaseSecretEngineConfigReconciler.Reconcile` | controllers/databasesecretengineconfig_controller.go:62-134 | one cycle changes the state exactly as the protocol's step |
| `RandomSecret.OneOffIsConserved` | controllers/randomsecret_controller.go:156-165 | with a truthful existence check, in every run own writes and foreign creations add up to removals plus what is there, so own writes exceed removals by at most one, whatever happens to status updates |
| `RandomSecret.OneOffProvides` | controllers/randomsecret_controller.go:149-180 | a one-off cycle without an update on record that ends well leaves a value in Vault: the one it found, or else the generated one, written once and dated now |
| `RandomSecret.SuccessProvides` | controllers/randomsecret_controller.go:101-180 | any cycle that ends well came early and changed nothing, adopted what it found, or wrote the generated value once, dated now; if it was due, success is on record |
| `RandomSecret.AllDoneSucceeds` | controllers/randomsecret_controller.go:59-123 | a cycle of a live object whose calls succeed ends well |
| `RandomSecret.QueuedIff` | controllers/randomsecret_controller.go:59-123 | a cycle leaves its object queued if and only if it fails |
| `RandomSecret.OneOffOverwritesIff` | controllers/randomsecret_controller.go:156-165 | an existing value is changed if and only if no update is on record, the existence check fails, and a different value is written |
| `RandomSecret.CleanUpDeletesIff` | controllers/randomsecret_controller.go:80-147 | a cycle of a terminating object removes the value if and only if our finalizer is there, the value is not retained and the calls get through, whoever wrote it |
| `RandomSecret.SuccessfulDeletionCompletes` | controllers/randomsecret_controller.go:80-147 | if its calls succeed, one cycle of a terminating object lets it go, and the value unless that is retained |
| `RandomSecret.WritesAreSpaced` | controllers/randomsecret_controller.go:101-103 | in every run in which writes get on record, each comes strictly more than the period after the recorded time of the one before |
| `RandomSecret.RequeueAfterWrite` | controllers/randomsecret_controller.go:111-121 | a periodic cycle that ends well came early or wrote; then the update it dereferences is there and the requeue is the period, or a second if that is not positive |
| `RandomSecret.RefreshContinues` | controllers/randomsecret_controller.go:101-121 | without restarts, with cycles that hear of the dates they store and do not write ahead of a pending requeue, a refresh is always queued or pending |
| `RandomSecret.StepContinuesIff` | controllers/randomsecret_controller.go:101-121 | such a step lets go of the refresh if and only if it writes ahead of a pending requeue |
| `RandomSecret.WithoutResyncNeverAhead` | controllers/vaultresourcecontroller/utils.go:222-255 | without resyncs no cycle does |
| `RandomSecret.EarlyCycleForgetsIff` | controllers/randomsecret_controller.go:101-103 | a cycle with nothing pending forgets the refresh if and only if it follows the recorded update by no more than the period |
| `RandomSecret.FailedReportForgetsRefresh` | controllers/randomsecret_controller.go:115-116 | such a run without a restart: the second of two status updates is refused |
| `RandomSecret.ForgottenForGood` | controllers/randomsecret_controller.go:101-103 | a forgotten refresh is not taken up before the next restart or resync |
| `RandomSecret.CleanUpRespectsRetention` | controllers/randomsecret_controller.go:125-147 | the finalizer goes only after the value, unless that is retained; a retained value survives |
| `RandomSecret.RandomSecretReconciler.ManageReconcileLogic` | controllers/randomsecret_controller.go:149-180 | adopts, generates and writes as specified, and dates the update |
| `RandomSecret.RandomSecretReconciler.Conclude` | controllers/randomsecret_controller.go:111-122 | reports success twice before a positive delay, as specified |
| `RandomSecret.RandomSecretReconciler.Reconcile` | controllers/randomsecret_controller.go:59-123 | one cycle changes the state exactly as the protocol's step |
| `PasswordGenerator.AcceptedIsSound` | api/v1alpha1/randomsecret_types.go:259-301 | an accepted password has the length, only letters of rules of kind "charset" and at least the minimum of each of these; a rejected one leaves the stored secret alone |
| `PasswordGenerator.OnlyTheFirstDrawCounts` | api/v1alpha1/randomsecret_types.go:276-301 | the loop over all the attempts, whose flag is never set again, has the outcome of the first draw |
| `PasswordGenerator.RetryingIsUseless` | api/v1alpha1/randomsecret_types.go:276-301 | so the outcome of the loop depends neither on the number of attempts nor on later random numbers |
| `PasswordGenerator.InfeasibleAlwaysFails` | api/v1alpha1/randomsecret_types.go:259-301 | with pairwise disjoint charsets, demands that exceed the length are never met |
| `PasswordGenerator.FeasibleIff` | api/v1alpha1/randomsecret_types.go:259-301 | with pairwise disjoint charsets, ASCII or not, some draw is accepted if and only if the demands fit the length and none is made of an empty charset |
| `PasswordGenerator.CountVersusOccurrences` | api/v1alpha1/randomsecret_types.go:281-286 | counting at rune starts misses exactly the bytes of the set that the range loop steps over |
| `PasswordGenerator.WidthOfEncoding` | api/v1alpha1/randomsecret_types.go:282 | a range loop advances over the UTF-8 encoding of a scalar value by its length |
| `PasswordGenerator.WideIsEncoding` | api/v1alpha1/randomsecret_types.go:282 | and by more than one only over such an encoding |
| `PasswordGenerator.CountIsExactIff` | api/v1alpha1/randomsecret_types.go:281-286 | the count is exact if and only if every byte of the set stands where a rune starts, as on ASCII |
| `PasswordGenerator.RejectedThoughCompliantIff` | api/v1alpha1/randomsecret_types.go:276-300 | a draw that truly complies is rejected if and only if, for some rule, more is stepped over than the rule has to spare |
| `PasswordGenerator.RandomSecret.RandStringBytes` | api/v1alpha1/randomsecret_types.go:307-313 | fills the buffer with the drawn letters |
| `PasswordGenerator.RandomSecret.CountChars` | api/v1alpha1/randomsecret_types.go:280-286 | the loop over rune starts computes the count |
| `PasswordGenerator.RandomSecret.Check` | api/v1alpha1/randomsecret_types.go:279-291 | in any rule order, accepts exactly the compliant strings |
| `PasswordGenerator.RandomSecret.CalculateSecret` | api/v1alpha1/randomsecret_types.go:259-301 | the loops compute the specified outcome, panics included |

## Left out

- Vault and Kubernetes themselves: clients, logins, TLS, token renewal, events and logging. Calls are parameters, and their effects are what the models say of them.
- Templates, Sprig, HCL, YAML and JSON: rendering is an uninterpreted deterministic function, and password policies arrive decoded.
- SHA-256: an uninterpreted function of which only the digest size is assumed; results about hashes are reductions.
- Webhooks, the field-by-field payloads of the other kinds, and their thin controllers: each is a single-branch fact.
- Edits of status, finalizers or owner references by others, renames of a Vault object through its spec, and stale caches of the API client.
- Reconcile cycles are atomic: no event happens between two calls of one cycle, and all calls of a cycle see one time.
- Specs are immutable in the models of PKI engines, database rotation, random secrets and generated Secrets; role specs change in `NamespaceIndex`.
- Labels and type of a generated Secret, several VaultSecrets with one output name, and garbage collection after a VaultSecret is gone.
- Rotation while the object is being deleted, and clean-up of mount resources, which repeats that of `Finalizers`.
- Floating point and the overflow of 64-bit durations: the 95% test and the refresh threshold are exact, truncation to whole seconds included.
- DatabaseRotation.RotationsAreSpaced: stored timestamps are truncated, so the bound of 95% of the period is met up to less than one unit of their granularity, a parameter of the model.
- DatabaseRotation.RotationsAreTimely: likewise, the bound of period plus delay grows by less than one unit of that granularity.
- A delayed requeue fires strictly after it fell due.
- Drift detection, which is off by default, is modelled for random secrets only, as resync events that may come at any time rather than after the sync period.
- Nested values under "data" of a Vault secret are told apart from flat ones as the code does, but values are texts.
- Vault is assumed to keep the stored password on a configuration write without one, and to carry out a rotation only with the password the database accepts.
- EngineMounts.Engines.Reconcile: Vault is assumed to store a mount under the cleansed path as it is, also where cleansing leaves a double slash, as it does for interior runs of three or more.
- Mount listings are assumed to be as Vault gives them: each mount under its trimmed path followed by one slash.
- Fixed names of namespaces are stored as given: that Vault roles named by `targetNamespaces` exist is not checked.
- Password policies kept in Vault are covered only as a value that may or may not be generated.
