# Models of the cluster-etcd-operator's protocols

The operator is a set of controllers that take steps against shared state: secrets and
configmaps, etcd membership, machines, jobs, a pool of clients. Each part below models one
of them as a transition system or a specification over values, proves what every run
keeps, and then proves the controller's own ordered code (a class over mutable fields)
equal to it. The `*_effect` modules say what one whole sync does in terms of the stored
resources, without the functions that define its steps. Failures of API calls, clocks,
health checks and everything drawn from outside are inputs; a sync may be cut off after any
of its writes.

- **Certificate rotation** (`rotation_model`, `rotation_safety`, `rotation_limits`,
  `rotation_forced`, `rotation_progress`, `rotation_effect`, `cert_signer`): signers, CA
  bundles, the aggregated bundle with its rollout annotation, revision snapshots, nodes and
  leaf certificates. The gate is one integer comparison, and it implies trust on every node.
- **Vertical scaling** (`scaling_model`, `scaling_safety`, `scaling_effect`,
  `scaling_controllers`, `scaling_hooks`): the member, removal, deletion hook and endpoints
  controllers, interleaved with users, health changes and the machine API.
- **Client pool** (`pool_model`, `pool_safety`, `pool_limits`, `client_pool`): any number of
  concurrent Get and Return calls, one channel operation or callback a step.
- **Retry scheduler** (`retry_model`, `retry_safety`, `retry_schedule`, `retry_effect`,
  `retry_controller`): the round robin of cluster jobs over nodes and attempts, the creation
  and deletion of the job, and the Degraded condition that outlives it.
- **Defragmentation** (`defrag_*`), **backups** (`backup_model`, `backup_safety`,
  `backup_effect`, `backup_controller`), **pruning** (`backup_pruning`), **IPv4 addresses**
  (`ipv4`), **member cache and quorum** (`member_cache`, `quorum_safety`).

`RotationSafety.GateKeepsTrust` rests on two assumptions, both in `Admissible`: no revision
is created between the status read and the bundle write that is tagged with it, and the
node-difference path re-signs only leaves whose issuer every running and startable node
knows. Both are the exact conditions: `TagIsExact` for the first, `ForcedLeafIsExact` and
`SyncIsExact` for the second. Signers leave a bundle only when they have expired, and a leaf
never outlives its signer.

## Findings

Properties one might expect that the code does not have, each with its exact condition or
a concrete run:

- A revision created between the status read and the bundle write leads to a certificate
  that a running node cannot verify (`StaleTagBreaksTrust`; exactly then the tag is wrong,
  `TagIsExact`).
- So does a node joining in the middle of a rotation (`NodeDifferenceBreaksTrust`). A sync
  on that path is safe, now and whatever the clock, revisions and nodes do next, if and only
  if every running and startable node knows the issuers of the live leaves it re-signs
  (`SyncIsExact`).
- A failed removal of an unhealthy member is followed by an attempt on a healthy one
  (`RiskIsReal`). `FailingRemovalIsExact` says from which states a removal sync can lose the
  majority.
- The pool gives a client's token back before closing the client, so open clients are not
  bounded (`OpenIsUnbounded`; `OpenIsExact` counts them). A caller waiting for a token does
  not see clients that come back meanwhile (`RejectedBesideIdleClients`;
  `WaitingSeesNoIdleClients` says when it succeeds).
- After the first full cycle the retry scheduler never again tries the first node in the
  first attempt (`JobsInOrder`); with one slot it never replaces the job
  (`SingleSlotIsStuck`), with two it waits for the recovery of stuck jobs
  (`TwoSlotsWaitForRecovery`). A job that stopped but is not yet failed uses up a slot per
  sync (`StoppedUsesUpSlots`).
- Affected nodes that are not ready hold back the first job only: once there is a retry state,
  a missing job is created although the check said otherwise, until the block has lasted ten
  minutes (`ReadinessHoldsBackTheFirstOnly`; the comment at `lifecycle.go:548` expects no
  retry state then).
- The max-retries text is lost not only on completion but also when the operator is
  unmanaged or its state cannot be read (`StickyIsExact`).
- A backup sync loses the outcome of the job exactly when it is cut off after its first
  write; the comment in `reconcileJobStatus` expects it to be reconciled later, but the job
  is then deleted as dangling (`OutcomeLostExactly`).
- The size limit of pruning is right exactly below 2^33 GiB (`CutOffIsExact`).
- Fault tolerance of all members covers the voters, for all memberships with given numbers
  of learners, exactly when the healthy learners are not more than the unhealthy ones
  (`LearnersAreExact`).

## Model

| member | source | states |
|---|---|---|
| RotationSafety.GateKeepsTrust | pkg/operator/etcdcertsigner/etcdcertsignercontroller.go:292-362 | over every admissible interleaving of gated syncs, crashes after any write, revision creation, installs, node arrivals and the clock, every running node trusts the issuer of every live leaf certificate ever written, and every revision above the rollout annotation carries the aggregated bundle |
| RotationSafety.RunInv | pkg/operator/etcdcertsigner/etcdcertsignercontroller.go:331-362 | the inductive invariant (gate, bundles, leaves, values a sync has read) survives every admissible run |
| RotationSafety.StepInv | pkg/operator/etcdcertsigner/etcdcertsignercontroller.go:458-527 | every single step keeps that invariant, whatever phase the sync is in |
| RotationSafety.EnsureLeafInv | pkg/operator/etcdcertsigner/etcdcertsignercontroller.go:391-433 | signing a leaf behind the open gate keeps its issuer in every bundle a node runs with or can start next; on the path that skips the gate exactly the leaves honoured everywhere are admitted |
| RotationSafety.RolledOutIsKnown | pkg/operator/etcdcertsigner/etcdcertsignercontroller.go:356-359 | the integer comparison means trust: past the annotation, a signer in the aggregate is in every running bundle and every snapshot a node can start next |
| RotationSafety.ApplyBundlesInv | pkg/operator/etcdcertsigner/etcdcertsignercontroller.go:504-527 | writing the changed aggregate with the revision read at the start as its annotation keeps the invariant |
| RotationLimits.TagIsExact | pkg/operator/etcdcertsigner/etcdcertsignercontroller.go:518-527 | a changed aggregate written from a state with the invariant keeps the gate's meaning if and only if the revision it is tagged with is still the latest |
| RotationLimits.StaleTagBreaksTrust | pkg/operator/etcdcertsigner/etcdcertsignercontroller.go:292-302 | a concrete run: a revision created between the status read and the bundle write makes the gate open too early and a node meets a certificate it cannot verify |
| RotationLimits.NodeDifferenceBreaksTrust | pkg/operator/etcdcertsigner/etcdcertsignercontroller.go:278-290 | an instance in a full run: during a rotation the node-difference path signs with a signer that is not rolled out, and breaks trust while every tag is exact |
| RotationForced.SyncIsExact | pkg/operator/etcdcertsigner/etcdcertsignercontroller.go:278-329 | a sync cut off after any number of API calls keeps the invariant, and leaves trust safe from everything the clock, revisions and nodes can do next, if and only if it is gated or, on the node-difference path, every running and startable node knows the issuer of the live leaves it re-signs |
| RotationForced.ForcedLeafIsExact | pkg/operator/etcdcertsigner/etcdcertsignercontroller.go:365-388 | on the path that skips the gate, re-signing one leaf is safe in that sense if and only if the leaf is not live or its issuer is in the aggregate, the latest snapshot, every running bundle and every startable snapshot |
| RotationForced.BreakingRun | pkg/operator/etcdcertsigner/etcdcertsignercontroller.go:365-388 | where that fails for a live leaf, a run of the others in which a node meets a certificate it does not trust |
| RotationForced.ForcedWrites | pkg/operator/etcdcertsigner/etcdcertsignercontroller.go:391-433 | the leaves a forced sync writes are exactly the due ones it gets to |
| RotationSafety.EnsureLeafIsExact | pkg/operator/etcdcertsigner/etcdcertsignercontroller.go:400-432 | re-signing a leaf keeps the invariant if and only if every running and startable node knows its issuer |
| CertSigner.GatedSyncInv | pkg/operator/etcdcertsigner/etcdcertsignercontroller.go:292-329 | a gated sync keeps the invariant wherever it is cut off |
| CertSigner.DriveIsRun | pkg/operator/etcdcertsigner/etcdcertsignercontroller.go:331-362 | a sync without interference is one of the runs the safety theorem is about |
| RotationProgress.RotationCompletes | pkg/operator/etcdcertsigner/etcdcertsignercontroller.go:331-454 | one sync that mints signers, one rollout and one more sync leave the client, peer and serving leaves of every node live and issued by the new etcd signer, and the metrics client and serving-metrics leaves by the new metrics signer |
| RotationProgress.RolloverIsRun | pkg/operator/etcdcertsigner/etcdcertsignercontroller.go:356-359 | installing the new revision on every node is a run of the transition system |
| RotationEffect.IssuersAreRight | pkg/operator/etcdcertsigner/etcdcertsignercontroller.go:391-433 | wherever a gated or forced sync is cut off, every leaf it added is issued by the etcd signer in force for the etcd client, peers and serving, and by the metrics signer in force for the metrics client and serving-metrics |
| RotationEffect.GatedSyncDoes | pkg/operator/etcdcertsigner/etcdcertsignercontroller.go:292-454 | a whole gated sync on the stored resources: nothing while nodes are unsettled; signers renewed when due or expired; bundles joined and rid of expired signers, an empty one ending the sync; a changed aggregate written with the latest revision as its tag; leaves only when the latest revision is past the tag |
| RotationEffect.ForcedSyncDoes | pkg/operator/etcdcertsigner/etcdcertsignercontroller.go:278-290 | a sync for a node without a certificate leaves signers and bundles alone and syncs all leaves with the stored ones |
| RotationEffect.LeafPhase | pkg/operator/etcdcertsigner/etcdcertsignercontroller.go:365-433 | each leaf is kept or re-signed by the signer of its kind, with an expiry no later than its signer's; leaves of no node are left alone, and the aggregated secret holds exactly the leaves of the nodes |
| CertSigner.Controller.RevisionRolloutInProgress | pkg/operator/ceohelpers/common.go:211-222 | true exactly when some node is between revisions or not at the latest |
| CertSigner.Controller.CurrentRevision | pkg/operator/ceohelpers/common.go:224-244 | succeeds exactly when there are nodes and all are at the latest revision, and then yields it |
| CertSigner.Controller.HasNodeCertDiff | pkg/operator/etcdcertsigner/etcdcertsignercontroller.go:592-615 | true exactly when some node has no serving certificate in the aggregated secret |
| CertSigner.Controller.EnsureSigningCertKeyPair | pkg/operator/etcdcertsigner/etcdcertsignercontroller.go:333-343 | the signer is kept or replaced as the transition system's signer step says |
| CertSigner.Controller.EnsureConfigMapCABundle | pkg/operator/etcdcertsigner/etcdcertsignercontroller.go:465-483 | the signer joins its bundle, expired signers leave; an empty bundle is an error |
| CertSigner.Controller.ApplyBundleConfigMap | pkg/operator/etcdcertsigner/etcdcertsignercontroller.go:504-527 | a changed aggregate is written with its tag and ends the sync; otherwise the gate decides |
| CertSigner.Controller.EnsureTargetCertKeyPair | pkg/operator/etcdcertsigner/etcdcertsignercontroller.go:400-432 | a leaf is re-signed when due, expired, missing or signed by an issuer outside the bundle; nothing else changes |
| CertSigner.Controller.SyncLeafCertificates | pkg/operator/etcdcertsigner/etcdcertsignercontroller.go:391-454 | all leaves in order and then the aggregated secret, or a prefix when cut off |
| CertSigner.Controller.Sync | pkg/operator/etcdcertsigner/etcdcertsignercontroller.go:278-329 | the whole new state of one sync with a budget of API calls equals the driven transition system |
| CertSigner.Controller.SyncAllMasterCertificates | pkg/operator/etcdcertsigner/etcdcertsignercontroller.go:331-363 | from the values read at the start to the end of the sync |
| CertSigner.Controller.EnsureBundles | pkg/operator/etcdcertsigner/etcdcertsignercontroller.go:458-527 | both bundles, the aggregate and, behind the gate, the leaves |
| ScalingSafety.RemovalKeepsQuorum | pkg/operator/clustermemberremovalcontroller/clustermemberremovalcontroller.go:108-187 | a removal sync whose calls succeed keeps a healthy majority of voters; it loses at most one healthy voter, and only when no unhealthy member is left and the desired number of voters remains |
| ScalingSafety.ScaleDownKeepsMajority | pkg/operator/clustermemberremovalcontroller/clustermemberremovalcontroller.go:188-324 | the scale-down stage alone keeps the majority and removes a voter exactly when its checks pass |
| ScalingEffect.ScaleDownIsExact | pkg/operator/clustermemberremovalcontroller/clustermemberremovalcontroller.go:188-324 | without failing calls a voter leaves if and only if one is on a departing machine, voters are at least the desired number, healthy voters at least half of it plus one, and either all members are healthy and voters exceed it, or an unhealthy voter is departing; unhealthy ones first |
| ScalingEffect.RemovalDoes | pkg/operator/clustermemberremovalcontroller/clustermemberremovalcontroller.go:108-187 | a whole removal sync on the stored resources: nothing behind the gate; otherwise unhealthy members without machine and node, learners on departing machines, and at most one voter go, and nobody else |
| ScalingSafety.FailingRemovalIsExact | pkg/operator/clustermemberremovalcontroller/clustermemberremovalcontroller.go:154-184 | whatever removal calls fail, a whole removal sync keeps the majority if and only if its gate is shut or the state is not at risk (scale-down guard open, an unhealthy member, a healthy departing voter, and no voter to spare) |
| ScalingSafety.RiskIsReal | pkg/operator/clustermemberremovalcontroller/clustermemberremovalcontroller.go:305-323 | one whole removal sync from a consistent state with a healthy majority: the removal of an unhealthy member fails, a healthy voter goes, and the majority with it |
| ScalingSafety.RiskWithout | pkg/operator/clustermemberremovalcontroller/clustermemberremovalcontroller.go:172-182 | what the orphan and learner stages remove adds no risk |
| ScalingSafety.RiskyIsConsistent | pkg/operator/clustermemberremovalcontroller/clustermemberremovalcontroller.go:154-163 | that state is well-formed, hooked, its gate is open and no member of it lacks a machine |
| ScalingSafety.NeverDrainedWhileMember | pkg/operator/machinedeletionhooks/machinedeletionhooks.go:112-171 | in every interleaving of the four controllers, users and the machine API, a machine that is drained hosts no member |
| ScalingSafety.RunHookInv | pkg/operator/clustermembercontroller/clustermembercontroller.go:154-264 | throughout every run a machine that hosts a member carries the etcd deletion hook |
| ScalingSafety.NextHookInv | pkg/operator/machinedeletionhooks/machinedeletionhooks.go:86-171 | every single event keeps that |
| ScalingSafety.HookSyncKeepsForeign | pkg/operator/machinedeletionhooks/machinedeletionhooks.go:281-307 | adding, repairing and removing the hook leaves every hook of another name in place and in order |
| ScalingEffect.HookSyncDoes | pkg/operator/machinedeletionhooks/machinedeletionhooks.go:93-171 | after a sync each machine not being deleted has the hook unless its update failed, one that had it unchanged, another with it as the only entry of the name; a machine being deleted without a member has no entry of the name left unless its own or an earlier release failed |
| ScalingSafety.NextWellFormed | pkg/operator/ceohelpers/common.go:131-140 | addresses stay unique to machines and members over every event |
| ScalingSafety.EndpointsRewrittenBetweenScaleDowns | pkg/operator/clustermemberremovalcontroller/clustermemberremovalcontroller.go:154-163 | between two removal syncs that each scale down a voter lies a rewrite of the endpoints configmap |
| ScalingSafety.RunRetired | pkg/operator/clustermemberremovalcontroller/clustermemberremovalcontroller.go:565-585 | a removed voter's address keeps the removal gate shut until the configmap is rewritten |
| ScalingControllers.Operator.VotingMemberIPListSet | pkg/operator/ceohelpers/common.go:179-197 | the addresses of exactly the voters |
| ScalingControllers.Operator.MachinesWithHook | pkg/operator/ceohelpers/common.go:86-94 | exactly the machines with the hook |
| ScalingControllers.Operator.IndexMachinesByNodeInternalIP | pkg/operator/ceohelpers/common.go:131-140 | every address of the machines, mapped to a machine that has it |
| ScalingControllers.Operator.FilterMachinesPendingDeletion | pkg/operator/ceohelpers/common.go:108-116 | exactly the machines being deleted |
| ScalingControllers.Operator.FindMachineByNodeInternalIP | pkg/operator/ceohelpers/common.go:158-170 | a machine with the address, if there is one |
| ScalingControllers.Operator.GetMachineForMember | pkg/operator/clustermemberremovalcontroller/clustermemberremovalcontroller.go:437-464 | while a node has the member's address, the machine that refers to that node, or none; otherwise a machine with the address, or none |
| ScalingControllers.Operator.GetNodeForMember | pkg/operator/clustermemberremovalcontroller/clustermemberremovalcontroller.go:466-487 | a node with the member's address, if there is one |
| ScalingControllers.Operator.AttemptToRemoveMemberFor | pkg/operator/clustermemberremovalcontroller/clustermemberremovalcontroller.go:489-510 | removes one member on the machine, or nothing when there is none or the call fails |
| ScalingControllers.Operator.RemoveMemberWithoutMachine | pkg/operator/clustermemberremovalcontroller/clustermemberremovalcontroller.go:326-388 | exactly the unhealthy members without machine and node go, and a healthy one or a failed call stops the stage |
| ScalingControllers.Operator.AttemptToRemoveLearningMember | pkg/operator/clustermemberremovalcontroller/clustermemberremovalcontroller.go:390-435 | exactly the learners on departing machines go, except those whose removal fails |
| ScalingControllers.Operator.MachineFailureDomainCountByIndex | pkg/operator/clustermemberremovalcontroller/clustermemberremovalcontroller.go:553-563 | the number of machines per failure domain |
| ScalingControllers.Operator.SortByFailureDomain | pkg/operator/clustermemberremovalcontroller/clustermemberremovalcontroller.go:232-240 | a permutation with the largest failure domain first |
| ScalingControllers.Operator.AttemptToScaleDown | pkg/operator/clustermemberremovalcontroller/clustermemberremovalcontroller.go:188-324 | the relation of the scale-down stage, and without failures the victim's failure domain is not outnumbered by another departing one |
| ScalingControllers.Operator.ScaleDownCandidates | pkg/operator/clustermemberremovalcontroller/clustermemberremovalcontroller.go:188-304 | the stage goes on exactly when its guard holds, and then the machines to try are the departing voters' machines, unhealthy ones first |
| ScalingControllers.Operator.RemoveFirst | pkg/operator/clustermemberremovalcontroller/clustermemberremovalcontroller.go:305-323 | machines are tried in order until one removal succeeds |
| ScalingControllers.Operator.RemovalSync | pkg/operator/clustermemberremovalcontroller/clustermemberremovalcontroller.go:108-187 | one removal sync is the three stages behind the gate |
| ScalingControllers.Operator.ConfigMapMemberIPs | pkg/operator/ceohelpers/common.go:199-209 | the addresses in the configmap |
| ScalingControllers.Operator.GetEtcdPeerToAdd | pkg/operator/clustermembercontroller/clustermembercontroller.go:154-264 | a joinable node, or none exactly when no node is joinable |
| ScalingControllers.Operator.EnsureEtcdLearnerPromotion | pkg/operator/clustermembercontroller/clustermembercontroller.go:266-363 | exactly the promotable learners whose promotion call succeeds become voters, provided some node does not vote |
| ScalingControllers.Operator.MemberSync | pkg/operator/clustermembercontroller/clustermembercontroller.go:131-149 | one sync of the member controller once it is not skipped; with an unhealthy member nothing changes |
| ScalingEffect.MemberSyncDoes | pkg/operator/clustermembercontroller/clustermembercontroller.go:131-149 | a whole member sync on the stored resources: nothing with an unhealthy member; otherwise one node that may join becomes a learner, if there is one and the call succeeds, and exactly the ready learners on staying machines become voters while a node does not vote |
| ScalingHooks.HookController.AddDeletionHookToMasterMachines | pkg/operator/machinedeletionhooks/machinedeletionhooks.go:237-261 | every machine not being deleted gets the hook, a partial one is repaired; failed updates leave the machine and do not stop the loop |
| ScalingHooks.HookController.AttemptToDeleteMachineDeletionHook | pkg/operator/machinedeletionhooks/machinedeletionhooks.go:113-171 | exactly the departing machines without a member lose the hook, up to the first failed update |
| ScalingHooks.HookController.WithoutHook | pkg/operator/machinedeletionhooks/machinedeletionhooks.go:281-307 | the hooks of other names, in order |
| ScalingHooks.HookController.HasMachineDeletionHook | pkg/operator/machinedeletionhooks/machinedeletionhooks.go:263-279 | whether the hook is there complete, and whether partially |
| ScalingHooks.HookController.CurrentMemberIPs | pkg/operator/machinedeletionhooks/machinedeletionhooks.go:135-143 | the addresses of all members, learners too |
| ScalingHooks.HookController.HostsMember | pkg/operator/machinedeletionhooks/machinedeletionhooks.go:148-155 | whether some address of the machine is a member's |
| ScalingHooks.HookController.Sync | pkg/operator/machinedeletionhooks/machinedeletionhooks.go:93-100 | adding and removing hooks in one sync as the relation between the machines before and after |
| ScalingHooks.EndpointsController.SyncConfigMap | pkg/operator/etcdendpointscontroller/etcdendpointscontroller.go:117-154 | the configmap becomes exactly the voters' addresses; without voters or with a failing update it stays and an error is returned |
| PoolSafety.Conservation | pkg/etcdcli/etcdcli_pool.go:34-134 | for every interleaving of Get and Return: free tokens, idle clients and held tokens make twenty, the pool holds at most ten, giving a token back never drops it, and every open client is in exactly one place |
| PoolSafety.StepInv | pkg/etcdcli/etcdcli_pool.go:47-134 | every single step keeps that |
| PoolSafety.HandedOutIsChecked | pkg/etcdcli/etcdcli_pool.go:59-105 | a caller that has a client got it from its own latest Get, whose last act was a passed health check with the endpoints equal, up to order, to the ones that Get asked for |
| PoolSafety.SortDecides | pkg/etcdcli/etcdcli_pool.go:81-90 | comparing the two sorted lists is comparing the endpoints up to order |
| PoolSafety.OpenIsExact | pkg/etcdcli/etcdcli_pool.go:94-102 | open clients exceed twenty by exactly the clients being closed less free and constructing tokens, so the bound holds if and only if closing clients are no more than those |
| PoolSafety.TokenFits | pkg/etcdcli/etcdcli_pool.go:128-134 | a caller about to give a token back finds room for it |
| PoolLimits.OpenIsUnbounded | pkg/etcdcli/etcdcli_pool.go:93-102 | for every n a reachable state has n open clients, all being closed: the token is back before the client is closed |
| PoolLimits.WaitingSeesNoIdleClients | pkg/etcdcli/etcdcli_pool.go:59-68 | a caller waiting for a token gets one if and only if idle clients and held tokens are fewer than twenty; idle clients do not help it |
| PoolLimits.RejectedBesideIdleClients | pkg/etcdcli/etcdcli_pool.go:59-68 | a reachable state in which a caller can only time out while ten clients lie idle |
| ClientPool.DriveIsRun | pkg/etcdcli/etcdcli_pool.go:47-108 | an undisturbed Get is a run of the transition system |
| ClientPool.EtcdClientPool.constructor | pkg/etcdcli/etcdcli_pool.go:164-184 | twenty tokens, no clients |
| ClientPool.EtcdClientPool.ReturnClosedClient | pkg/etcdcli/etcdcli_pool.go:128-134 | a token is added unless the channel is full |
| ClientPool.EtcdClientPool.Get | pkg/etcdcli/etcdcli_pool.go:47-108 | an undisturbed Get fails exactly when the endpoints are unknown, there is neither an idle client nor a token, or none of three attempts ends with a healthy client; otherwise it answers the client of the first attempt that does, with the stated clients and tokens left and the endpoints asked for |
| ClientPool.EtcdClientPool.Attempt | pkg/etcdcli/etcdcli_pool.go:54-105 | one round of the loop: the idle client or a new one if healthy, the clients and tokens left, and whether the loop goes on |
| ClientPool.EtcdClientPool.Acquire | pkg/etcdcli/etcdcli_pool.go:54-79 | an idle client or a new one, the two ways to fail, and the state after |
| ClientPool.EtcdClientPool.TakeToken | pkg/etcdcli/etcdcli_pool.go:63-68 | a token is taken, or the wait times out |
| ClientPool.EtcdClientPool.CreateClient | pkg/etcdcli/etcdcli_pool.go:70-78 | a new client, or the token goes back and the loop goes on |
| ClientPool.EtcdClientPool.Check | pkg/etcdcli/etcdcli_pool.go:81-104 | endpoints set, health checked; an unhealthy client's token goes back and it is closed |
| ClientPool.EtcdClientPool.SetEndpoints | pkg/etcdcli/etcdcli_pool.go:81-90 | endpoints are replaced when they differ up to order |
| ClientPool.EtcdClientPool.Return | pkg/etcdcli/etcdcli_pool.go:112-126 | the client goes to the pool, or its token back and it is closed when the pool is full |
| RetrySchedule.ClosedForm | pkg/tnf/pkg/jobs/lifecycle.go:321-378 | after k syncs that observe a failed or stopped job the retry state is slot k modulo nodes times attempts, and the k-th sync reports the maximum exactly when k is a multiple of that |
| RetrySchedule.SlotOfSyncs | pkg/tnf/pkg/jobs/lifecycle.go:340-372 | that slot is node index k mod n and attempt 1 + (k div n) mod M |
| RetrySchedule.AdvanceSlot | pkg/tnf/pkg/jobs/lifecycle.go:345-372 | one observed failure goes to the next slot, and from the last back to the first with the error |
| RetrySafety.ConfigureNeverFails | pkg/tnf/pkg/jobs/lifecycle.go:385-423 | over all runs of syncs, resets, restarts and outside changes the node index names a target node, so the index error cannot occur |
| RetrySafety.SyncInRange | pkg/tnf/pkg/jobs/lifecycle.go:184-382 | every sync keeps index and attempt in range |
| RetrySchedule.JobsInOrder | pkg/tnf/pkg/jobs/batch.go:58-114 | with at least three slots, all jobs failing and no other disturbance, the j-th job created is that of slot j in the first cycle, and later cycles run from slot 1 to the last: slot 0 is not tried again |
| RetrySchedule.SlotZeroOnce | pkg/tnf/pkg/jobs/lifecycle.go:350-377 | only the very first job uses the first node's first attempt |
| RetrySchedule.SingleSlotIsStuck | pkg/tnf/pkg/jobs/lifecycle.go:374-377 | with one slot the failed job is never deleted or replaced: each sync reports the maximum before the job is looked at |
| RetrySchedule.TwoSlotsWaitForRecovery | pkg/tnf/pkg/jobs/jobcontroller.go:260-287 | with two slots the failed last job is kept after the error until it has been failed for ten minutes, and only then deleted |
| RetrySchedule.StoppedUsesUpSlots | pkg/tnf/pkg/jobs/lifecycle.go:338-378 | a job that stopped without being marked failed is kept while every sync uses up a slot, so a single job can bring about the max-retries error |
| RetrySchedule.TimeoutIsExact | pkg/tnf/pkg/jobs/lifecycle.go:95-127 | a blocked job times out exactly when it has been blocked without a break for more than ten minutes |
| RetrySafety.StickyIsExact | pkg/tnf/pkg/jobs/jobcontroller.go:208-233 | one sync loses the max-retries text if and only if it applies and records a complete job, or the operator is unmanaged, or reading its state fails with another message |
| RetrySafety.StickyRun | pkg/tnf/pkg/jobs/jobcontroller.go:235-372 | along every run of managed syncs, with anything happening between them, the text stays until a sync completes |
| RetrySafety.CompletesObserved | pkg/tnf/pkg/jobs/jobcontroller.go:364-371 | a sync that completes found the job complete when it began |
| RetrySafety.PreservedContains | pkg/tnf/pkg/jobs/jobcontroller.go:425-437 | whatever error or reason is reported, a preserved message contains the text |
| RetryModel.FailedTime | pkg/tnf/pkg/jobs/jobcontroller.go:262-270 | a failed job has a failure time |
| RetryEffect.DriftRestarts | pkg/tnf/pkg/jobs/lifecycle.go:270-320 | changed nodes or configuration: the old job is deleted, the state starts over with the current nodes and configuration, and the same sync creates the job of attempt 1 on the first of them |
| RetryEffect.DriftCallFails | pkg/tnf/pkg/jobs/lifecycle.go:302-311 | on drift with a failing look-up or deletion of the job, job and retry state stay and the sync has an error |
| RetryEffect.FirstSync | pkg/tnf/pkg/jobs/lifecycle.go:204-253 | without a retry state the first sync makes one and creates the job, keeps one that has not failed and differs in retry fields alone, and deletes one whose other fields differ |
| RetryEffect.NoNodesNoState | pkg/tnf/pkg/jobs/lifecycle.go:185-253 | without nodes, configuration or ready affected nodes no state is made and no job touched |
| RetryEffect.ReadinessHoldsBackTheFirstOnly | pkg/tnf/pkg/jobs/lifecycle.go:185-201 | while affected nodes are not ready a missing job is created if and only if there is a retry state and the block has lasted no more than ten minutes |
| RetryEffect.HealthyJobStays | pkg/tnf/pkg/jobs/lifecycle.go:322-340 | a job that is complete or has not stopped stays, with the state, unless the rest of its spec changed, and is deleted then |
| RetryEffect.HealthyJobIsReported | pkg/tnf/pkg/jobs/jobcontroller.go:330-372 | a running job is an error exactly when the maximum of retries was reported before, a complete one never; its generation is recorded |
| RetryEffect.MissingJobIsCreated | pkg/tnf/pkg/jobs/lifecycle.go:322-330 | a missing job is created for the node and attempt of the state, unless the call fails |
| RetryEffect.StoppedJobMovesOn | pkg/tnf/pkg/jobs/lifecycle.go:338-379 | a failed or stopped job moves the state to the next node, after the last to the next attempt, and after the last attempt back to the first, with an error and the job kept |
| RetryEffect.FailedJobIsDeleted | pkg/tnf/pkg/jobs/batch.go:64-114 | a failed job is deleted as the state moves on within its rounds, unless it is the job wanted next as recorded and has been failed for no more than ten minutes |
| RetryEffect.StoppedJobIsKept | pkg/tnf/pkg/jobs/batch.go:96-101 | a stopped job that is not marked failed is kept while only retry fields differ |
| RetryEffect.StopsAreExact | pkg/tnf/pkg/jobs/utils.go:105-155 | when a job is complete, failed and stopped, in terms of its first condition of each type and its counts |
| RetryEffect.UnmanagedDoesNothing | pkg/tnf/pkg/jobs/jobcontroller.go:208-233 | an operator that is not managed, or whose state cannot be read, changes neither job nor state |
| RetryController.IsConditionTrue | pkg/tnf/pkg/jobs/utils.go:144-155 | the status of the first condition of that type |
| RetryController.FindFailedTime | pkg/tnf/pkg/jobs/jobcontroller.go:262-270 | the time of the first true failure condition |
| RetryController.StopsOf | pkg/tnf/pkg/jobs/utils.go:105-142 | complete, failed and stopped as the predicates say |
| RetryController.StringSlicesEqual | pkg/tnf/pkg/tools/nodes.go:59-69 | elementwise equality is equality |
| RetryController.ManageTimedBlockedCondition | pkg/tnf/pkg/jobs/lifecycle.go:95-127 | the start of the block is recorded once, cleared when it ends, and other jobs are untouched |
| RetryController.JobControllers.SyncMultiNodeJobState | pkg/tnf/pkg/jobs/lifecycle.go:184-382 | the whole new state and error of the job, and no change to any other job |
| RetryController.JobControllers.SyncSchedulable | pkg/tnf/pkg/jobs/lifecycle.go:203-287 | initial state, missing nodes, drift or failure |
| RetryController.JobControllers.SyncDrift | pkg/tnf/pkg/jobs/lifecycle.go:289-319 | the job goes and the state starts over, unless a call fails |
| RetryController.JobControllers.SyncFailure | pkg/tnf/pkg/jobs/lifecycle.go:321-381 | a failed or stopped job advances the state |
| RetryController.JobControllers.ResetJobRetryState | pkg/tnf/pkg/jobs/lifecycle.go:426-431 | the retry state is forgotten |
| RetryController.JobControllers.GetJob | pkg/tnf/pkg/jobs/jobcontroller.go:390-404 | the hook's answer: an error, a skip or the job to apply |
| RetryController.JobControllers.ConfigureMultiNodeJob | pkg/tnf/pkg/jobs/lifecycle.go:385-423 | an index error exactly when the index is outside the target nodes; otherwise the job runs on the target node at the index and carries attempt and index |
| RetryController.JobControllers.ApplyJob | pkg/tnf/pkg/jobs/batch.go:64-114 | created, kept or deleted, with drift in retry fields alone ignored unless the job failed |
| RetryController.JobControllers.IsDriftOnlyInRetryFields | pkg/tnf/pkg/jobs/batch.go:127-156 | true exactly when everything else in the spec is equal |
| RetryController.JobControllers.PreserveMaxRetriesOnReturn | pkg/tnf/pkg/jobs/jobcontroller.go:408-437 | the error, wrapped when the stored condition carries the text |
| RetryController.JobControllers.Conclude | pkg/tnf/pkg/jobs/jobcontroller.go:260-371 | stuck-job recovery, status update and the answer for a failed, running or complete job |
| RetryController.JobControllers.SyncManaged | pkg/tnf/pkg/jobs/jobcontroller.go:235-372 | the whole new state and error of a managed sync |
| RetryController.JobControllers.Sync | pkg/tnf/pkg/jobs/jobcontroller.go:208-233 | a sync and the Degraded condition it leads to; other jobs are untouched |
| DefragSafety.LeaderLast | pkg/operator/defragcontroller/defragcontroller.go:163-261 | a member that claims leadership is moved away from or defragmented only when all remaining targets claim it, so with one leader at most when it is all that remains; otherwise the target is a most fragmented follower |
| DefragSafety.NoMemberTwice | pkg/operator/defragcontroller/defragcontroller.go:163-280 | within a cycle no member is defragmented twice, each success was on the first list, and successes plus what remains are no more than that list |
| DefragSafety.SyncTargets | pkg/operator/defragcontroller/defragcontroller.go:163-204 | the target list stays free of duplicates, never gains within a cycle, and its head is a started voter when used |
| DefragSafety.DegradedIsExact | pkg/operator/defragcontroller/defragcontroller.go:260-280 | while status updates succeed, Degraded is true if and only if the last three or more attempts all failed |
| DefragSafety.ThresholdIsExact | pkg/operator/defragcontroller/defragcontroller.go:332-344 | rounding makes a member fragmented exactly from 100 MiB and 44.995 percent on |
| DefragEffect.SyncDoes | pkg/operator/defragcontroller/defragcontroller.go:147-280 | a sync of a healthy cluster acts if and only if a member of the cycle still exceeds the threshold, and then on one of these: leadership moves if it claims to lead and another started voter accepts it, otherwise it is defragmented; targets, failure count and Degraded follow |
| DefragEffect.HeldBack | pkg/operator/defragcontroller/defragcontroller.go:94-191 | a disabled controller, an unhealthy cluster or a status that fails defragments nobody and leaves counters and Degraded alone |
| DefragEffect.NewCycleCollects | pkg/operator/defragcontroller/defragcontroller.go:163-191 | a new cycle collects exactly the started voters of at least 100 MiB with 44.995 percent or more unused |
| DefragEffect.MostFragmentedFirst | pkg/operator/defragcontroller/defragcontroller.go:217-258 | no other target that does not claim to lead is more fragmented than the one acted on by more than a hundredth of a percent, and leadership goes to a member not more fragmented by that than any other that takes it |
| DefragController.DefragController.Sync | pkg/operator/defragcontroller/defragcontroller.go:94-105 | a disabled controller changes nothing |
| DefragController.DefragController.RunDefrag | pkg/operator/defragcontroller/defragcontroller.go:147-280 | one sync as the relation between the fields before and after |
| DefragController.DefragController.Statuses | pkg/operator/defragcontroller/defragcontroller.go:163-191 | statuses of the started voters up to the first failure, and a new cycle's targets |
| DefragController.DefragController.DropTargets | pkg/operator/defragcontroller/defragcontroller.go:193-204 | targets that are gone or no longer fragmented leave, in order |
| DefragController.DefragController.SortTargets | pkg/operator/defragcontroller/defragcontroller.go:217-226 | a permutation with followers first and the most fragmented first among them |
| DefragController.DefragController.Defragment | pkg/operator/defragcontroller/defragcontroller.go:228-280 | leadership is moved, or the first target is defragmented and the counters follow |
| DefragController.DefragController.MoveLeader | pkg/operator/defragcontroller/defragcontroller.go:235-258 | leadership goes to the least fragmented follower that takes it, or to none exactly when all refuse |
| DefragController.DefragController.SortedFollowers | pkg/operator/defragcontroller/defragcontroller.go:236-244 | exactly the other members, least fragmented first |
| BackupSafety.BackupsAreSafe | pkg/operator/backupcontroller/backupcontroller.go:77-172 | in every run, syncs cut off after any call included: at most one unfinished job, processed jobs are finished, no backup gets two jobs, no backup has two true conditions |
| BackupSafety.EventInv | pkg/operator/backupcontroller/backupcontroller.go:77-172 | every event keeps the invariant behind that |
| BackupSafety.WritesSafe | pkg/operator/backupcontroller/backupcontroller.go:99-169 | every write of a sync is safe in the state it meets |
| BackupSafety.ProcessedIsFinal | pkg/operator/backupcontroller/backupcontroller.go:100-133 | no sync changes a processed backup again |
| BackupSafety.OutcomeLostExactly | pkg/operator/backupcontroller/backupcontroller.go:310-384 | a sync that reconciles a finished job leaves its backup processed without the outcome if and only if it is cut off after its first write, and nothing later makes up for it |
| BackupEffect.SyncDoes | pkg/operator/backupcontroller/backupcontroller.go:77-172 | a complete sync without a running job closes the finished job with its outcome or deletes it, and then the first other open backup by name gets a job and is pending while the rest are skipped, or fails without its claim while the rest wait |
| BackupEffect.RunningHoldsBack | pkg/operator/backupcontroller/backupcontroller.go:99-123 | a sync with a running job changes nothing |
| BackupEffect.EndingIsFirst | pkg/operator/backupcontroller/backupcontroller.go:299-323 | a job ends as complete or failed by its first true condition of these types |
| BackupController.SortBackups | pkg/operator/backupcontroller/backupcontroller.go:140-143 | the names in increasing order |
| BackupController.JobState | pkg/operator/backupcontroller/backupcontroller.go:299-323 | the first true condition that ends the job |
| BackupController.AllFalse | pkg/operator/backupcontroller/backupcontroller.go:196-200 | every condition false, in order |
| BackupController.Controller.MarkProcessed | pkg/operator/backupcontroller/backupcontroller.go:220-227 | the backup gets its label, or the sync is cut off |
| BackupController.Controller.UpdateStatus | pkg/operator/backupcontroller/backupcontroller.go:353-371 | all conditions false and the new one true, or the sync is cut off |
| BackupController.Controller.ReconcileJobStatus | pkg/operator/backupcontroller/backupcontroller.go:310-384 | label, outcome and job label, in this order, up to the cut |
| BackupController.Controller.MarkBackup | pkg/operator/backupcontroller/backupcontroller.go:196-266 | condition, then label, up to the cut |
| BackupController.Controller.CreateBackupJob | pkg/operator/backupcontroller/backupcontroller.go:386-472 | the job, then the pending condition, up to the cut |
| BackupController.Controller.SkipBackups | pkg/operator/backupcontroller/backupcontroller.go:161-169 | the other backups in order, up to the cut |
| BackupController.Controller.RunFirst | pkg/operator/backupcontroller/backupcontroller.go:140-169 | the first backup by name runs, or fails without its claim |
| BackupController.Controller.CurrentJobs | pkg/operator/backupcontroller/backupcontroller.go:268-297 | the unprocessed jobs by backup, and whether one is running |
| BackupController.Controller.ReconcileBackups | pkg/operator/backupcontroller/backupcontroller.go:109-123 | the open backup of the finished job is reconciled, the others are to be run |
| BackupController.Controller.RemoveDangling | pkg/operator/backupcontroller/backupcontroller.go:125-133 | jobs left over are deleted |
| BackupController.Controller.Sync | pkg/operator/backupcontroller/backupcontroller.go:77-172 | a sync with a budget of successful calls does exactly that many of its writes, in order |
| BackupPruning.KeptBySizeIsLongest | pkg/cmd/prune-backups/prune.go:120-153 | what pruning by size keeps is closed under newer folders, within the limit, and contains every other such set |
| BackupPruning.KeptByNumberIsNewest | pkg/cmd/prune-backups/prune.go:155-178 | what pruning by number keeps is closed under newer folders and as many as asked for, or all |
| BackupPruning.NewerIsKept | pkg/cmd/prune-backups/prune.go:233-240 | whatever is kept, later folders, and of the same time those of a greater name, are kept too |
| BackupPruning.CutOffIsExact | pkg/cmd/prune-backups/prune.go:130-130 | the 64-bit limit agrees with the configured one on every listing if and only if it is below 2^33 GiB |
| BackupPruning.Sort | pkg/cmd/prune-backups/prune.go:229-246 | sorted in place, newest first, a permutation |
| BackupPruning.Swap | pkg/cmd/prune-backups/prune.go:242-246 | two folders change places |
| BackupPruning.BackupDirectory.RetainBySizeGb | pkg/cmd/prune-backups/prune.go:120-153 | for every order of the listing the folders kept are the same; success exactly when everything else could be deleted |
| BackupPruning.BackupDirectory.BeyondSize | pkg/cmd/prune-backups/prune.go:132-141 | exactly the folders whose newest-first total exceeds the limit |
| BackupPruning.BackupDirectory.RetainByNumber | pkg/cmd/prune-backups/prune.go:155-178 | for every order of the listing the newest folders stay |
| BackupPruning.BackupDirectory.RemoveAll | pkg/cmd/prune-backups/prune.go:143-149 | all are deleted, or an error and only some |
| Ipv4.AcceptsExactly | pkg/dnshelpers/util.go:174-190 | accepted are exactly four non-empty decimal octets of at most 255 with dots between |
| Ipv4.ResultIsCanonical | pkg/dnshelpers/util.go:169-190 | the result is IPv4address of section 3.2.2 of RFC 3986, those are exactly the fixed points, and normalizing twice is normalizing once |
| Ipv4.EqualExactly | pkg/dnshelpers/util.go:145-152 | two accepted addresses have equal results if and only if their four octets have equal values |
| Ipv4.CanonicalExactly | pkg/dnshelpers/util.go:153-167 | on strings of digits and dots canonicalizing normalizes what can be normalized, changes nothing else, and is idempotent |
| Ipv4.FormatIsDecOctet | pkg/dnshelpers/util.go:183-183 | a formatted octet is a dec-octet without leading zeros |
| Ipv4.ParseUint8 | pkg/dnshelpers/util.go:177-182 | the value of a valid octet, an error for everything else |
| Ipv4.SplitDots | pkg/dnshelpers/util.go:176-176 | the pieces between the dots |
| Ipv4.NormalizeIPv4 | pkg/dnshelpers/util.go:174-190 | the normalized address or an error |
| MemberCache.AnswersAreRecent | pkg/etcdcli/cached_members.go:34-135 | every answer is the stated filter of one snapshot, which this call took or which is no older than the interval |
| MemberCache.HealthPartitions | pkg/etcdcli/health.go:150-170 | healthy and unhealthy members are together all members, each once; likewise for voters |
| MemberCache.SameSnapshot | pkg/etcdcli/cached_members.go:38-50 | between two snapshots all answers come from the same one |
| MemberCache.FiltersAreExact | pkg/etcdcli/health.go:150-170 | membership in each of the six lists by health and learner flag |
| MemberCache.YoungIsKept | pkg/etcdcli/cached_members.go:34-50 | no older than the interval the cache answers from the members it has |
| MemberCache.OldIsReplaced | pkg/etcdcli/cached_members.go:34-50 | after the interval every call fetches a snapshot, or fails and leaves the cache |
| MemberCache.FailedRefreshKeeps | pkg/etcdcli/cached_members.go:38-43 | a call whose refresh failed leaves no trace: after any further calls the cache is what it would be without it |
| MemberCache.CachedMembers.constructor | pkg/etcdcli/cached_members.go:25-32 | a new cache is as old as the epoch |
| MemberCache.CachedMembers.Refresh | pkg/etcdcli/cached_members.go:34-50 | a snapshot replaces the members when the cache is too old and the fetch succeeds |
| MemberCache.CachedMembers.ConvertToMemberList | pkg/etcdcli/cached_members.go:52-58 | all members in order |
| MemberCache.CachedMembers.GetMembers | pkg/etcdcli/health.go:150-170 | the members of one health in order |
| MemberCache.CachedMembers.FilterVotingMembers | pkg/etcdcli/cached_members.go:70-80 | the voters in order |
| MemberCache.CachedMembers.Ask | pkg/etcdcli/cached_members.go:60-120 | the six list methods: new state and answer |
| QuorumSafety.ToleranceIsExact | pkg/etcdcli/health.go:226-270 | fault tolerant if and only if there are members and whichever one is lost, the healthy ones left are a quorum of all |
| QuorumSafety.SafeMeansQuorum | pkg/operator/ceohelpers/bootstrap.go:118-195 | with stable revisions, a topology that is neither single nor dual, and no learners, scaling is safe if and only if the voters keep a healthy quorum after any single loss |
| QuorumSafety.SafeIsExact | pkg/operator/ceohelpers/bootstrap.go:89-195 | the decision for every revision state, override, topology and health: an unset or rolling revision, the override, a single replica, tolerance of every single loss, or two healthy members of a two-node topology; errors of the inputs included |
| QuorumSafety.LearnersAreExact | pkg/operator/ceohelpers/bootstrap.go:118-195 | given the numbers of healthy and unhealthy learners, under stable revisions and a topology that is neither single nor dual, safe to scale implies that the voters survive any single loss, for all memberships with those numbers, if and only if the healthy learners are not more than the unhealthy ones |
| QuorumSafety.ToleranceCoversVoters | pkg/etcdcli/health.go:226-253 | with no more healthy than unhealthy learners, fault tolerance of all members covers the voters |
| QuorumSafety.LearnersHideTheLoss | pkg/etcdcli/health.go:226-253 | for every larger number of healthy learners, a fault-tolerant membership of which one loss leaves no quorum of voters |
| QuorumSafety.IsQuorumFaultTolerant | pkg/etcdcli/health.go:226-253 | the meaning of the answer: every single loss leaves a healthy quorum |
| QuorumSafety.IsQuorumFaultTolerantErr | pkg/etcdcli/health.go:255-270 | no error exactly when fault tolerant, the length error exactly without members, and the error of an intolerant size exactly for one or two |
| QuorumSafety.CountHealthy | pkg/etcdcli/health.go:194-203 | the number of healthy members |
| QuorumSafety.IsRevisionStable | pkg/operator/ceohelpers/bootstrap.go:220-237 | stable exactly when there is a revision and every node is at it |
| QuorumSafety.CheckSafeToScaleCluster | pkg/operator/ceohelpers/bootstrap.go:137-195 | safe exactly while a revision rolls out, under the unsafe strategy, when every single loss leaves a healthy quorum, or with two healthy members under a two-node strategy |

## Left out

- Bootstrap, a missing aggregated bundle, a configured skip of the rollout: these paths of the signer controller bypass the gate by design.
- X.509 parsing, signing, encoding and the refresh schedule of certificates: a signer is an identity with an expiry, renewal is an input, and a leaf is presented only strictly before its expiry.
- Conflicting writers of the signer's resources and a malformed rollout annotation; the list of nodes and the list of node statuses are one list.
- CertSigner.Controller.Sync: the Degraded condition written after the sync is not modelled; an error and a cut are the same.
- RotationSafety.GateKeepsTrust: speaks of leaf certificates that have not expired, because signers leave the bundles when they expire.
- RotationProgress.RotationCompletes: shows one complete rotation without interference, not that the environment lets it happen.
- Each sync of the scaling controllers is one step over current state; stale listers, a machine API that is not functional, two-replica topologies and the etcd-bootstrap member are not part of this model.
- Errors of reading addresses (an empty or malformed peer URL, a node without internal address) and IPv6 text forms; addresses are abstract outside `ipv4`.
- ScalingSafety.RemovalKeepsQuorum: assumes that removal calls succeed, because with failing calls the majority is kept exactly as `FailingRemovalIsExact` says.
- ScalingSafety.NeverDrainedWhileMember: starts from machines that carry the hook while they host a member, and takes machine addresses to be unique and fixed, at most one member per machine, and hooks to be changed by the controller alone.
- ScalingSafety.EndpointsRewrittenBetweenScaleDowns: rests on the same assumptions, and on new machines not reusing an address of a member or of the configmap.
- ScalingControllers.Operator.RemovalSync: requires those address assumptions, which every run keeps and etcd enforces for members.
- ScalingControllers.Operator.RemoveMemberWithoutMachine: requires them, because of two members at one address only one would go.
- ScalingControllers.Operator.AttemptToRemoveLearningMember: requires them, because of two members on one machine only one is tried.
- ScalingControllers.Operator.AttemptToScaleDown: requires them, for the same reason.
- ScalingControllers.Operator.ScaleDownCandidates: requires them, because a machine is found through one of its addresses.
- ScalingControllers.Operator.MemberSync: does not model the skip in two-replica topologies.
- ScalingHooks.HookController.Sync: does not model the deletion of quorum guard pods.
- ScalingHooks.EndpointsController.SyncConfigMap: does not model the bootstrap annotation and the etcd-bootstrap member.
- Event throttling.
- etcd itself: Raft, learner catch-up, strict reconfiguration checks; health and the outcome of each call are inputs.
- ClientPool.EtcdClientPool.Get: the class runs one call at a time; the interleavings of many are those of the transition system. It requires no more tokens in the channel than its capacity, which `PoolSafety.Conservation` proves of every run.
- PoolSafety.Conservation: assumes that a lent client is returned once, because a second Return would put one client in two places.
- Sleeps, jitter and the length of the wait for a token.
- Hashing of job specs and what the API server fills into them: a stored spec is compared as it was sent.
- RetrySchedule.JobsInOrder: assumes that no call fails and no sync sees a job stopped but not failed, because each of these skips slots.
- A job deletion that times out after it took effect; the texts of errors beyond what the Degraded condition is searched for; the texts of the conditions.
- RetryController.JobControllers.Conclude: does not model the Available and Progressing conditions, which nothing reads back.
- RetryController.JobControllers.Sync: does not model the deletion branch, which a removable operator alone reaches.
- Start and restart of job controllers, and their locks.
- Floating point: fragmentation is exact, in hundredths of a percent, with halves rounded away from zero.
- DefragSafety.DegradedIsExact: assumes successful status updates, because a failed one leaves the old condition until the next attempt; `Sync` models both.
- DefragSafety.LeaderLast: assumes a target list without duplicates, which `SyncTargets` keeps, and distinct member ids.
- The contents of backup jobs, owner references and feature gates; changes of a backup by others during a sync.
- BackupSafety.BackupsAreSafe: assumes that nobody else deletes or unlabels jobs or reuses the name of a deleted backup.
- BackupController.Controller.Sync: requires that at most one job is unprocessed and that the generated job name is new; the first is kept by every run.
- BackupSafety.OutcomeLostExactly: speaks of the current job of states that runs reach.
- File system walks and modification times: a folder has a size and a time; sizes add up to less than 2^63.
- Ipv4.CanonicalExactly: speaks of strings of digits and dots; of the standard library's address parser only its answer on those is assumed, that it accepts exactly the dotted quads without leading zeros.
- Locks of the member cache: calls follow one another; the concurrent health checks behind a snapshot, raft terms and metrics.
- Rendering, backup and restore files, pacemaker commands, console notifications, TLS environment variables and the command line.
