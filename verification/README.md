# PyIAMKit: a verified model of its authorization runtime and its hardest components

This project models, in Dafny, the parts of PyIAMKit in which many pieces of state have to agree, and proves
what the program promises of them.

* **The distributed authorization runtime.** `Authorization` is the default-deny engine as a function of what the
  repositories hold; `RoleGraph`, `RoleHierarchy` and `HierarchyResolver` are the Role graph and its three
  depth-first searches (the class keeps the shared buffers the program mutates), and `HierarchyFaults` says which
  error a search raises and in which order Roles are resolved; `Governance` holds constraints and separation of
  duties. `AuthorizationTheorems` reads an ALLOW declaratively, and `Denials` every denial with its reason.
  `SecurityState`, `DecisionCache`, `Revocation` and `Mutations` are the version store, the stamped cache, the marker
  registry and the event sink; `DenyFast` says which events leave which marker and which version they move.
  `Writes` says which part of the repositories a decision can depend on. `TornEngine` is the engine read by read:
  its decision as a function of what each read found, every read made from a state of its own. `Coherence` is the
  protocol as a step relation (save, bump, read the stamp, look in the cache, make one read of the repositories,
  decide by what was read, read the stamp again, check the registry, store, start over at a later instant), with any
  number of calls and mutators interleaved; `SoloCalls` is what a call comes to when it is alone. `Provenance` says what
  an answer rests on in any run at all, mutations still to be announced included. `Services` and `ServiceObjects` are
  the application services, as one function of the repositories per call and as classes that load a copy, change it,
  save it and then publish; `ServiceTheorems` says what each call demands and what it leaves. `AuthorizationRuntime` and
  `RuntimeObjects` are the runtime run between whole service calls, as a class with its retry loop. `Deployments`
  wires the services and the runtime together and runs them for as long as one likes.
* **Where coherence ends.** The operations guide says an uncertain state may not manufacture a trusted stale ALLOW
  (docs/guides/distributed-operations.md:272). `SilentSaves` gives a run in which the code does: a service that
  finds nothing to change (src/pyiamkit/authorization/domain/role.py:178-204, 239-263), or that updates a profile,
  saves the copy it loaded and bumps nothing, so a change made between the load and the save is undone under an
  unmoved stamp. `KeptAllows` says which such saves are safe: the copy of a Role that is disabled, or an active copy
  with the permissions and parents of the stored one; a lifecycle over one that is not active, or an active one.
  `CacheCoherence` holds of every run whose eventless saves are safe, and `SilentSafety` shows that nothing less
  will do: a copy that is not safe spoils some run, calls in flight included.
* **The Redis adapters.** `DecimalText`, `RedisRegistry`, `RedisProjection` and `InvalidationSubscriber`: the two
  scripts, step by step, held against the process-local registry and the version store; and the subscriber with
  its bounded memory.
* **The SCIM filter.** `FilterSplitter` and `ScimFilter`: the one-pass splitter, characterised as the only reading
  of the text, and the parser as the inverse of printing. `FilterTheorems`: which texts are literals, clauses and
  filters, and of what.
* **SCIM provisioning.** `ScimUsers`, `ScimProvisioning`, `ScimRuns` and `ScimService`: POST, PUT, PATCH and DELETE,
  kept in step with the tenant membership, with entity tags and the filter lookup. `ScimOutcomes`: exactly when each
  succeeds and what it stores, field by field.
* **One-time codes and step-up.** `Totp`, `Mfa` and `MfaService`; `MfaTheorems` says which codes are accepted, when a
  call succeeds and what it leaves.
* **The outbox.** `Outbox` and `OutboxPublisher`.

Conventions. Identifiers are natural numbers standing for UUIDs in the order of their text; instants are integers
(microseconds) unless a clock object says otherwise. Exceptions are error values. A class method is proved equal to
a specification function, and the theorems are about those functions. `var x := *` stands for what the environment
decides: whether the registry, the Redis server or the transport can be reached, what the clock shows, when other
sessions come and go.

`dafny verify dfyconfig.toml` checks everything.

## Model

| member | source | states |
|---|---|---|
| Coherence.CacheCoherence | src/pyiamkit/operations/runtime.py:56-115 | in every interleaving of saves, bumps, safe eventless saves, evictions and calls with all their reads, whenever no covering mutation is between its save and its bump, every unexpired entry under the current stamp is exactly the ALLOW the engine would make now |
| Coherence.InvariantStep | src/pyiamkit/operations/runtime.py:56-119 | every step of the protocol, by mutators or by calls at any point, keeps entries and threads justified: what was read so far still leads to the current ALLOW whenever the stamp has not moved |
| Coherence.ServedDecisionIsCurrent | src/pyiamkit/operations/runtime.py:76-92 | a hit whose stamp is confirmed answers with the engine's ALLOW at an instant within the call |
| Coherence.EvaluatedDecisionIsCurrent | src/pyiamkit/operations/runtime.py:94-98 | an evaluation whose stamp did not move, however its reads were torn across saves, has an ALLOW only if the engine makes that ALLOW over the repositories at the second read; where eventless saves write back what they read, this is true of denials too |
| TornEngine.TornIsCurrent | src/pyiamkit/authorization/engine.py:89-210 | an ALLOW computed from reads of different repository states is the ALLOW of a state that keeps what each of them held; if they all agree with it, so is every decision |
| TornEngine.Undisturbed | src/pyiamkit/authorization/engine.py:89-210 | when nothing is saved meanwhile, reading read by read makes the decision of the whole engine |
| Provenance.EvaluatedRests | src/pyiamkit/operations/runtime.py:94-98 | in any run at all, mutations pending or not, a decision whose stamp did not move is made of reads from states that the stamp already covered: none is older than the first save still unannounced |
| Provenance.ServedRests | src/pyiamkit/operations/runtime.py:74-92 | in any run at all a hit is an ALLOW made of reads from states under the stamp it is served under |
| KeptAllows.AllowKept | src/pyiamkit/authorization/engine.py:89-210 | an ALLOW is the same ALLOW in every state that keeps the active Roles with their permissions and parents, the active identity and everything else it reads |
| KeptAllows.SafeSaveKeeps | src/pyiamkit/authorization/domain/role.py:178-263 | a safe eventless save keeps that of every view |
| Coherence.UnavailableOnlyWhenUnstable | src/pyiamkit/operations/runtime.py:59-119 | a call gives up only after its stamp moved in each of its max_state_retries + 1 attempts |
| SoloCalls.SoloCall | src/pyiamkit/operations/runtime.py:56-115 | a call that is alone answers in one attempt, whatever the registry says: with a denial by a marker, with the valid entry under the present stamp, or with the engine's decision; the entry of the request is kept, dropped, or replaced by the ALLOW that was made, until the earlier of its end and the time to live |
| SoloCalls.MovedStamp | src/pyiamkit/operations/runtime.py:76-98 | a stamp that has moved costs the attempt: the pair goes on record, the call begins again or gives up, and only what was evaluated is dropped from the cache |
| SilentSaves.SilentSaveBreaksCoherence | src/pyiamkit/authorization/application.py:97-120 | a run, from an empty cache, in which add_permission and set_sensitive are called as the services define them: the eventless save of the copy set_sensitive loaded leaves a trusted cached ALLOW that the engine denies |
| SilentSaves.SilentSaveExact | src/pyiamkit/authorization/application.py:113-120 | an eventless save over a cache at rest keeps every coherent cache coherent if and only if it changes no ALLOW |
| SilentSafety.SilentRoleSaveExact | src/pyiamkit/authorization/domain/role.py:178-263 | an eventless Role save changes no ALLOW in any sound repositories if and only if the stored Role is disabled, or the copy is active with its permissions and parents |
| SilentSafety.SilentIdentitySaveExact | src/pyiamkit/identity/application/service.py:49-73 | a profile update changes no ALLOW if and only if it does not write another lifecycle over an active one |
| SilentSafety.SafeCopyExact | src/pyiamkit/authorization/application.py:97-120 | with any number of calls in flight, the eventless save of a Role copy keeps every run coherent if and only if the stored Role is disabled, or the copy is active with its permissions and parents |
| SilentSafety.SafeLifecycleExact | src/pyiamkit/identity/application/service.py:49-73 | and that of an identity if and only if it does not write another lifecycle over an active one |
| Writes.UntouchedView | src/pyiamkit/operations/mutations.py:127-280 | a save whose dimension is not in the (subject, tenant) stamp leaves everything a decision about that pair can read unchanged |
| Writes.UntouchedDecision | src/pyiamkit/operations/mutations.py:127-280 | so it changes no decision about the pair, whatever the request |
| Writes.ViewDecides | src/pyiamkit/authorization/engine.py:89-210 | a decision depends only on the subject, the tenant, their membership and bindings, and Roles and rules that are global or the tenant's |
| Writes.PermittedKeepsSound | src/pyiamkit/authorization/binding_application.py:105-114 | every save a service may make keeps edges and bindings within their tenant and binding identifiers unique |
| AuthorizationTheorems.AllowExact | src/pyiamkit/authorization/engine.py:89-210 | ALLOW if and only if the request is admitted and the first binding in identifier order that is not a clean miss grants with no governance violation; and which ALLOW it is |
| AuthorizationTheorems.AllowPathExact | src/pyiamkit/authorization/engine.py:89-210 | the same without a word about the search: which binding and which inheritance path an ALLOW names |
| AuthorizationTheorems.GrantsExact | src/pyiamkit/authorization/engine.py:135-165 | a binding grants if and only if there is a first granting path from its Role, and that is the one found |
| AuthorizationTheorems.TryExact | src/pyiamkit/authorization/engine.py:135-195 | a binding is passed over exactly when its hierarchy is clean, within depth and without the permission; it allows exactly when it grants and governance is silent |
| AuthorizationTheorems.GovernanceExact | src/pyiamkit/authorization/engine.py:232-251 | governance passes exactly when no applicable rule of the three kinds objects, each read declaratively: numbers not above the maximum, texts as expected, evidence of the level and factor asked for, actors other than the subject, and no two exclusive Roles inherited |
| AuthorizationTheorems.MetExact | src/pyiamkit/authorization/governance.py:214-299 | a constraint is silent if and only if it is met: a number that is present, no flag, readable and at most the maximum; the expected text; evidence of at least the minimum level, with MFA where required |
| AuthorizationTheorems.SeparateExact | src/pyiamkit/authorization/governance.py:305-326 | a dynamic rule is silent if and only if the attribute is there and does not name the subject |
| Denials.ScreenExact | src/pyiamkit/authorization/engine.py:89-130 | which of the checks before any binding refuses a request, and with which reason |
| Denials.ObjectionExact | src/pyiamkit/authorization/engine.py:232-251 | which violation governance reports: standing rules before dynamic ones before constraints, and of each kind the first that objects |
| Denials.DenialExact | src/pyiamkit/authorization/engine.py:89-210 | every denial: the first check that fails, no candidate granting, or the first candidate that is not a clean miss, being unusable, meeting the first faulty edge of its hierarchy or granting against an objection; with its reason, rule, required assurance and explanation |
| Denials.AllowSays | src/pyiamkit/authorization/engine.py:172-208 | every field of an ALLOW: its reason, the binding, path and membership it rests on, and the earlier of their ends |
| AuthorizationTheorems.OrderIndependent | src/pyiamkit/authorization/engine.py:111-130 | the whole decision, explanation included, does not depend on the order in which bindings are returned |
| AuthorizationTheorems.DecisionWellFormed | src/pyiamkit/authorization/domain/decision.py:122-129 | valid_until, when set, is after evaluated_at, so the constructor never refuses a decision |
| AuthorizationTheorems.MoreRulesNeverAllow | src/pyiamkit/authorization/governance.py:214-270 | adding constraints or separation-of-duties rules never turns DENY into ALLOW, and a surviving ALLOW is the same |
| AuthorizationTheorems.StrongerEvidenceKeepsAllow | src/pyiamkit/authorization/governance.py:247-270 | stronger authentication evidence never turns ALLOW into DENY |
| AuthorizationTheorems.AllowIsSodSafe | src/pyiamkit/authorization/governance.py:363-403 | an ALLOW implies no applicable static rule has both Roles inherited through the subject's active bindings |
| AuthorizationTheorems.AllowIsStable | src/pyiamkit/authorization/domain/role_binding.py:207-213 | an ALLOW at t with valid_until V is the same ALLOW at every t' in [t, V), even as other bindings expire |
| Governance.DetectRuntimeExact | src/pyiamkit/authorization/governance.py:363-403 | the run-time check passes exactly when no rule applies, or every bound hierarchy resolves and no rule has both Roles inherited; it fails closed |
| Governance.AssignmentExact | src/pyiamkit/authorization/governance.py:345-361 | an assignment passes exactly when every hierarchy resolves and the candidate together with the bound Roles satisfies every rule |
| Governance.EffectiveExact | src/pyiamkit/authorization/governance.py:382-386 | the effective Role set is what the bound Roles inherit, and fails exactly when one of them does not resolve |
| RoleHierarchy.ResolveExact | src/pyiamkit/authorization/hierarchy.py:38-43 | when resolve_roles returns, it lists each reachable Role once and no other, all active, every edge tenant-valid, no cycle |
| RoleHierarchy.ResolveTotalOnClean | src/pyiamkit/authorization/hierarchy.py:72-94 | a clean hierarchy whose paths are within the limit is never refused |
| RoleHierarchy.ResolveErrorGenuine | src/pyiamkit/authorization/hierarchy.py:72-94 | every error raised has its cause in the graph below the root |
| RoleHierarchy.MissExact | src/pyiamkit/authorization/hierarchy.py:96-118 | permission_path answers None if and only if everything below is clean, within depth on every path, and without the permission |
| RoleHierarchy.HitExact | src/pyiamkit/authorization/hierarchy.py:96-118 | permission_path answers a path if and only if it is a simple granting chain within depth, and whatever an earlier parent of a Role on it leads to is clean, within depth, off the chain so far and without the permission |
| RoleHierarchy.PathAgreesWithClosure | src/pyiamkit/authorization/hierarchy.py:32-49 | a miss means the closure resolves without the permission; a hit is a simple chain within depth whose last Role alone holds it, and the closure has it if it resolves |
| HierarchyFaults.FaultExact | src/pyiamkit/authorization/hierarchy.py:96-118 | permission_path raises an error if and only if the Role is unavailable or a faulty edge comes first in the order of the search (unavailable, of another tenant, back onto the path, or beyond the limit), and it is that edge's error |
| HierarchyFaults.ResolveOrderExact | src/pyiamkit/authorization/hierarchy.py:72-94 | when resolve_roles returns, its order is the one depth-first order from the Role: each Role is the first new parent of the last Role that still had one |
| RoleHierarchy.AncestorsExact | src/pyiamkit/authorization/hierarchy.py:26-30 | ancestor_ids is exactly proper reachability |
| RoleHierarchy.AncestorsErrorGenuine | src/pyiamkit/authorization/hierarchy.py:51-70 | every error ancestor_ids raises has its cause in the graph, and a clean hierarchy is refused only for a path beyond the limit |
| HierarchyResolver.Resolver.Resolve | src/pyiamkit/authorization/hierarchy.py:38-43 | the search over shared mutable buffers computes the specified walk |
| HierarchyResolver.Resolver.WalkInto | src/pyiamkit/authorization/hierarchy.py:72-94 | one recursive call leaves the buffers as the specified walk says |
| HierarchyResolver.Resolver.Ancestors | src/pyiamkit/authorization/hierarchy.py:26-30 | the ancestor search over its shared buffer computes the specified set |
| HierarchyResolver.Resolver.CollectInto | src/pyiamkit/authorization/hierarchy.py:51-70 | one recursive call leaves the ancestor buffer as specified |
| HierarchyResolver.OnlyDepthSeparates | src/pyiamkit/authorization/hierarchy.py:72-118 | where resolve_roles succeeds, the path search can fail only on a path longer than the limit |
| HierarchyResolver.SearchesDiffer | src/pyiamkit/authorization/hierarchy.py:72-118 | they do differ: on every diamond of this shape, with a limit of two edges, resolution succeeds and the path search exceeds the depth |
| HierarchyResolver.DiamondSeparates | src/pyiamkit/authorization/hierarchy.py:72-118 | and such a catalog exists |
| Services.ReachableCatalogs | src/pyiamkit/authorization/hierarchy.py:158-170 | after any sequence of service calls from empty repositories the whole parent graph is acyclic, edges and bindings are tenant-valid, and a resolution can fail only for a disabled Role or depth |
| Services.AddParentKeepsAcyclic | src/pyiamkit/authorization/hierarchy.py:158-165 | an accepted parent creates no cycle anywhere, disabled Roles included |
| Services.AddParentExact | src/pyiamkit/authorization/hierarchy.py:158-165 | within the depth limit a parent is accepted if and only if both Roles are active, the edge is tenant-valid, everything above the parent is clean, and the child is not the parent nor above it; beyond the limit an acceptable one is refused only for depth |
| Services.ExecuteKeepsHealthy | src/pyiamkit/authorization/binding_application.py:76-186 | every successful call keeps the repositories healthy |
| Services.ExecuteAnnounced | src/pyiamkit/operations/mutations.py:127-280 | every successful call announces a dimension covering its save, or wrote back what it read |
| Services.ExecutePermitted | src/pyiamkit/authorization/binding_application.py:76-186 | every successful call makes a save the protocol permits |
| Services.LateSavePermitted | src/pyiamkit/authorization/binding_application.py:76-186 | a call that loaded and checked earlier still makes a permitted save after any permitted saves of others, so long as nobody else creates the aggregate it creates |
| Services.PermittedPersists | src/pyiamkit/authorization/binding_application.py:105-114 | one permitted save does not spoil another, unless both create the same aggregate |
| Services.AssignmentIsSodSafe | src/pyiamkit/authorization/binding_application.py:133-142 | a successful assign_role leaves no rule with both Roles inherited through all the subject's active bindings |
| ServiceTheorems.AssignRoleExact | src/pyiamkit/authorization/binding_application.py:76-155 | assign_role succeeds if and only if identity, tenant and membership are active, the Role is active, assignable and global or the tenant's, the guard was passed if it is sensitive, the pair is not bound to it, no rule has both Roles held, and the end is ahead; and then it leaves one active binding from now |
| ServiceTheorems.AssignRoleRefusals | src/pyiamkit/authorization/binding_application.py:76-142 | why an assignment is refused, the first reason in order |
| ServiceTheorems.ChangeBindingExact | src/pyiamkit/authorization/binding_application.py:157-186 | which binding changes are possible, and that only this binding's status changes, with its one event |
| ServiceTheorems.ChangeMembershipExact | src/pyiamkit/tenancy/application.py:99-123 | which membership changes are possible, with what activation demands, and that only this membership's status changes, with its one event |
| ServiceTheorems.CreateMembershipExact | src/pyiamkit/tenancy/application.py:75-97 | a new membership is pending from now on; the pair must have none |
| ServiceTheorems.ChangeIdentityExact | src/pyiamkit/identity/application/service.py:99-127 | which lifecycle changes of an identity are possible, where they lead and which event they publish |
| ServiceTheorems.ChangeTenantExact | src/pyiamkit/tenancy/application.py:50-73 | the same of a tenant |
| ServiceTheorems.PartyCallsExact | src/pyiamkit/identity/application/service.py:33-73 | new identities and tenants are pending; a profile update and a link change no lifecycle, and only the link is announced |
| ServiceTheorems.PermissionCallsExact | src/pyiamkit/authorization/application.py:78-90 | permissions of an active Role are added and removed one by one; what would change nothing is refused |
| ServiceTheorems.RoleFlagsExact | src/pyiamkit/authorization/application.py:92-120 | disabling and the two flags; a flag already so is saved without an event |
| ServiceTheorems.ParentCallsExact | src/pyiamkit/authorization/hierarchy.py:158-170 | an accepted parent is there afterwards, with an event if it was not before, and a removed one is not |
| ServiceTheorems.ParentRefusals | src/pyiamkit/authorization/hierarchy.py:158-165 | why a parent is refused, the first reason in order |
| ServiceTheorems.CreateRoleExact | src/pyiamkit/authorization/application.py:57-76 | a new Role is active, without permissions or parents |
| ServiceTheorems.RegisterCallsExact | src/pyiamkit/authorization/governance.py:61-162 | constraints and dynamic rules need a registered permission, and permissions are registered once |
| ServiceTheorems.RegisterStaticRuleExact | src/pyiamkit/authorization/governance.py:121-188 | a standing rule needs two different stored Roles that are global or of its tenant |
| ServiceObjects.RoleAggregate.AddParentRole | src/pyiamkit/authorization/domain/role.py:178-191 | adds the parent and records it, or changes and records nothing when it is there, or refuses |
| ServiceObjects.RoleAggregate.RemoveParentRole | src/pyiamkit/authorization/domain/role.py:193-204 | the inverse change, with the same eventless case |
| ServiceObjects.RoleAggregate.AddPermission | src/pyiamkit/authorization/domain/role.py:206-217 | adds a permission once |
| ServiceObjects.RoleAggregate.RemovePermission | src/pyiamkit/authorization/domain/role.py:219-230 | removes a permission that is there |
| ServiceObjects.RoleAggregate.Disable | src/pyiamkit/authorization/domain/role.py:232-237 | disables an active Role |
| ServiceObjects.RoleAggregate.SetSensitive | src/pyiamkit/authorization/domain/role.py:239-250 | records nothing when the flag is already so |
| ServiceObjects.RoleAggregate.SetAssignable | src/pyiamkit/authorization/domain/role.py:252-263 | records nothing when the flag is already so |
| ServiceObjects.BindingAggregate.Change | src/pyiamkit/authorization/domain/role_binding.py:215-240 | the binding's transitions and the event each records |
| ServiceObjects.MembershipAggregate.Change | src/pyiamkit/tenancy/domain/membership.py:172-215 | the membership's transitions and the event each records |
| ServiceObjects.RoleService.SaveRole | src/pyiamkit/authorization/hierarchy.py:180-186 | the save happens, then every recorded event bumps its version, records its marker and is logged; a conflicting marker is raised |
| ServiceObjects.RoleService.CheckParent | src/pyiamkit/authorization/hierarchy.py:158-165 | the first reason to refuse a parent, in order |
| ServiceObjects.RoleService.AddParentRole | src/pyiamkit/authorization/hierarchy.py:158-165 | refused with nothing changed, or saved and published: every recorded event bumps its version and records its marker, up to the first marker that conflicts, which is raised |
| ServiceObjects.RoleService.RemoveParentRole | src/pyiamkit/authorization/hierarchy.py:167-170 | refused with nothing changed, or saved and published: every recorded event bumps its version and records its marker, up to the first marker that conflicts, which is raised |
| ServiceObjects.RoleService.AddPermission | src/pyiamkit/authorization/application.py:78-84 | refused with nothing changed, or saved and published: every recorded event bumps its version and records its marker, up to the first marker that conflicts, which is raised |
| ServiceObjects.RoleService.RemovePermission | src/pyiamkit/authorization/application.py:86-90 | refused with nothing changed, or saved and published: every recorded event bumps its version and records its marker, up to the first marker that conflicts, which is raised |
| ServiceObjects.RoleService.DisableRole | src/pyiamkit/authorization/application.py:92-95 | refused with nothing changed, or saved and published: every recorded event bumps its version and records its marker, up to the first marker that conflicts, which is raised |
| ServiceObjects.BindingService.AssignRole | src/pyiamkit/authorization/binding_application.py:76-155 | every check in order, then a binding that starts now, saved and then published with its version and marker |
| ServiceObjects.BindingService.CheckAssignment | src/pyiamkit/authorization/binding_application.py:76-142 | the first reason to refuse an assignment |
| ServiceObjects.BindingService.EnsureAssignmentAllowed | src/pyiamkit/authorization/governance.py:345-361 | the first refusal, by hierarchy or by rule |
| ServiceObjects.BindingService.EffectiveIds | src/pyiamkit/authorization/governance.py:382-386 | the loop computes the union of the bound Roles' closures, or the first error |
| ServiceObjects.BindingService.Change | src/pyiamkit/authorization/binding_application.py:157-170 | suspend, reactivate and revoke, without re-running static separation of duties; after a suspension or revocation a registry that was reached holds that binding's marker at the new version, or the conflict is raised |
| ServiceObjects.MembershipService.Create | src/pyiamkit/tenancy/application.py:75-97 | refused with nothing changed, or a pending membership saved and published, registry included |
| ServiceObjects.MembershipService.Change | src/pyiamkit/tenancy/application.py:99-123 | activation needs an active identity and tenant; every change is saved before it is published; after a suspension or revocation a registry that was reached holds that membership's marker at the new version, or the conflict is raised |
| SecurityState.BumpExact | src/pyiamkit/operations/adapters/memory.py:57-122 | a bump moves exactly one version by one, and a stamp strictly up exactly when it contains that dimension |
| SecurityState.SecurityStateStore.Advance | src/pyiamkit/operations/adapters/memory.py:57-122 | the store's dictionaries change as that bump, and the new version is returned |
| SecurityState.SecurityStateStore.ReadStamp | src/pyiamkit/operations/adapters/memory.py:37-55 | the stamp holds the nine versions that concern the pair |
| DecisionCache.RehydratedDecision | src/pyiamkit/operations/cache.py:149-193 | a decision cached for one request and rehydrated for any request with the same key is the engine's decision for that request, restamped |
| DecisionCache.SameKeySameDecision | src/pyiamkit/operations/cache.py:84-121 | requests with one key get one decision, up to the correlation identifier |
| DecisionCache.KeyExact | src/pyiamkit/operations/cache.py:84-121 | requests share a key exactly when they differ at most in their correlation |
| DecisionCache.EntryKeeps | src/pyiamkit/operations/cache.py:149-162 | an entry keeps all of a decision but what it has from its request and clock |
| DecisionCache.AuthorizationCache.Lookup | src/pyiamkit/operations/adapters/memory.py:133-147 | a hit exactly when the stamp is the current one and the entry unexpired; otherwise the entry is dropped |
| DecisionCache.AuthorizationCache.Put | src/pyiamkit/operations/adapters/memory.py:149-153 | denials are not stored unless the cache is told to |
| DecisionCache.AuthorizationCache.Delete | src/pyiamkit/operations/adapters/memory.py:155-157 | only the key's entry goes |
| Revocation.RegistryConverges | src/pyiamkit/operations/adapters/memory.py:171-184 | whatever the order of arrival, non-conflicting versioned markers of a target leave the newest |
| Revocation.RegistryOrderless | src/pyiamkit/operations/adapters/memory.py:171-230 | two arrival orders of the same markers leave the same marker |
| Revocation.RevocationRegistry.Record | src/pyiamkit/operations/adapters/memory.py:171-184 | accept, ignore or refuse by version, or by time when a version is missing |
| Mutations.MutationSink.Apply | src/pyiamkit/operations/mutations.py:127-280 | one event bumps its dimension once, and its marker carries the version that bump returned; with the registry reached the marker is recorded, a conflict being raised after the bump, and nothing else changes it; a marker is lost only where the registry was not reached |
| Mutations.MutationSink.Publish | src/pyiamkit/operations/mutations.py:115-125 | all events are applied one after another, then logged, then their invalidations sent, in order; a conflict stops before the log; every marker lost is a failure of the registry |
| DenyFast.PublishedStamps | src/pyiamkit/operations/mutations.py:127-280 | what each kind of event does to the stamp of a subject in a tenant: which component moves, by one, and for whom |
| DenyFast.ReachedRegistryHolds | src/pyiamkit/operations/mutations.py:127-280 | with the registry reached, exactly the suspended, disabled and archived identity and tenant events, the suspended, revoked and expired membership and binding events, and SessionRevoked leave a marker of their target, with the event's time, name and bumped version, unless a later one is held; every other marker stays |
| DenyFast.JudgeExact | src/pyiamkit/operations/adapters/memory.py:171-184 | a later marker replaces, an earlier one is ignored, and an equally late one conflicts unless it is the same |
| DenyFast.LostMarker | src/pyiamkit/operations/mutations.py:323-348 | a registry that was not reached keeps what it had, and the versions move all the same |
| DenyFast.InvalidationsExact | src/pyiamkit/operations/mutations.py:351-367 | one message for each event but the unrelated ones, with its dimension, the version right after it, and its time |
| DenyFast.RevocationHeld | src/pyiamkit/operations/mutations.py:323-348 | right after a service call that takes something away, with the registry reached, the marker of that target is held and applies from then on for as long as the target's version stands |
| DenyFast.NothingRevoked | src/pyiamkit/operations/mutations.py:127-280 | and a call that takes nothing away leaves the registry as it was |
| AuthorizationRuntime.CallKeepsTrusted | src/pyiamkit/operations/mutations.py:323-348 | any service call, its marker recorded or lost, meets no conflict and leaves every marker truthful and every entry justified |
| AuthorizationRuntime.NewIsTrusted | src/pyiamkit/operations/mutations.py:323-348 | a new deployment is trusted |
| AuthorizationRuntime.ApplicableMeansInactive | src/pyiamkit/operations/revocation.py:71-82 | a marker that applies means its target is inactive now; a reactivation makes it stale |
| AuthorizationRuntime.FreshMarkerOk | src/pyiamkit/operations/mutations.py:323-348 | the marker of a new event is always accepted by the registry, never a conflict |
| RuntimeObjects.DistributedRuntime.Authorize | src/pyiamkit/operations/runtime.py:56-119 | every answer, with how it came about and what it left in the cache: the valid entry over which no marker stands; a denial naming the marker of the subject (DENY_SUBJECT_INACTIVE) or the tenant (DENY_TENANT_INACTIVE), which is the engine's own reason; or the engine's decision at an instant of the call, an ALLOW being cached when the registry was heard; it is the last decision audited; failure only if every attempt saw the stamp move |
| Deployments.Deployment.constructor | src/pyiamkit/operations/mutations.py:94-125 | a deployment starts in order |
| Deployments.Deployment.Dispatch | src/pyiamkit/authorization/application.py:78-120 | every command, through the object of its service, does what is specified of it to repositories, versions, markers and log |
| Deployments.Deployment.Call | src/pyiamkit/operations/mutations.py:94-125 | a service call keeps the deployment in order, never meets a marker conflict, leaves the repositories as specified and, with the registry reached, the standing marker of whatever it took away |
| Deployments.Deployment.Operate | src/pyiamkit/operations/runtime.py:56-119 | over any sequence of service calls and authorize calls every call does what is specified of it, and every answer is the engine's over what the calls before it left, or the denial of a marker that applies there, for the engine's own reason |
| RuntimeObjects.DistributedRuntime.Attempt | src/pyiamkit/operations/runtime.py:59-115 | one turn of the retry loop, with the registry failing at will: an answer come about as above, or a stamp that moved |
| RuntimeObjects.DistributedRuntime.FromCache | src/pyiamkit/operations/runtime.py:74-92 | a hit is served only under an unmoved stamp and with no applicable marker; a miss means no valid entry was there, and drops what was |
| RuntimeObjects.DistributedRuntime.FromEngine | src/pyiamkit/operations/runtime.py:94-115 | an evaluation is served, and cached when it allows and the registry was heard, only under an unmoved stamp |
| RuntimeObjects.DistributedRuntime.CacheAllow | src/pyiamkit/operations/runtime.py:233-254 | the entry expires at the earlier of the time to live and the decision's end, and is not stored if that has passed |
| RuntimeObjects.DistributedRuntime.RequestRevocation | src/pyiamkit/operations/runtime.py:147-167 | the applicable marker of the subject, or failing that of the tenant |
| RuntimeObjects.DistributedRuntime.SemanticRevocation | src/pyiamkit/operations/runtime.py:191-214 | the applicable marker of the membership, or failing that of the binding |
| RuntimeObjects.DistributedRuntime.ActiveMarker | src/pyiamkit/operations/runtime.py:216-231 | a marker counts only while active and not older than the current version |
| RuntimeObjects.CachedIsCurrent | src/pyiamkit/operations/runtime.py:92-92 | a valid entry is the engine's ALLOW at this instant |
| RuntimeObjects.NoDecisionMarker | src/pyiamkit/operations/runtime.py:169-189 | no marker applies to the membership or the binding a current ALLOW rests on |
| RuntimeObjects.RequestMarkerDenies | src/pyiamkit/operations/runtime.py:65-72 | an applicable request marker denies only what the engine denies, for the engine's reason |
| RuntimeObjects.RevocationDenialExact | src/pyiamkit/operations/runtime.py:256-287 | a denial by a marker: of this request, for the reason of the marker's kind, naming the marker and its reason |
| RuntimeObjects.RequestMarkerExact | src/pyiamkit/operations/runtime.py:147-167 | which marker denies a request: the subject's if it applies, and otherwise the tenant's |
| RuntimeObjects.DecisionMarkerExact | src/pyiamkit/operations/runtime.py:191-214 | which marker overrules a decision: the membership's if it applies, and otherwise the binding's |
| RuntimeObjects.AuthorizationEngine.Evaluate | src/pyiamkit/authorization/engine.py:89-210 | the guards and the loop over sorted bindings compute the specified decision |
| DecimalText.CompareDecimalExact | src/pyiamkit/operations/adapters/redis.py:250-267 | on the text of integers of any size compare_decimal is numeric comparison, and refuses negatives |
| RedisRegistry.ScriptAgreesExactly | src/pyiamkit/operations/adapters/redis.py:68-121 | the script's answer and resulting hash equal the in-memory registry's if and only if both markers order by the same kind of non-negative number; otherwise it reports the hash as invalid and leaves it |
| RedisRegistry.RegistriesNeverPart | src/pyiamkit/operations/adapters/redis.py:138-160 | over any sequence of versioned markers the server and the in-memory registry hold the same |
| RedisRegistry.ServerConverges | src/pyiamkit/operations/adapters/redis.py:138-160 | the server ends with the newest marker of a target, whatever the order |
| RedisRegistry.RedisRevocationRegistry.Evaluate | src/pyiamkit/operations/adapters/redis.py:87-120 | the reads and the one write of the script |
| RedisRegistry.RedisRevocationRegistry.Record | src/pyiamkit/operations/adapters/redis.py:138-160 | records as the in-memory registry would, reports conflicts and unorderable hashes, and changes nothing when unreachable |
| RedisProjection.RedisSecurityStateProjection.CompareFields | src/pyiamkit/operations/adapters/redis.py:281-295 | the nine-field loop decides by the first field that does not let the stamp pass, and on a consistent hash the componentwise order of stamps |
| RedisProjection.RedisSecurityStateProjection.Evaluate | src/pyiamkit/operations/adapters/redis.py:250-304 | the new stamp is written whole exactly when none is stored or every field lets it pass, and otherwise nothing is; on a consistent hash the stored stamp climbs or stays, and its fields keep saying what its payload says |
| RedisProjection.RedisSecurityStateProjection.Project | src/pyiamkit/operations/adapters/redis.py:343-366 | a consistent hash is never deleted and never falls back; a malformed one may be deleted; other keys are untouched |
| RedisProjection.OnlyClimbs | src/pyiamkit/operations/adapters/redis.py:250-304 | whatever arrives, the stored stamp only climbs |
| RedisProjection.ProjectionConverges | src/pyiamkit/operations/adapters/redis.py:343-379 | stamps read from the version store and projected late, repeatedly and in any order end at their maximum |
| InvalidationSubscriber.HandledClimbs | src/pyiamkit/operations/adapters/redis.py:472-495 | over any messages, handled versions strictly increase per stream, so none is handled twice even after its identifier was forgotten |
| InvalidationSubscriber.MemoryIsRedundant | src/pyiamkit/operations/adapters/redis.py:472-495 | what is handled does not depend on the size of the memory |
| InvalidationSubscriber.StreamsCatchUp | src/pyiamkit/operations/adapters/redis.py:472-488 | with a willing handler every stream ends at the greatest version that arrived |
| InvalidationSubscriber.StepExact | src/pyiamkit/operations/adapters/redis.py:472-495 | an event is handled exactly when it is not remembered, newer than the last of its stream, and taken by the handler; a refused one changes nothing and can come again; handled and outdated ones are remembered, the oldest going first |
| InvalidationSubscriber.RedisInvalidationSubscriber.HandleEvent | src/pyiamkit/operations/adapters/redis.py:472-488 | the step as specified; the identifier set equals the duplicate-free bounded queue |
| InvalidationSubscriber.RedisInvalidationSubscriber.Remember | src/pyiamkit/operations/adapters/redis.py:490-495 | appends and forgets the oldest beyond the bound |
| FilterSplitter.SplitExact | src/pyiamkit/provisioning/http.py:938-987 | a split succeeds with these clauses if and only if the text is those clauses, trimmed, closed and unbreakable, with separators between and white space around |
| FilterSplitter.SplitAgain | src/pyiamkit/provisioning/http.py:938-987 | splitting the clauses joined with plain `and`s gives the same clauses |
| FilterSplitter.SplitAndClauses | src/pyiamkit/provisioning/http.py:938-987 | the one-pass loop over start, index and quote flags computes the split |
| FilterSplitter.SeparatorEnd | src/pyiamkit/provisioning/http.py:961-978 | white space, `and` in any case and white space again, or no separator |
| ScimFilter.FilterRoundTrip | src/pyiamkit/provisioning/http.py:217-234 | the parser returns the clauses that were written, for all values, spellings and separators; several clauses only where the profile allows `and` |
| ScimFilter.PrintParse | src/pyiamkit/provisioning/http.py:905-935 | printing and parsing any non-empty list of clauses gives it back |
| ScimFilter.WrittenParses | src/pyiamkit/provisioning/http.py:905-935 | a clause is read back whatever its value holds, including ` and `, quotes, back-slashes and control characters |
| ScimFilter.EscapeDecodes | src/pyiamkit/provisioning/http.py:914-923 | a value survives being written as a string literal |
| FilterTheorems.DecodeExact | src/pyiamkit/provisioning/http.py:914-923 | which texts between quotes are read, and as what: every character as itself, by a short escape, by its code or by the codes of its halves |
| FilterTheorems.LiteralExact | src/pyiamkit/provisioning/http.py:914-931 | a literal is a quoted text or, where allowed, a token without white space; and why others are refused |
| FilterTheorems.ClauseExact | src/pyiamkit/provisioning/http.py:905-935 | a text is this clause if and only if it is the attribute, `eq` and a literal of the value, set apart by white space; it is malformed if and only if it has not that shape |
| FilterTheorems.FilterExact | src/pyiamkit/provisioning/http.py:217-234 | a text is this filter if and only if it reads as the texts of its clauses with `and` between them, more than one only where the profile allows it; no text and a blank one are no filter |
| ScimUsers.ApplyUserPatch | src/pyiamkit/provisioning/scim.py:163-231 | operations apply one after another, and none if one is refused |
| ScimUsers.PatchReachesEverything | src/pyiamkit/provisioning/scim.py:163-231 | PATCH can turn any user into any well-formed user, as PUT can |
| ScimUsers.PatchKeepsForm | src/pyiamkit/provisioning/scim.py:40-57 | no constructor refuses what a PATCH produces |
| ScimOutcomes.PatchOneExact | src/pyiamkit/provisioning/scim.py:163-231 | one operation succeeds if and only if its path names an attribute, in any case, and its value suits it, and then sets or removes exactly that attribute |
| ScimUsers.EtagTellsVersions | src/pyiamkit/provisioning/domain.py:199-201 | two versions of a resource never carry the same tag |
| ScimUsers.EtagReads | src/pyiamkit/provisioning/domain.py:199-201 | the tag is weak and writes the identifier and the version |
| ScimUsers.InMemoryProvisioningUserRepository.FindByUserName | src/pyiamkit/provisioning/adapters/memory.py:39-53 | the first live resource of the source with the folded, trimmed name |
| ScimUsers.InMemoryProvisioningUserRepository.FindByExternalId | src/pyiamkit/provisioning/adapters/memory.py:23-37 | the first live resource of the source with the external identifier |
| ScimUsers.InMemoryProvisioningUserRepository.Save | src/pyiamkit/provisioning/adapters/memory.py:20-21 | replaces in place, or appends |
| ScimRuns.RunKeepsTended | src/pyiamkit/provisioning/application.py:83-276 | every run of requests, among any other service calls, keeps names and external identifiers unique, and each resource in step (active exactly with an ACTIVE membership, otherwise SUSPENDED, deleted with REVOKED) unless another service changed its membership since its last successful write |
| ScimProvisioning.CreateExact | src/pyiamkit/provisioning/application.py:83-121 | POST succeeds exactly when nothing is taken, the profile is valid and the tenant active; a later refusal leaves an identity without a resource |
| ScimProvisioning.ReplaceExact | src/pyiamkit/provisioning/application.py:165-192 | a PUT that succeeds leaves the resource in step; one that fails has changed nothing, and is never refused by reconciliation, unless another service touched the membership, and then it may leave the profile written |
| ScimOutcomes.ReplacedExact | src/pyiamkit/provisioning/application.py:165-192 | a PUT succeeds if and only if the resource is live, the tag matches, nothing is taken, the profile is valid and the membership can be brought to what is asked; then the resource has the user's name, external identifier and flag and one version more, and is found under them; the profile has the given names, the display name or else the user name, and the primary address; the membership is as asked, and nothing else has changed |
| ScimOutcomes.ReplaceRefusals | src/pyiamkit/provisioning/application.py:165-192 | why a PUT is refused, the first reason in order |
| ScimOutcomes.CreatedExact | src/pyiamkit/provisioning/application.py:83-121 | the same of POST: when it succeeds, the identity, membership, profile and resource it leaves |
| ScimOutcomes.CreateRefusals | src/pyiamkit/provisioning/application.py:83-121 | why a POST is refused, the first reason in order |
| ScimOutcomes.PatchedExact | src/pyiamkit/provisioning/application.py:194-209 | a PATCH is the PUT of what its operations make of the user shown |
| ScimOutcomes.EmptyPatchKeeps | src/pyiamkit/provisioning/application.py:194-209 | a PATCH without operations, on a resource whose profile is as it would be written, changes nothing but the version |
| ScimOutcomes.RemovedExact | src/pyiamkit/provisioning/application.py:211-232 | DELETE succeeds if and only if the resource is live and the tag matches; then the resource is deleted and inactive, one version on, its membership is revoked, and no other resource and no profile has changed |
| ScimOutcomes.ParseEmailExact | src/pyiamkit/identity/domain/value_objects/email_address.py:14-26 | which texts are addresses, and how they are normalised |
| ScimProvisioning.FailedReplaceExact | src/pyiamkit/provisioning/application.py:165-192 | in any state, a failed PUT changes something if and only if all checks pass, the profile is new and the membership can no longer be reconciled; and then only the profile |
| ScimProvisioning.PatchExact | src/pyiamkit/provisioning/application.py:194-209 | PATCH keeps what is in step in step, brings what it writes back into step, and changes nothing when it fails on an untouched membership |
| ScimProvisioning.DeleteExact | src/pyiamkit/provisioning/application.py:211-232 | DELETE revokes the membership, whoever changed it before, and fails only on a missing resource or stale tag |
| ScimProvisioning.ReconcileExact | src/pyiamkit/provisioning/application.py:234-257 | an active or suspended membership is always brought to what is asked; reconciling otherwise succeeds with that or changes nothing, and no other membership is touched |
| ScimProvisioning.NotTakenIsApart | src/pyiamkit/provisioning/application.py:259-276 | the uniqueness check, which looks only at first matches, finds every conflict |
| ScimRuns.StaleTagRefused | src/pyiamkit/provisioning/application.py:290-296 | after any run in which a resource was written, its old tag changes nothing: no update is lost |
| ScimRuns.FilterIsScan | src/pyiamkit/provisioning/http.py:833-855 | lookup by the first clause plus recheck finds exactly what a scan for all clauses finds |
| ScimRuns.FilterOrderFree | src/pyiamkit/provisioning/http.py:833-855 | in any clause order |
| ScimService.ScimProvisioningService.CreateUser | src/pyiamkit/provisioning/application.py:83-121 | the steps, with what they leave at each refusal, compute the specified operation |
| ScimService.ScimProvisioningService.ReplaceUser | src/pyiamkit/provisioning/application.py:165-192 | the steps compute the specified operation |
| ScimService.ScimProvisioningService.PatchUser | src/pyiamkit/provisioning/application.py:194-209 | the steps compute the specified operation |
| ScimService.ScimProvisioningService.DeleteUser | src/pyiamkit/provisioning/application.py:211-232 | the steps compute the specified operation |
| ScimService.ScimProvisioningService.ReconcileMembership | src/pyiamkit/provisioning/application.py:234-257 | the calls made for each membership status |
| ScimService.ScimProvisioningService.EnsureUnique | src/pyiamkit/provisioning/application.py:259-276 | a conflict exactly when the name or the external identifier is taken |
| ScimService.ScimProvisioningService.FindByClauses | src/pyiamkit/provisioning/http.py:833-855 | the lookup as specified |
| ScimService.ProvisioningUser.Replace | src/pyiamkit/provisioning/domain.py:203-220 | a live resource takes the new name, external identifier and flag and a new version; a deleted one is immutable |
| ScimService.ProvisioningUser.Delete | src/pyiamkit/provisioning/domain.py:222-229 | deletes once |
| Totp.PyOtpTotpProvider.Verify | src/pyiamkit/authentication/adapters/totp.py:87-120 | the least counter in the window above the last accepted one whose code matches after normalisation, and None exactly when there is none or the text is not a code |
| Totp.MfaFactor.AcceptCounter | src/pyiamkit/authentication/domain/mfa_factor.py:231-238 | a counter not above the last one is a replay and changes nothing |
| Totp.MfaFactor.Activate | src/pyiamkit/authentication/domain/mfa_factor.py:201-208 | a pending factor becomes active with its first counter |
| Totp.MfaFactor.RecordVerification | src/pyiamkit/authentication/domain/mfa_factor.py:210-215 | an active factor records a higher counter |
| Totp.MfaFactor.Revoke | src/pyiamkit/authentication/domain/mfa_factor.py:217-224 | revoked once |
| Mfa.CountersClimb | src/pyiamkit/authentication/domain/mfa_factor.py:231-238 | over every run and every clock, no factor accepts a counter twice or out of order |
| Mfa.AcceptancesBounded | src/pyiamkit/authentication/adapters/totp.py:108-120 | while the base counter is in [b0, b1] a factor accepts at most b1 - b0 + 2 * window + 1 codes |
| Mfa.StepUpExact | src/pyiamkit/authentication/mfa.py:158-205 | whatever the clock, a session is revoked only together with its replacement, which keeps owner, expiry and login and never lowers assurance; once the code is recorded, step-up succeeds exactly when the clock is not behind the session |
| Mfa.StepUpAllOrNothing | src/pyiamkit/authentication/mfa.py:158-205 | under a clock that does not go back, a failed step-up changes nothing |
| MfaTheorems.StepUpSucceedsExactly | src/pyiamkit/authentication/mfa.py:158-205 | step-up succeeds if and only if session and factor are stored, of one identity, active and unexpired, some counter is good for the code, and the clock is behind neither; then the least such counter is recorded, the old session is revoked and the new one, of the same owner, login and expiry, is at the second level or the third |
| MfaTheorems.StepUpRefusals | src/pyiamkit/authentication/mfa.py:158-205 | why a step-up is refused, the first reason in order |
| MfaTheorems.VerifyExact | src/pyiamkit/authentication/mfa.py:144-156 | a code is accepted of an active factor if and only if some counter in the window, above the last accepted one, is good for it; and exactly what is recorded |
| MfaTheorems.ConfirmExact | src/pyiamkit/authentication/mfa.py:130-142 | the same of the confirmation of a pending factor, which becomes active |
| MfaTheorems.EnrollExact | src/pyiamkit/authentication/mfa.py:99-128 | enrolment leaves a pending factor of an active identity with its secret |
| MfaTheorems.RevokeFactorExact | src/pyiamkit/authentication/mfa.py:207-212 | revocation deletes the secret with the factor |
| MfaTheorems.BaseCounterExact | src/pyiamkit/authentication/adapters/totp.py:108-108 | the base counter is the interval the instant falls in, in whole seconds towards zero |
| MfaTheorems.SessionChangesExact | src/pyiamkit/authentication/domain/session.py:179-239 | when each session transition succeeds and what it changes |
| Mfa.TransitionsKeepForm | src/pyiamkit/authentication/domain/session.py:179-239 | under such a clock every transition leaves a session the constructor accepts |
| Mfa.SessionAggregate.StepUp | src/pyiamkit/authentication/domain/session.py:188-218 | the in-place step-up, with its refusals |
| Mfa.SessionAggregate.Touch | src/pyiamkit/authentication/domain/session.py:179-186 | activity on a live session, forwards in time only |
| Mfa.SessionAggregate.Revoke | src/pyiamkit/authentication/domain/session.py:220-229 | an active session is revoked |
| Mfa.SessionAggregate.Expire | src/pyiamkit/authentication/domain/session.py:231-239 | an active session past its expiry expires |
| MfaService.MfaApplicationService.StepUpTotpSession | src/pyiamkit/authentication/mfa.py:158-205 | checks, code, factor, old session and new session in that order compute the specified call |
| MfaService.MfaApplicationService.ConfirmTotpEnrollment | src/pyiamkit/authentication/mfa.py:130-142 | the steps compute the specified call |
| MfaService.MfaApplicationService.VerifyTotp | src/pyiamkit/authentication/mfa.py:144-156 | the steps compute the specified call |
| MfaService.MfaApplicationService.RevokeFactor | src/pyiamkit/authentication/mfa.py:207-212 | the factor is revoked and its secret deleted |
| Outbox.SelectedExact | src/pyiamkit/audit/adapters/memory.py:52-83 | a batch is the earliest deliverable events, oldest first and then by identifier, each once, as many as the limit allows |
| Outbox.BatchExact | src/pyiamkit/audit/publisher.py:39-66 | every transport call is one attempt on record; what was taken is no longer deliverable, what failed still is |
| Outbox.BatchWrites | src/pyiamkit/audit/outbox.py:97-119 | event by event what a batch leaves: one attempt more and published at the time noted, or failed; every other event as it was |
| Outbox.Drains | src/pyiamkit/audit/publisher.py:39-66 | k batches of limit L with an accepting transport leave exactly max(0, n - k * L) deliverable |
| Outbox.RunConserves | src/pyiamkit/audit/outbox.py:97-119 | over every run of arrivals and batches, attempts grow by exactly the calls made and published events never change |
| Outbox.PublishedNeverSentAgain | src/pyiamkit/audit/outbox.py:91-107 | what is published is never selected again |
| Outbox.FailingHeadBlocks | src/pyiamkit/audit/adapters/memory.py:80-83 | a transport that keeps failing on the earliest events makes every batch select those again |
| OutboxPublisher.InMemoryOutboxRepository.Mark | src/pyiamkit/audit/adapters/memory.py:57-69 | one event changes, in the list and in the index, or the mark is refused |
| OutboxPublisher.InMemoryOutboxRepository.Replace | src/pyiamkit/audit/adapters/memory.py:71-78 | the first event of the identifier is replaced in place; an inconsistent index is reported |
| OutboxPublisher.InMemoryOutboxRepository.Append | src/pyiamkit/audit/adapters/memory.py:38-42 | a new identifier is appended to both; a known one is refused |
| OutboxPublisher.Publisher.Deliver | src/pyiamkit/audit/publisher.py:47-59 | the mark after a transport call never fails, and the clock is read only for what was accepted |
| OutboxPublisher.Publisher.PublishBatch | src/pyiamkit/audit/publisher.py:39-66 | the transport is called once per selected event in order, the repository ends as its answers and the clock say, the counts add up, and the failed identifiers are those not accepted |

## Left out

- Coherence.CacheCoherence: assumes that every eventless save is safe; SilentSaveBreaksCoherence shows that the services can make others, and SafeCopyExact and SafeLifecycleExact that the assumption cannot be weakened.
- Coherence.EvaluatedDecisionIsCurrent: in the presence of eventless saves that are safe but not idle it speaks of ALLOW only; such a save may make a current denial out of date, and denials are never cached by default.
- Coherence: the registry's markers are verdicts there, and are related to the repositories only in the sequential model.
- RuntimeObjects.DistributedRuntime.Authorize: between its steps only session events occur; saves and bumps in the middle of a call are the subject of Coherence.
- Deployments.Deployment.Operate: jobs follow one another, each as a whole; their interleaving is the subject of Coherence.
- RedisRegistry.ScriptAgreesExactly: the order of an unversioned marker is its exact microsecond; the program's floating-point rounding of it is not modelled.
- ScimFilter.FilterRoundTrip: keywords are matched without regard to ASCII case only.
- FilterTheorems.DecodeExact: the escape of half a character, without its other half, is refused; it stands for no character of the model's text.
- ScimRuns.RunKeepsTended: user names, paths and e-mail domains are folded over ASCII letters.
- Totp.PyOtpTotpProvider.Verify: codes are a function of secret and counter, and Unicode's digits and normalisation are functions it is given.
- The cache key is the request without its correlation identifier: the digest counts as injective, and resource attributes are restricted to null, booleans, integers and text, where the canonical form is exact.
- Numeric constraints have a real maximum; NaN and infinities are not modelled.
- Role names, descriptions, organisations, grant sources, justifications, timestamps of update and event metadata: one-branch facts.
- The expire transitions of bindings and memberships, service accounts and external identity removal: no service in the modelled paths calls them or they add only easy cases.
- ServiceTheorems.PartyCallsExact: does not model the refusal of a taken tenant slug or of an external identity that is already linked; those calls change nothing.
- Tenants and identities are modelled by their lifecycle and, for provisioning, the profile; their transitions are functions and not classes.
- The setters of sensitivity and assignability and Role creation as service objects; their calls are specified in Services.
- SCIM groups, listing and paging, attribute projection and HTTP responses: no invariant spans them.
- The Redis cache adapter, key names, expiry of keys and client errors beyond "the call may fail".
- Session and credential services beyond what step-up uses; OIDC, JWT and password hashing.
- The SQL repositories, web integrations and JSON codecs: plumbing over libraries that are not part of this model.
