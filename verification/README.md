# Verification of the state inspection and session core

A Dafny 4.11 model of the parts of the Terraform MCP server that decide what a client may see: redaction and traversal of resource attributes, the cache of loaded states, the session registries and limiters, comparison paths, resource addresses, toolset flags and README filters. `dafny verify dfyconfig.toml` checks everything.

## Layout

| file | what it models |
|---|---|
| `JsonTree.dfy`, `Sequences.dfy`, `Strings.dfy` | JSON values addressed by steps and paths; concatenated blocks; splitting, joining, trimming, decimal numbers |
| `Redaction.dfy` | both redaction layers as functions on values, and their laws |
| `RedactionHeap.dfy` | the same code on mutable maps and slices (class `Node`), with in-place writes |
| `Resources.dfy` | `ExtractResources`: heap code, value specification, noninterference of a whole state |
| `Address.dfy`, `Diff.dfy`, `Search.dfy`, `DiffPath.dfy` | address printing, state diff and lookup, substring search, path containment |
| `Cache.dfy`, `Loader.dfy` | class `StateCache` with its eviction loops; class `StateLoader`, cache keys |
| `LoaderRuns.dfy`, `Refresh.dfy`, `StoredEntries.dfy`, `SequentialLoads.dfy` | interleaved loads over one cache as a step machine; when a refresh is effective; what is found and served again; a load that nothing overlaps is a run of the machine |
| `RateLimit.dfy` | limiters and middleware as classes; what a bucket lets through; admission bounds for calls one after the other |
| `LimiterRuns.dfy`, `AdmissionRuns.dfy`, `WaitingBounds.dfy`, `StaleBounds.dfy` | racing creations of limiters; overlapping calls through both limiters, with their bounds; runs that reach these bounds |
| `ToolRegistry.dfy`, `RegistryRuns.dfy` | client map and tool registry as classes; overlapping session operations, and the same operations alone |
| `Toolsets.dfy`, `Readme.dfy`, `ReadmeLines.dfy` | flag pipeline and tool enablement; README line filters, and what becomes of each line |

How the classes are read: a heap node carries a ghost footprint (`repr`) and a ghost JSON value (`model`); `Valid` says the node is the root of a tree. Methods are proved to compute the value-level functions, and the laws are proved about those functions. A method without a `modifies` clause changes no object that existed before; `fresh` says its result shares none.

Given from outside, as parameters: the key pattern (`string -> bool`), `%v` printing, lower-casing, case-insensitive comparison of extensions, the outcome of a fetch or of building a client, readings of the clock, and whether an attribute map can be encoded as JSON.

## Where the code differs from its documentation or from a natural reading

- An unparsable path step becomes a key with a NUL prefix. The comment in `redact.go` says such a step is never treated as "nothing to redact" and cannot match a real key. It redacts exactly nothing, unless the tree really has that key (`Redaction.UnparsedStepRedactsNothing`). Steps are read in the form that comment describes, with the bare key or index; an index wrapped in an object with its type is unparsable, so it marks no list element (`Redaction.WrappedIndexRedactsNothing`).
- `tf_refresh_cache` promises that the next call fetches fresh data. It trims its arguments and fills in no default organization, while `Load` does the opposite (`Loader.RefreshReachesLoad`), and a load that has fetched but not yet stored can put its older state back: at every moment, a refresh may be missed iff there is such a load (`Refresh.RefreshMissedIffOvertaken`).
- Cache entries are partitioned per session by a key built with ':' and '/'. Sessions are kept apart whenever no identity has a ':', whatever the organizations are (`LoaderRuns.SessionIsolation`), and an identity with a ':' shares a key with another identity (`Loader.IdentityUnsharedIff`). Organizations and workspaces of one session are kept apart when no organization has a '/' (`LoaderRuns.ScopeIsolation`, `Loader.WellFormedIffKeyUnshared`). A load of a session can be answered with a state fetched for another scope exactly when the two share a key (`LoaderRuns.CrossesIffKeyShared`).
- Freshness is counted from the moment of storing, so an answer from the cache may have been fetched a TTL ago or more. If no state is stored more than `d` after its fetch, cached answers are younger than the TTL plus `d`, counted from the fetch, and no smaller bound holds; the TTL itself bounds that age in all such runs iff `d` is zero (`LoaderRuns.FetchAgeBound`, `LoaderRuns.FetchAgeReached`, `LoaderRuns.FetchAgeExact`).
- The eviction scan uses the empty key as its "none yet" mark, so the size bound needs that key to stay out (`Cache.EmptyKeyOverflows`); the loader never produces it (`Loader.CacheKeyIsNeverEmpty`).
- String index keys are printed unescaped. Addresses are unique except that a managed resource of type "module" with a string key can spell an instance inside a module call (`Address.ModuleTypeCollides`).
- A lookup that found an expired entry deletes by key under a later lock, so it can drop a newer, fresh entry (`LoaderRuns.LateDeleteDropsFresh`, from states that runs do reach: `LoaderRuns.LateDeleteArises`).
- Each cleanup that drops a session inside the window adds one burst to what the session may send (`RateLimit.SessionAdmissionBound`), and that bound is reached (`RateLimit.CleanupRefills`). Nothing in the repository calls `CleanupSessions`.
- When calls overlap, a call can wait between the global limiter and its session's. Calls reaching a handler in a window are then bounded by the global burst plus rate times window plus the calls waiting when it began (`AdmissionRuns.OverlappingGlobalBound`), and for every number of waiting calls no smaller constant will do (`WaitingBounds.WaitingExact`). In the same way, with no limiter of the session removed in the window, its forwarded calls are bounded by its burst plus rate times window plus its calls that held a limiter removed before (`AdmissionRuns.OverlappingSessionBound`), and no smaller constant will do (`StaleBounds.StaleExact`).
- A session can be left registered without a client, and its calls are let through then (`ToolRegistry.DynamicToolRegistry.CheckAvailability`). What leads there is a clash: a session end about to delete the client while a start or a call of the session is about to register it. As long as no state had a clash over a session, it is consistent, however else its operations overlap (`RegistryRuns.RegisteredHaveClients`); then two steps can break consistency iff there is a clash (`RegistryRuns.CanBreakIffClash`), and runs do get there (`RegistryRuns.OvertakenRegistration`, `RegistryRuns.RegistrationUnderWay`).
- A toolset flag equal to the internal marker switches to individual mode (`Toolsets.EnabledByToolsets`).

## Model

| member | source | states |
|---|---|---|
| Redaction.PathRoundTrip | pkg/tools/state/redact.go:40-75 | a path in the documented step form is read back exactly; a legacy flat key reads as the path of that key |
| Redaction.ListedIsMasked | pkg/tools/state/redact.go:40-107 | a value listed by bare keys and numbers, or by objects whose "value" is one whatever their "type" says, is masked; a flat key masks the top-level value of that name |
| Redaction.ListedIsHidden | pkg/tools/state/redact.go:21-141 | among any other listed paths and under any pattern, a marker stands at a listed value or on the way to it |
| Redaction.NoStepsMaskNothing | pkg/tools/state/redact.go:29-55 | an entry that is an empty key, an empty list, or neither text nor list masks nothing |
| Redaction.SetAtEffect | pkg/tools/state/redact.go:78-107 | a write is visible iff the path leads to a value other than the marker; missing keys, bad indexes and scalars on the way are left alone |
| Redaction.UnparsedStepRedactsNothing | pkg/tools/state/redact.go:57-75 | a path with an unparsable step changes nothing unless the sentinel key exists at that place |
| Redaction.WrappedIndexRedactsNothing | pkg/tools/state/redact.go:57-75 | an index step wrapped in an object with its type is unparsable, and a path through it into a list changes nothing |
| Redaction.SetAtAddsPath | pkg/tools/state/redact.go:78-107 | writing along one more path equals masking the set of paths with that path added |
| Redaction.ManifestIsRedactAll | pkg/tools/state/redact.go:29-34 | the sequence of in-place writes equals masking all listed positions at once |
| Redaction.ManifestOrderIndependent | pkg/tools/state/redact.go:29-34 | order, repeats and prefixes among the listed paths do not matter |
| Redaction.ManifestComposes | pkg/tools/state/redact.go:29-34 | redacting twice by two lists is redacting once by both |
| Redaction.ManifestIdempotent | pkg/tools/state/redact.go:21-36 | redacting again by the same list changes nothing |
| Redaction.PatternIdempotent | pkg/tools/state/redact.go:111-141 | pattern redaction is idempotent |
| Redaction.PatternMatchingNothing | pkg/tools/state/redact.go:111-141 | without a matching key nothing changes |
| Redaction.UnmaskedLookup | pkg/tools/state/redact.go:21-141 | a path crossing no listed position and no matching key finds the same scalar or container shape after both layers |
| Redaction.MaskedLookup | pkg/tools/state/redact.go:21-141 | the first masked position on any path holds the right one of the two markers, with nothing below it |
| Redaction.Noninterference | pkg/tools/state/redact.go:21-141 | two trees redact to the same tree iff they differ only below listed paths and matching keys, a literal marker matching only itself |
| RedactionHeap.Node.Store | pkg/tools/state/redact.go:93-103 | an assignment to one entry of a map or slice changes that entry alone and keeps the tree a tree |
| RedactionHeap.SetAtPath | pkg/tools/state/redact.go:78-107 | the in-place write modifies only the tree's own containers and has exactly the value-level effect |
| RedactionHeap.DeepCopyValue | pkg/tools/state/redact.go:146-159 | the copy has the same value and only new containers |
| RedactionHeap.DeepCopyMap | pkg/tools/state/redact.go:146-159 | nil stays nil, failure is reported and nothing is returned, success is a fresh copy |
| RedactionHeap.RedactSensitiveAttrs | pkg/tools/state/redact.go:21-36 | a fresh tree equal to the source redacted by its manifest; the source is unchanged |
| RedactionHeap.ApplyPatternRedaction | pkg/tools/state/redact.go:111-124 | a fresh map equal to the pattern-redacted source, also for a nil map |
| RedactionHeap.RedactValue | pkg/tools/state/redact.go:128-141 | a fresh value equal to the pattern-redacted source, through maps and slices |
| Resources.RedactedAttributes | pkg/tools/state/resources.go:19-25 | both layers and the fail-closed placeholder, on new containers only |
| Resources.ExtractBlock | pkg/tools/state/resources.go:18-50 | the inner loop appends the instances of one block, redacted, on new containers |
| Resources.ExtractResources | pkg/tools/state/resources.go:15-52 | the result is the specification's list; no container of the state changes and none is shared with the result |
| Resources.ExtractedInStateOrder | pkg/tools/state/resources.go:17-51 | one resource per instance in state order, with its own metadata, address and attributes redacted by its own paths |
| Resources.AttributesNoninterference | pkg/tools/state/resources.go:19-25 | the redacted attributes of an instance are equal iff the originals are alike, including nil maps and failed copies |
| Resources.StateNoninterference | pkg/tools/state/resources.go:15-52 | two states with the same skeleton extract to the same list iff they are alike at every instance |
| Address.AddressReads | pkg/tools/state/resources.go:54-69 | type and name joined by a dot, "data." before a data source, a string key in brackets and quotes |
| Address.ModuleInFront | pkg/tools/state/resources.go:55-58 | a module path comes first, with a dot |
| Address.IndexReads | pkg/tools/state/resources.go:66-71 | a whole-number index is printed in brackets as the decimal numeral that reads back as it |
| Address.AddressInjective | pkg/tools/state/resources.go:54-74 | well-formed instances, also in keyed modules, have equal addresses iff they are equal |
| Address.ModuleTypeCollides | pkg/tools/state/resources.go:66-69 | every instance with a string key, at any depth inside a string-keyed module call, shares its address with some managed resource of type "module" |
| Diff.DiffAttrs | pkg/tools/state/diff_state.go:158-175 | the loops over both key sets report every key that reads differently, with both values |
| Diff.ChangesArePatch | pkg/tools/state/diff_state.go:158-175 | the after values patch before into after and the before values undo it, key by key, null read as absent; nothing superfluous is reported |
| Diff.SwapReverses | pkg/tools/state/diff_state.go:158-175 | swapping the arguments swaps every pair |
| Diff.ResourceIndex | pkg/tools/state/diff_state.go:149-155 | the loop builds the index in which later entries win |
| Diff.IndexHoldsLast | pkg/tools/state/diff_state.go:149-155 | the index holds the last resource with each address |
| Diff.FindResource | pkg/tools/state/get_resource.go:60-70 | the scan finds the first resource with the address, or none exists |
| Diff.ScanAgreesWithIndex | pkg/tools/state/get_resource.go:60-70 | scan and index agree when no address repeats |
| Diff.RepeatsDisagree | pkg/tools/state/diff_state.go:149-155 | with repeats they agree on an address iff its first and last resources are equal |
| Diff.WellNamedStatesHaveDistinctAddresses | pkg/tools/state/resources.go:54-74 | a state of pairwise different well-formed instances extracts to distinct addresses |
| Diff.Missing | pkg/tools/state/diff_state.go:90-99 | the added and removed loops list exactly the missing addresses, each once |
| Diff.DiffStates | pkg/tools/state/diff_state.go:90-116 | added, removed and changed are exactly those addresses, each once, with the attribute changes |
| Diff.ReportedIffAttributesDiffer | pkg/tools/state/diff_state.go:102-116 | a resource of both states is reported iff some attribute of any kind reads differently, absent as null, with exactly those attributes and both values; no attributes count as the empty map |
| Diff.DiffPartitions | pkg/tools/state/diff_state.go:90-116 | every address is in exactly one of added, removed, changed and unreported, by what the two states hold |
| Diff.DiffCounts | pkg/tools/state/diff_state.go:132-136 | other = current - removed + added |
| Search.SearchAttrs | pkg/tools/state/search_attributes.go:105-113 | the loop over a map keeps the matching part of each entry that has one |
| Search.SearchValue | pkg/tools/state/search_attributes.go:118-145 | the loops compute the matching part of a value |
| Search.FoundIgnoringCase | pkg/tools/state/search_attributes.go:118-144 | a text is found iff its lower-cased form holds the query, a number or truth value iff its lower-cased printed form does, and returned as it was |
| Search.SearchIsLeafFilter | pkg/tools/state/search_attributes.go:105-145 | along every route of map keys and array levels the result has exactly the matching leaves, in order |
| Search.NoMatchIffNoHit | pkg/tools/state/search_attributes.go:105-145 | nothing is returned iff no non-null leaf matches |
| Search.SearchIdempotent | pkg/tools/state/search_attributes.go:105-145 | searching a result again returns it unchanged |
| DiffPath.AcceptsExactlyContained | pkg/tools/state/diff_state.go:181-210 | accepted iff the extension fits and the cleaned path extends the base directory segment by segment |
| DiffPath.ReturnedPathLeadsBack | pkg/tools/state/diff_state.go:181-210 | the returned relative path is the rest of the cleaned path below the base, "." if nothing; joined with the base it is the cleaned path, and it is not absolute and has no ".." segment |
| DiffPath.CleanRules | pkg/tools/state/diff_state.go:190-195 | cleaning leaves out empty segments and ".", and cancels a name with the ".." after it |
| DiffPath.CleanAtRoot | pkg/tools/state/diff_state.go:190-195 | ".." disappears at the root, and a clean path stays as it is |
| DiffPath.UpsAndNames | pkg/tools/state/diff_state.go:190-195 | a relative path of n ".." and then names drops n segments of its directory, or all, and adds the names |
| DiffPath.AbsoluteIsItself | pkg/tools/state/diff_state.go:190-192 | an absolute path does not depend on the base directory |
| DiffPath.ClimbsAreChecked | pkg/tools/state/diff_state.go:181-210 | such a climbing path is accepted iff its names lead back through the dropped segments and the extension fits |
| DiffPath.ExtOfLast | pkg/tools/state/diff_state.go:197-200 | the extension is the text from the last dot of the last segment on, or empty |
| DiffPath.PlainNamesAreInside | pkg/tools/state/diff_state.go:202-204 | a single ordinary name, also one starting with two dots, is inside and accepted iff its extension fits |
| Cache.StateCache.Get | pkg/tools/state/loader.go:58-72 | an entry is served iff younger than the TTL; an expired one is deleted |
| Cache.StateCache.Put | pkg/tools/state/loader.go:74-100 | the map after a put: room, expired entries dropped, or one oldest entry evicted |
| Cache.StateCache.DropExpired | pkg/tools/state/loader.go:79-83 | exactly the expired entries are removed |
| Cache.StateCache.DropOldest | pkg/tools/state/loader.go:84-96 | an entry of least load time is removed, at most one |
| Cache.StateCache.Invalidate | pkg/tools/state/loader.go:102-106 | exactly the key is removed |
| Cache.PutBounded | pkg/tools/state/loader.go:74-100 | the size never exceeds the capacity |
| Cache.PutFrame | pkg/tools/state/loader.go:74-100 | other entries are unchanged or gone; gone are only expired ones and at most one more, no younger than any left; nothing goes while there is room, nothing expired stays when there is none, and nothing fresh goes while the fresh entries alone leave room |
| Cache.EmptyKeyOverflows | pkg/tools/state/loader.go:87-96 | a cache of capacity one holding the empty key always overflows |
| Loader.CacheKeyIsNeverEmpty | pkg/tools/state/loader.go:205-212 | no cache key is the empty string |
| Loader.KeyInjective | pkg/tools/state/loader.go:205-212 | well-formed scopes share a key iff they are equal |
| Loader.WellFormedIffKeyUnshared | pkg/tools/state/loader.go:205-212 | a scope is well formed iff no other well-formed scope has its key |
| Loader.KeyNamesIdentity | pkg/tools/state/loader.go:205-212 | scopes whose identities have no ':' share a key iff identity and the text "organization/workspace" are equal |
| Loader.IdentityUnsharedIff | pkg/tools/state/loader.go:205-212 | the identity of a scope has no ':' iff no scope of another identity without ":" has this scope's key |
| Loader.StateLoader.Load | pkg/tools/state/loader.go:217-255 | rejected iff the backend is tfc and the workspace or all of organization, TF_CLOUD_ORG and TFE_ORG are empty; otherwise served from a fresh entry of the caller's own key (never without a session), or fetched, stored and returned, under the given organization, else TF_CLOUD_ORG, else TFE_ORG; one fixed key for other backends |
| Loader.StateLoader.RefreshCache | pkg/tools/state/refresh_cache.go:39-46 | exactly the entry under the refresh key is removed |
| Loader.RefreshReachesLoad | pkg/tools/state/loader.go:259-265 | for all arguments, the refresh key is the load key iff the workspace needs no trimming and the trimmed organization is the one loaded, that is, given and trimmed already, or absent everywhere |
| LoaderRuns.LatestIsLastStored | pkg/tools/state/loader.go:99-106 | what the lossless reference map holds was stored, with no later event on its key |
| LoaderRuns.EntriesPreserved | pkg/tools/state/loader.go:58-106 | every step keeps the cache a bounded, lossy view of the reference map |
| LoaderRuns.RunInvariant | pkg/tools/state/loader.go:58-255 | the invariant holds in every state of every run |
| LoaderRuns.AnswersRefineLossyMap | pkg/tools/state/loader.go:58-255 | every answer is the load's own fetch for its scope, or the entry last stored under its key when read, not invalidated since, younger than the TTL when checked, and only with a session |
| LoaderRuns.SessionIsolation | pkg/tools/state/loader.go:205-255 | if no identity asked for has a ':', no answer was fetched for another identity, whatever the organizations |
| LoaderRuns.ScopeIsolation | pkg/tools/state/loader.go:205-255 | if no organization has a '/' either, no answer was fetched for another organization or workspace |
| LoaderRuns.CrossesIffKeyShared | pkg/tools/state/loader.go:205-255 | some run answers a load for one scope with a state fetched for another iff the reader has a session and the two share a key |
| LoaderRuns.FetchAgeBound | pkg/tools/state/loader.go:58-106 | if no state is stored more than d after its fetch, cached answers are younger than the TTL plus d, counted from the fetch |
| LoaderRuns.FetchAgeReached | pkg/tools/state/loader.go:58-106 | that bound is reached for every d and every scope with a session |
| LoaderRuns.FetchAgeExact | pkg/tools/state/loader.go:58-106 | TTL plus d is the least bound, and the TTL bounds the age since the fetch in all such runs iff d is zero |
| LoaderRuns.BoundedInEveryRun | pkg/tools/state/loader.go:74-100 | the capacity bound holds in every state of every run |
| LoaderRuns.LossCauses | pkg/tools/state/loader.go:58-106 | an entry is lost only by invalidation, by the late delete of a load whose own reading of the key has expired, or by eviction from a full cache, oldest first |
| StoredEntries.StoredIsFound | pkg/tools/state/loader.go:58-106 | a read finds the entry stored under its key unless a store or invalidation of the key, a late delete of it, or a store into a full cache came between |
| StoredEntries.StoredIsServed | pkg/tools/state/loader.go:58-106 | and the load then serves it exactly when it is younger than the TTL at its check |
| LoaderRuns.LateDeleteDropsFresh | pkg/tools/state/loader.go:66-70 | every run with a load about to delete can go on so that a newer entry is stored first and the delete drops it |
| LoaderRuns.LateDeleteArises | pkg/tools/state/loader.go:58-72 | from the start, for every scope with a session, a run leads to a load about to delete |
| SequentialLoads.LoadIsARun | pkg/tools/state/loader.go:217-255 | a load as the contract of the method Load describes it is a run of the machine moving this load alone, with the same answer and cache |
| Refresh.RefreshIsEffective | pkg/tools/state/refresh_cache.go:39-56 | if no load of the key has fetched earlier and is yet to store, every later load of the key is answered with a state fetched no earlier than the refresh |
| Refresh.OvertakenRefreshFails | pkg/tools/state/refresh_cache.go:39-56 | every run with such a load can go on so that a later load is answered with the older state |
| Refresh.OvertakingArises | pkg/tools/state/loader.go:250-254 | from the start, for every scope, a run leads to such a load |
| Refresh.RefreshMissedIffOvertaken | pkg/tools/state/refresh_cache.go:39-56 | at every moment of every run, a refresh made now may be missed by a later load iff such a load is under way |
| RateLimit.AllowedIffWindowsPermit | pkg/client/ratelimit.go:134-147 | the token-bucket contract: a call is let through iff every window since an admitted call then still holds at most burst plus rate times window calls |
| RateLimit.RateLimitMiddleware.GetSessionLimiter | pkg/client/ratelimit.go:105-125 | the session's own limiter, created full on first use |
| RateLimit.RateLimitMiddleware.Admit | pkg/client/ratelimit.go:128-152 | forwarded iff both limiters allow, each at its own reading of the clock; the global token is spent even if the session refuses; without a session, the global limiter alone decides |
| RateLimit.RateLimitMiddleware.CleanupSessions | pkg/client/ratelimit.go:165-180 | exactly the active sessions' limiters stay, unchanged |
| RateLimit.GlobalAllowance | pkg/client/ratelimit.go:128-152 | forwarded calls never exceed what the global bucket can still let through |
| RateLimit.GlobalAdmissionBound | pkg/client/ratelimit.go:95-152 | for calls one after the other, cleanups between them, at most global burst plus rate times window are forwarded in any window |
| RateLimit.SessionAdmissionBound | pkg/client/ratelimit.go:105-152 | for calls one after the other, at most rate times window plus burst per session, and one burst more for every cleanup in the window that drops it |
| RateLimit.CleanupRefills | pkg/client/ratelimit.go:165-180 | that bound is reached, for every configuration and every number of drops the global burst has room for |
| LimiterRuns.Preserved | pkg/client/ratelimit.go:105-180 | every step of racing lookups and cleanups keeps the limiter invariant |
| LimiterRuns.CleanupIsExact | pkg/client/ratelimit.go:165-180 | a cleanup takes away exactly the limiters of inactive sessions |
| LimiterRuns.OneLimiterPerEpoch | pkg/client/ratelimit.go:105-125 | between removals of a session at most one limiter is created for it |
| LimiterRuns.CallersShareLimiter | pkg/client/ratelimit.go:105-125 | all lookups ending between two removals get the same limiter, the one in the map |
| AdmissionRuns.OverlappingGlobalBound | pkg/client/ratelimit.go:128-152 | in any window of any interleaving at most global burst plus rate times window calls pass the global limiter, and as many plus those waiting at its begin reach a handler |
| AdmissionRuns.EpochAdmissionBound | pkg/client/ratelimit.go:105-152 | in any window of any interleaving at most session burst plus rate times window calls are forwarded per session between two removals of its limiter |
| AdmissionRuns.OverlappingSessionBound | pkg/client/ratelimit.go:105-180 | per session: that much for each limiter it has in the window, and one call for each that held a removed limiter when the window began |
| WaitingBounds.WaitingCounts | pkg/client/ratelimit.go:128-152 | with n calls waiting, the global burst and n more can reach a handler at a single moment, for every n and with no limiter ever removed |
| WaitingBounds.WaitingExact | pkg/client/ratelimit.go:128-152 | global burst plus n is the least constant that, with rate times window, bounds the calls reaching a handler in windows that begin with n waiting |
| StaleBounds.StaleCounts | pkg/client/ratelimit.go:105-180 | with n calls holding limiters removed before, the session's burst and n more of its calls can be forwarded at a single moment, no limiter being removed in it |
| StaleBounds.StaleExact | pkg/client/ratelimit.go:105-180 | session burst plus n is the least constant for windows without removals that begin with n such calls |
| AdmissionRuns.CallAlone | pkg/client/ratelimit.go:105-152 | a call that nothing overlaps does in the machine what the contract of Admit says, with the same outcome |
| ToolRegistry.TfeClients.FromContext | pkg/client/tfe_client.go:86-100 | an existing client is returned, otherwise one is created and stored |
| ToolRegistry.DynamicToolRegistry.RegisterSessionWithTFE | pkg/tools/dynamic_tool.go:52-63 | any session is registered and the tools mounted if they were not; the registry is consistent afterwards iff it was and the session has a client |
| ToolRegistry.DynamicToolRegistry.NewSession | pkg/client/session.go:17-41 | a session without a client gets one and is registered; one with a client is left alone |
| ToolRegistry.DynamicToolRegistry.EndSession | pkg/client/session.go:44-53 | registration and client are removed and calls of the session refused, the tools stay mounted |
| ToolRegistry.DynamicToolRegistry.CheckAvailability | pkg/tools/dynamic_tool.go:336-364 | a call proceeds iff its session is registered or has a client, and is then registered; in a consistent registry, iff it has a client |
| RegistryRuns.ToolsMountedOnce | pkg/tools/dynamic_tool.go:52-63 | in every interleaving the tools are mounted at most once and stay mounted |
| RegistryRuns.RegisteredHaveClients | pkg/client/session.go:17-53 | while no end of the session was about to delete its client with a registration of it pending, the session has a client whenever it is registered, in every state |
| RegistryRuns.ClashBreaks | pkg/client/session.go:44-53 | from every state with such a clash, both orders of the two steps leave the session registered without a client |
| RegistryRuns.CanBreakIffClash | pkg/tools/dynamic_tool.go:344-358 | in every run without earlier clashes over the session, two steps can leave it registered without a client iff the last state has a clash |
| RegistryRuns.CallsFollowClients | pkg/tools/dynamic_tool.go:336-364 | without earlier clashes over its session, a call is let through iff the session has a client at the deciding step |
| RegistryRuns.EndLeavesGone | pkg/client/session.go:44-53 | without earlier clashes over the session, the deleting step leaves neither client, registration nor pending registration iff it does not clash |
| RegistryRuns.GoneStaysRefused | pkg/tools/dynamic_tool.go:336-364 | after that no call is let through until a client is created for the session again |
| RegistryRuns.OvertakenRegistration | pkg/tools/dynamic_tool.go:344-358 | every run with a registration under way can go on so that an end overtakes it and leaves the session registered without a client, its next call let through |
| RegistryRuns.RegistrationUnderWay | pkg/client/session.go:17-41 | from the start, for every session, a run leads to such a registration |
| RegistryRuns.StartAlone | pkg/client/session.go:17-41 | a session start that nothing overlaps does in the machine what the contract of NewSession says |
| RegistryRuns.EndAlone | pkg/client/session.go:44-53 | the same for a session end |
| RegistryRuns.CallAlone | pkg/tools/dynamic_tool.go:336-364 | the same for a tool call, with its answer |
| Toolsets.CleanToolsets | pkg/toolsets/toolsets.go:80-101 | the distinct trimmed non-blank entries in order, and those that are no valid name |
| Toolsets.ExpandDefaultToolset | pkg/toolsets/toolsets.go:103-132 | "default" is replaced by the default toolset, once |
| Toolsets.ContainsToolset | pkg/toolsets/toolsets.go:135-142 | membership |
| Toolsets.ParseIndividualTools | pkg/toolsets/mapping.go:91-113 | the distinct trimmed entries, split by whether they are known tools |
| Toolsets.CleanedInOrder | pkg/toolsets/toolsets.go:80-101 | cleaned entries come in the order in which they are first named |
| Toolsets.ExpandedForm | pkg/toolsets/toolsets.go:103-132 | "default" is taken out where it stands, and "registry" comes last if it is not there yet |
| Toolsets.PipelineContents | pkg/toolsets/toolsets.go:80-132 | clean then expand yields exactly the named entries, each once, without "default" |
| Toolsets.PipelineIdempotent | pkg/toolsets/toolsets.go:80-132 | clean then expand is idempotent |
| Toolsets.EnabledByToolsets | pkg/toolsets/mapping.go:125-144 | a known tool is enabled iff "all", its toolset or a "default" covering it is named, or it is named itself together with the internal marker |
| Toolsets.EnabledIndividually | cmd/terraform-mcp-server/main.go:205-222 | in individual mode a known tool is enabled iff it appears trimmed; a list without known tools means the default toolset |
| Readme.RemoveReadmeSections | pkg/tools/tfe/get_private_module_details.go:263-292 | line i is kept iff the last header at or before it is not a removable one; then newlines are collapsed and the text trimmed |
| ReadmeLines.RemovableMeans | pkg/tools/tfe/get_private_module_details.go:268-275 | a line starts a removed section iff, trimmed and lower-cased, it begins with "##" and holds inputs, outputs, dependencies or resources |
| ReadmeLines.KeptIffOutside | pkg/tools/tfe/get_private_module_details.go:268-285 | a line is kept, in its place, iff a header that is not removable stands between it and any removable one before it |
| ReadmeLines.CollapseRun | pkg/tools/tfe/get_private_module_details.go:288-289 | runs of newlines are cut to two and everything else stays |
| ReadmeLines.OtherLinesRemain | pkg/tools/tfe/get_private_module_details.go:263-292 | every such line that is not blank is, up to white space, a line of the result |
| Readme.SectionsRemovedOnce | pkg/tools/tfe/get_private_module_details.go:263-292 | no removable header is left, and removing again changes nothing |
| Readme.ExtractReadme | pkg/utils/utils.go:86-108 | the result is the longest line-prefix with at most one header |
| ReadmeLines.ExtractedMeans | pkg/utils/utils.go:86-108 | at most one line taken starts with "#"; if lines are left out, the first of them does and so does one taken |
| Readme.ExtractedOnce | pkg/utils/utils.go:86-108 | extracting again changes nothing |

## Left out

- Reading the next state: files, subprocesses, HTTP, `os.OpenRoot` and symlinks. A fetch is a parameter that succeeds with a state or fails.
- JSON text itself: attributes are decoded values, and numbers are reals, so overflow in `int(float64)` is not modelled.
- The search handler's filter by resource type, the output and summary tools, and the other formatting handlers: they filter or print the extracted list.
- Sharing of `sensitive_attributes` and `dependencies` lists between a state and its extraction: nothing writes them, and they are values here.
- Search and diff run over JSON values, not over heap nodes, because they only read the extracted trees; that their results alias those trees is not captured.
- RateLimit.AllowedIffWindowsPermit: the bucket of golang.org/x/time/rate is a stand-in over reals. A limiter reads the clock and updates its bucket in one step; infinite limits, and readings that reach the bucket out of order, are not modelled.
- RateLimit.SessionAdmissionBound: calls one after the other; overlapping calls are those of `AdmissionRuns`.
- HTTP clients of a session: no decision depends on them.
- Diff.WellNamedStatesHaveDistinctAddresses: index keys are strings or integers; other JSON index keys and deposed instances are not named.
- DiffPath.AcceptsExactlyContained: Unix paths only; `Clean`, `Join`, `Abs` and `Rel` are written over segments instead of bytes.
- LoaderRuns.AnswersRefineLossyMap: runs use the tfc backend, with scopes after defaults are filled in; the other backends have a single key.
- The table of tool names: a parameter with the properties the proofs need.
- Environment variables other than the two default organizations, logging and metrics.
