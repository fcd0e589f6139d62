# Security validation pipeline: a Dafny model

This project models the validation pipeline of `security_test/validate`. A
fetcher produces request objects, which are base64-encoded YAML documents
named after a resource or a focus-component category. The validator submits
each object to the remote validation service, and then polls the resulting
long-running operations in FIFO order, once per second, for at most two hours.
The default result handler deduplicates each result's violations, filters them
(a pass-through), and splits them into recorded and reported violations
using the allowlist. The run fails when anything is reported.

Module by source file:

| module | source file | flavour |
|---|---|---|
| `Types` | shared records (`RequestObject`, `ResultObject`, `v1.Violation`) | data |
| `Utils` | `utils.go` | pure |
| `Seqs` | (helpers: order-preserving filter, distinctness) | pure |
| `Allowlist` | `allowlist.go` | mixed |
| `FocusComponents` | `focusComponentConfigurator.go` | imperative: a load-once cache object |
| `Report` | `report.go` | mixed: loops over maps specified by functions |
| `Validate` | `validate.go` | imperative: submit loop and poll loop |
| `ClusterFetcher` | `clusterFetcher.go` (request building, item loop, discovery) | mixed |
| `StaticFetcher` | `staticFetcher.go` (`extractYamlFromPlan`) | mixed |

How the model represents the source:

- **External calls.** The validation service is an oracle. `submit(i, content)` answers the i-th
  `ValidateResource` call. `replies[t]` is what the t-th call of the polling
  condition learns about the head of the queue. The length of `replies` is the
  number of condition calls that the 120-minute deadline allows. It is at most
  `MaxTicks` = 7201: one immediate call, then one per second.
- **Map iteration order.** Go's unspecified map order is an arbitrary choice (`:|`) in the method
  loops. The contracts are therefore stated over sets and multisets, or over a
  ghost record of the order that was actually visited.
- **Nil pointers.** A nilable `*v1.Violation` is `Option<Violation>` (`ViolationRef`), but only where the
  source handles nil (`FetchResourceKey`, the allowlist). A violation's
  `ResourceKey` is an `Option<ResourceKey>`.
- **Regular expressions and base64.** A regular expression is a `RegexEngine` value: one predicate says whether a
  pattern compiles, one whether it matches. Base64 data is the symbolic
  `Base64Of(raw)`; only its length, `EncodedLen(n) = 4 * ceil(n / 3)`, enters
  the size gate.
- **Text and bytes.** A YAML text is a `string`, and the model counts one character per byte:
  Go's `len` on a string counts UTF-8 bytes, so the size gate is exact for ASCII
  text and the model measures a non-ASCII text by its characters instead.
- **The poll loop.** It is modelled as written, except for the two points listed
  under "Left out" (`Validate.Tick`, `Validate.ScanViolation`). A finished operation whose
  response does not decode still yields a result object, with no violations
  (line 90 tests the validator receiver `v`, which is never nil, rather than the
  decode error). An operation that finished with an error yields none. When the poll deadline
  passes, `scanViolation` returns the results collected so far together with
  the timeout error. `Validate` then fails with a client error.
- **The package-level cache.** The focus-component cache (`focusComponentMap`, its `sync.Once` and its
  stored load error) is the class `FocusComponentCache`. Only the first
  call's path is ever loaded. A load error is `fatal` (`log.Fatalf`).

## Model

| member | source | states |
|---|---|---|
| `Types.EncodedLen` | security_test/validate/clusterFetcher.go:275 | the base64 length is a multiple of 4 and lies between 4n/3 and 4n/3 + 4 |
| `Utils.FetchResourceKey` | security_test/validate/utils.go:45-52 | the key is empty exactly for a nil violation or a nil resource key; otherwise it starts with "policyName: " |
| `Utils.KeyOf` | security_test/validate/utils.go:45-52 | for a non-nil violation, the key is empty exactly when the resource key is nil |
| `Utils.KeyIgnoresMessage` | security_test/validate/utils.go:49-51 | two violations with the same policy name and resource key have the same key, whatever their messages |
| `Allowlist.FindFocusComponent` | security_test/validate/allowlist.go:15-27 | a found category's pattern compiles and matches the name; nothing is found exactly when no pattern of the map matches; a miss answers "" |
| `Allowlist.LoadedFromJsonFiles` | security_test/validate/allowlist.go:46-58 | every loaded violation comes from a decoded `.json` file (not a directory) of the walk |
| `Allowlist.LoadedStopsAtFailure` | security_test/validate/allowlist.go:46-58 | the walk's first error or undecodable `.json` file ends the loading: nothing after it is loaded |
| `Allowlist.AllowedViolations` | security_test/validate/allowlist.go:43-75 | the result is the concatenation of the decoded `.json` files up to the first failure, and the error result is always nil |
| `Allowlist.WithKeyMembers` | security_test/validate/allowlist.go:36-39 | a key's bucket holds exactly the loaded violations with that key |
| `Allowlist.WithKeyAbsent` | security_test/validate/allowlist.go:36-39 | a key that no violation has gets an empty bucket |
| `Allowlist.BucketsGroupByKey` | security_test/validate/allowlist.go:36-39 | the map's keys are exactly the keys present, and each bucket lists its violations in load order |
| `Allowlist.Loaded` | security_test/validate/allowlist.go:46-59 | a walk with no `.json` file loads nothing |
| `Allowlist.Buckets` | security_test/validate/allowlist.go:36-39 | no bucket is empty: a key is present only if some violation has it |
| `Allowlist.WithKeyCount` | security_test/validate/allowlist.go:36-39 | a bucket holds every copy of each violation with its key, and no copy of any other |
| `Allowlist.BucketsPartition` | security_test/validate/allowlist.go:36-39 | the buckets partition the violations: all copies of a violation lie in its own key's bucket, and no bucket holds a violation with another key, so the bucket sizes add up to the number loaded |
| `Allowlist.AllowedResourceKeysMap` | security_test/validate/allowlist.go:29-41 | the keys of the map are exactly the keys of the loaded violations; each bucket lists its violations in load order; the buckets partition the loaded violations |
| `Allowlist.PurifyViolation` | security_test/validate/allowlist.go:77-79 | the purifier is the identity |
| `Allowlist.ShouldReport` | security_test/validate/allowlist.go:81-84 | a violation is reported exactly when its key is absent from the allowlist map |
| `Allowlist.EmptyAllowlistReportsAll` | security_test/validate/allowlist.go:32-35 | fail-open: with an empty map (for example after a load failure) every violation is reported |
| `Allowlist.AllowlistedNotReported` | security_test/validate/allowlist.go:81-84 | a violation whose key matches that of some loaded allowlist entry is not reported |
| `FocusComponents.Compiled` | security_test/validate/focusComponentConfigurator.go:41-49 | exactly the categories whose patterns compile are kept, each with its own pattern |
| `FocusComponents.LoadError` | security_test/validate/focusComponentConfigurator.go:22-38 | loading fails exactly when the path is non-empty and the file cannot be read or decoded |
| `FocusComponents.LoadedMap` | security_test/validate/focusComponentConfigurator.go:23-26 | an empty path installs the empty map |
| `FocusComponents.FocusComponentCache.constructor` | security_test/validate/focusComponentConfigurator.go:15-19 | the three package variables start at their zero values, with nothing loaded |
| `FocusComponents.FocusComponentCache.LoadFocusComponentMap` | security_test/validate/focusComponentConfigurator.go:22-52 | returns the load error; on success installs the compiled map (empty for an empty path); on failure leaves the map unchanged |
| `FocusComponents.FocusComponentCache.FindFocusComponent` | security_test/validate/focusComponentConfigurator.go:55-79 | only the first call loads, using its own path; later calls reuse that map and that error; a load error is fatal; otherwise the answer is ("", true) for an empty path, or a category whose pattern matches, or ("", false) when none matches |
| `FocusComponents.FirstEmptyPathDisablesScoping` | security_test/validate/focusComponentConfigurator.go:57-78 | if the first lookup passes an empty path, it scans under "", and every later lookup with a real path finds nothing |
| `FocusComponents.PurifyViolation` | security_test/validate/focusComponentConfigurator.go:81-83 | the purifier is the identity |
| `FocusComponents.ShouldReportBasedOnAllowList` | security_test/validate/focusComponentConfigurator.go:85-88 | a violation is reported exactly when its key is absent from the map |
| `Report.Purified` | security_test/validate/report.go:60-61 | purifying keeps the number of violations |
| `Report.KeylessMembers` | security_test/validate/report.go:62-65 | the violations kept without deduplication are input violations with an empty key |
| `Report.EntriesAreStored` | security_test/validate/report.go:67-70 | in a well-keyed map, the stored violations are exactly those that sit under their own key and message |
| `Report.IndexOf` | security_test/validate/report.go:58-72 | nothing is ever stored under the empty key: keyless violations bypass the map |
| `Report.IndexWellKeyed` | security_test/validate/report.go:60-72 | each stored violation sits under its own non-empty key and its own message |
| `Report.IndexPairs` | security_test/validate/report.go:60-72 | the (key, message) slots of the map are exactly the (key, message) pairs of the keyed inputs |
| `Report.IndexLastWins` | security_test/validate/report.go:70 | the violation stored in a slot is the last input with that (key, message) pair |
| `Report.InsertEntries` | security_test/validate/report.go:62-71 | storing one violation adds at most that violation, and adds it when its keyed slot was empty |
| `Report.EntriesBound` | security_test/validate/report.go:57-79 | the stored violations plus the keyless ones are at most as many as the inputs |
| `Report.EntriesOfUniquePairs` | security_test/validate/report.go:60-72 | when no two keyed inputs share a (key, message) pair, nothing is overwritten: every keyed input is stored |
| `Report.DedupPairsUnique` | security_test/validate/report.go:57-79 | among the keyed outputs, no (key, message) pair appears twice |
| `Report.DedupKeepsPairs` | security_test/validate/report.go:57-79 | the output has exactly the same keyed (key, message) pairs as the purified input |
| `Report.DedupLastWins` | security_test/validate/report.go:57-79 | each keyed output is the last purified input with its (key, message) pair |
| `Report.DedupShortens` | security_test/validate/report.go:57-79 | deduplication never lengthens the list |
| `Report.DedupOutputSplits` | security_test/validate/report.go:57-79 | the output begins with the same keyless violations, and the rest is exactly what the output's own map stores |
| `Report.DedupIdempotent` | security_test/validate/report.go:57-79 | deduplicating an output again with the identity purifier gives the same violations (as a multiset) |
| `Report.KeylessOfKeyed` | security_test/validate/report.go:62-65 | keyless violations followed by keyed ones split back into exactly the keyless prefix |
| `Report.KeylessDropsKeyed` | security_test/validate/report.go:62-65 | keyed violations appended at the end add nothing to the keyless part |
| `Report.KeylessKeepsKeyless` | security_test/validate/report.go:62-65 | a list of keyless violations is its own keyless part |
| `Report.PurifiedByIdentity` | security_test/validate/report.go:61 | the identity purifier changes nothing |
| `Report.Deduplicate` | security_test/validate/report.go:57-79 | the output is the keyless purified violations in input order, followed by each stored (last-wins) violation exactly once, in some map order |
| `Report.StoreViolations` | security_test/validate/report.go:58-72 | the first loop builds the keyless list and the key -> message -> violation map of the purified input |
| `Report.AppendStored` | security_test/validate/report.go:73-77 | the second loop keeps the keyless prefix and appends every stored violation exactly once |
| `Report.FilterViolations` | security_test/validate/report.go:81-85 | filtering returns its input unchanged, without error |
| `Report.ReportAndRecord` | security_test/validate/report.go:87-101 | records every violation, and reports, in order, exactly those the handler's predicate accepts |
| `Report.OfPolicyMembers` | security_test/validate/report.go:106-111 | the violations of a policy's group are exactly the reported violations carrying that policy name |
| `Report.OfPolicyAbsent` | security_test/validate/report.go:106-111 | a policy that no violation carries has an empty group |
| `Report.ByPolicy` | security_test/validate/report.go:106-111 | no policy group is empty |
| `Report.ByPolicyPartitions` | security_test/validate/report.go:106-113 | there is one group for each policy present, and each group lists that policy's violations in order |
| `Report.TotalReportedZero` | security_test/validate/report.go:104-131 | the number of reported violations is zero exactly when no result reports anything |
| `Report.GroupByPolicy` | security_test/validate/report.go:106-113 | builds the policy groups of one result and extends the running list of reported violations by that result's violations |
| `Report.ExamResult` | security_test/validate/report.go:103-134 | returns one policy grouping per result, and fails exactly when some violation is reported |
| `Report.HandledReportsNothing` | security_test/validate/report.go:36-50 | a handled object reports nothing exactly when none of the violations that deduplication keeps is accepted by the report predicate |
| `Report.HandleResult` | security_test/validate/report.go:32-55 | each object is deduplicated, filtered and reported in order; the handler succeeds exactly when no object reports a violation that survives deduplication |
| `Validate.NameMap` | security_test/validate/validate.go:56-63 | operationResourceMap has at most one entry per object |
| `Validate.Submission` | security_test/validate/validate.go:57-64 | a successful submit loop has one operation name for each object |
| `Validate.SubmissionSucceeds` | security_test/validate/validate.go:57-64 | submission succeeds exactly when every call succeeds, and the queue then holds their operation names in order |
| `Validate.SubmissionFirstFailure` | security_test/validate/validate.go:59-61 | a failure carries the reason of the first failed call; every earlier call succeeded |
| `Validate.SubmissionFailureSticks` | security_test/validate/validate.go:59-61 | once a prefix fails, the whole loop fails with the same reason: later objects do not matter |
| `Validate.NameMapSound` | security_test/validate/validate.go:63 | every entry of operationResourceMap comes from a successful submission of the object it names |
| `Validate.NameMapNamesResources` | security_test/validate/validate.go:63 | every submitted operation is in the map; with distinct later names, it maps to its own object's resource name |
| `Validate.Lookup` | security_test/validate/validate.go:88-95 | a missing operation name reads as the empty resource name (Go's zero value) |
| `Validate.Stamp` | security_test/validate/validate.go:91-93 | every violation keeps its fields except the key's name, which becomes the resource name |
| `Validate.Tick` | security_test/validate/validate.go:71-104 | one call of the polling condition never lengthens the queue, adds at most one result, and never changes earlier results |
| `Validate.TickMovesHead` | security_test/validate/validate.go:71-104 | a tick removes the head of the queue and requeues it exactly on a failed fetch or a running operation; a failed operation adds no result; a finished one adds exactly one: the reply's violations stamped with the head's resource name, or none if its response does not decode; the head is dropped exactly when its operation failed |
| `Validate.ResultOf` | security_test/validate/validate.go:81-97 | a reply yields a result exactly when the operation finished without an error; the result is named after the resource and carries the reply's violations, stamped, or none if the response does not decode |
| `Validate.Poll` | security_test/validate/validate.go:70-105 | the poll loop never lengthens the queue and never loses a result: the earlier results are a prefix of the new ones |
| `Validate.PollKeepsDropped` | security_test/validate/validate.go:81-86 | while no reply reports an operation error, the poll loop drops no operation |
| `Validate.PollResultsFromReplies` | security_test/validate/validate.go:70-105 | every result the poll loop emits is what some reply yields for the operation it completed; earlier results and completed names are kept |
| `Validate.TickConserves` | security_test/validate/validate.go:71-104 | a tick keeps the multiset of queued, completed and dropped names, and never lengthens the queue |
| `Validate.TickAccounts` | security_test/validate/validate.go:90-97 | each result is named after its operation's resource, and all of its violations carry that name |
| `Validate.PollInvariant` | security_test/validate/validate.go:70-105 | polling conserves the tracked names, never lengthens the queue, only appends results, and keeps every result accounted for |
| `Validate.PendingForeverTimesOut` | security_test/validate/validate.go:101-106 | operations that never finish keep the queue non-empty and unchanged as a multiset, with no new results |
| `Validate.FinishedOperationsDrain` | security_test/validate/validate.go:81-104 | when every reply reports a finished operation and there are at least as many replies as queued names, the queue drains |
| `Validate.ScanSubmitFailure` | security_test/validate/validate.go:57-61 | a failed submission aborts the scan, with no results and that call's reason |
| `Validate.ScanNothing` | security_test/validate/validate.go:65-68 | with no request objects, nothing is polled: there are no results and no error |
| `Validate.ScanAccounts` | security_test/validate/validate.go:54-110 | each submitted operation ends up still queued, completed or dropped, and every result is accounted for |
| `Validate.ScanTimesOut` | security_test/validate/validate.go:101-109 | if no submitted operation ever finishes, the scan returns no results and the timeout error |
| `Validate.Scan` | security_test/validate/validate.go:54-110 | the scan fails with a submit error exactly when a submission fails, and then has no results; with no objects there are no results and no error |
| `Validate.ScanResultsFromReplies` | security_test/validate/validate.go:54-110 | every scan result is what a reply yields for a submitted operation: that reply's violations stamped with the resource name the operation was submitted under |
| `Validate.ScanAllSucceed` | security_test/validate/validate.go:54-110 | N operations that all complete without an error, with no timeout, give exactly N result objects, whatever running or failed-fetch replies come before each completion |
| `Validate.ScanDrains` | security_test/validate/validate.go:70-109 | if every reply reports a finished operation and the replies are enough, the scan returns no error |
| `Validate.StampViolations` | security_test/validate/validate.go:91-93 | the stamping loop computes `Stamp` |
| `Validate.SubmitAll` | security_test/validate/validate.go:55-64 | the submit loop fails exactly as `Submission` does, with the same reason, and otherwise builds its queue and operationResourceMap |
| `Validate.PollQueue` | security_test/validate/validate.go:69-105 | the poll closure computes `Poll`'s results and final queue |
| `Validate.ScanViolation` | security_test/validate/validate.go:54-110 | scanViolation returns exactly `Scan`: a submit error with no results, nothing for no objects, otherwise the polled results plus a timeout error when the queue did not drain |
| `Validate.Validate` | security_test/validate/validate.go:32-52 | a fetch error, then a client error, then a handler error, in that order; with a clean scan, success exactly when no result object reports a kept violation |
| `ClusterFetcher.SizeGate` | security_test/validate/clusterFetcher.go:275-276 | the 32 MiB gate keeps exactly the YAML texts of at most 25165821 bytes |
| `ClusterFetcher.RequestFor` | security_test/validate/clusterFetcher.go:278-284 | a request carries the map key as its resource name, content type "1", and the base64 of the YAML text |
| `ClusterFetcher.KeptNames` | security_test/validate/clusterFetcher.go:274-276 | the kept names are exactly the entries whose encoding fits under the limit |
| `ClusterFetcher.ConvertYAMLStringToValidateRequestContent` | security_test/validate/clusterFetcher.go:272-288 | produces one request per entry that fits, and none for the others; the names are distinct; the error is always nil |
| `ClusterFetcher.Accumulate` | security_test/validate/clusterFetcher.go:246-266 | appending documents never removes a category |
| `ClusterFetcher.AppendDocument` | security_test/validate/clusterFetcher.go:260-264 | a category's first document is stored as is; every later one is preceded by the YAML separator "\n---\n" |
| `ClusterFetcher.JoinNonEmpty` | security_test/validate/clusterFetcher.go:260-264 | a join of non-empty documents is empty exactly when there are none |
| `ClusterFetcher.AccumulateKeys` | security_test/validate/clusterFetcher.go:246-266 | the categories of the final map are those of the initial map and those some scanned item was placed under |
| `ClusterFetcher.AccumulateJoins` | security_test/validate/clusterFetcher.go:246-266 | starting from no text, each category holds exactly its documents joined by the separator, in item order |
| `ClusterFetcher.DocsOfMembers` | security_test/validate/clusterFetcher.go:260-264 | every document of a category is the YAML text of an item placed under that category |
| `ClusterFetcher.ScanName` | security_test/validate/clusterFetcher.go:247-250 | an unnamed item is classified as "unknown"; every other item under its own name |
| `ClusterFetcher.AppendToCategory` | security_test/validate/clusterFetcher.go:260-264 | the category's text grows by one document, and no other category changes |
| `ClusterFetcher.ScannedMembers` | security_test/validate/clusterFetcher.go:251-264 | every document is the YAML of an item that the classifier decided to scan, under the category it chose |
| `ClusterFetcher.ClassifiesEach` | security_test/validate/clusterFetcher.go:251 | every decision is a valid classification of its item's scan name |
| `ClusterFetcher.AccumulateItem` | security_test/validate/clusterFetcher.go:247-265 | one item is classified (loading the cache on first use); a load error, or a serialisation failure of a scanned item, is fatal; otherwise the map grows by that item's document exactly when it is scanned |
| `ClusterFetcher.AccumulateItems` | security_test/validate/clusterFetcher.go:246-266 | every item is classified in order; without a fatal stop, the map is the accumulation of the scanned items' YAML under their categories |
| `ClusterFetcher.NamespacedMembers` | security_test/validate/clusterFetcher.go:303-311 | exactly the namespaced resources of a list appear, under the list's group and version |
| `ClusterFetcher.GetAllResources` | security_test/validate/clusterFetcher.go:290-316 | fails exactly on a discovery error or an unparsable group version; otherwise returns the namespaced resources of all lists, in discovery order |
| `StaticFetcher.PlanResources` | security_test/validate/staticFetcher.go:86-92 | an undecodable plan, or one that is not a JSON object or null, is an unmarshal error; a null plan panics; an object plan panics exactly when `planned_values` or `root_module` is missing or not an object; otherwise the resources are the `resources` array, or none when it is missing or not an array |
| `StaticFetcher.ObjectResourcesMembers` | security_test/validate/staticFetcher.go:93-94 | exactly the resources that are JSON objects are visited; the others are skipped |
| `StaticFetcher.PathsInMembers` | security_test/validate/staticFetcher.go:96-101 | the paths of one resource are exactly the non-empty string values of its "_yaml_file" attributes |
| `StaticFetcher.AllPathsMembers` | security_test/validate/staticFetcher.go:93-104 | a path is selected exactly when it is the non-empty string value of a "_yaml_file" attribute of some resource object |
| `StaticFetcher.AllPathsSound` | security_test/validate/staticFetcher.go:96-101 | every selected path comes from a "_yaml_file" attribute |
| `StaticFetcher.AllPathsComplete` | security_test/validate/staticFetcher.go:96-101 | the value of every "_yaml_file" attribute with a non-empty string value is selected |
| `StaticFetcher.PathsInHas` | security_test/validate/staticFetcher.go:97-99 | a listed "_yaml_file" attribute contributes its value |
| `StaticFetcher.CollectYamlPaths` | security_test/validate/staticFetcher.go:96-102 | one resource's attributes are visited once each, in some map order, and its YAML paths are collected in that order |
| `StaticFetcher.CollectFromResources` | security_test/validate/staticFetcher.go:93-104 | panics exactly when a resource object has no "values" object; otherwise collects every object's paths in order |
| `StaticFetcher.ExtractYamlFromPlan` | security_test/validate/staticFetcher.go:83-108 | returns a decode error, a panic for a broken chain or a missing "values", or else exactly the "_yaml_file" string paths of all resource objects |
| `StaticFetcher.ObjectResourcesPrefix` | security_test/validate/staticFetcher.go:93-94 | the object resources of a prefix are a prefix of the object resources |

## Left out

- `client.go` (the validation service client and its request and response encoding) is not part of this model. The service is an oracle: `submit` and `replies`.
- `helmFetcher.go` and `main.go` are not part of this model. That covers the Helm fetcher, flag parsing and the wiring of fetchers and handlers. The result handler is parameterised by its two functions, so the allowlist's two-argument `ShouldReport` is applied to the loaded map before the handler receives it.
- The cluster lifecycle in `clusterFetcher.go` is left out because it is infrastructure, not logic. That is `PrepareValidateRequestContent`, `prepareCluster`, `setupKubeAccess`, `cleanup`, `createGKECluster`, `waitClusterReachStatus` and `deleteGKECluster` (lines 41-201), and the kubeconfig and client setup inside `snapshotYAMLs` (lines 203-224).
- `prepareValidateRequestContent` (clusterFetcher.go:119-126) is left out: it only chains `snapshotYAMLs` (modelled as `AccumulateItems`) into `convertYAMLStringToValidateRequestContent`.
- The listing loop over each resource type (lines 238-245) and `runtimeToYAML` are left out because they are calls into the Kubernetes client. An item arrives as its name together with the outcome of serialising it (`Item.yaml`).
- `PrepareValidateRequestContent` of both fetchers (clusterFetcher.go:41-81, staticFetcher.go:22-54) is left out. So are `runTerraformPlan` and reading the YAML files from disk. These are process and file I/O; the static fetcher's logic is `extractYamlFromPlan`.
- Wall-clock time and the context are replaced by the length of `replies`, the number of condition calls the deadline allows.
- Logging and printing are left out, including the `MarshalIndent` of each policy group in `examResult`. The groups are returned instead.
- The internals of regular expressions, JSON decoding and base64 are abstract: `RegexEngine`, the `Json` value and `ConfigFile`, and `Base64Of` with its length only.
- `sync.Once` is a `loaded` flag, so its concurrency guarantees are left out: the model is single-threaded.
- Validate.Tick: the reply is assumed to be about the name just popped. `RetrieveOperation(name)` is taken to return that operation.
- Validate.ScanViolation: requires a key on every returned violation (`KeyedReplies`). Line 92 dereferences `ResourceKey` and would panic on a nil key, and that panic is not modelled.
- Report.Deduplicate: takes non-nil violations only. A nil violation panics at report.go:64, which dereferences `v.ResourceKey`, and at validate.go:92. That panic is excluded by the type `seq<Violation>`.
- `FindFocusComponent` and `PurifyViolation` are each defined in both `allowlist.go` and `focusComponentConfigurator.go`. Each definition is modelled in its own module (`Allowlist`, `FocusComponents`).
- ClusterFetcher.AccumulateJoins: is stated only for items whose YAML text is non-empty. An empty document leaves a category's text empty, so the next document gets no separator; `AppendDocument` models that case exactly.
- Validate.SubmissionFailureSticks: "no later object is submitted" is stated as "later objects do not change the outcome". Because the oracle is a pure function, calls that were never made cannot be observed.
- StaticFetcher.PlanResources: a JSON `null` plan and every failed type assertion on the chain become the single `Panic` outcome. The Go panic message is not modelled.
- ClusterFetcher.SizeGate: measures a YAML text in characters, one per byte. Go's `len` at clusterFetcher.go:275 counts UTF-8 bytes, so for a non-ASCII text the model's length is smaller than the source's.
