# Verified model of the ACM Certificate controller

This project models how the controller for ACM `Certificate` resources reconciles one resource, and
proves what that reconciliation keeps, where it ends, and where it goes wrong. The state is the custom
resource (spec, tags, recorded status, conditions), the certificate in ACM (its issues, status, options,
tag map), the target Secret, and the cache of resource managers.

Methods on objects follow the Go code: loops, in-place updates, allocation, early returns. Each is proved
against a function of its inputs and old state, and the theorems are about those functions and about
state machines built from them. Every theorem is for all inputs and all runs unless its row says
otherwise.

| file | models |
|---|---|
| `Values.dfy`, `Objects.dfy` | the API types as values, and as objects with their deep copies |
| `OrderedTags.dfy`, `TagPipeline.dfy` | tag list conversions, `EnsureTags`, `mirrorAWSTags`, `FilterSystemTags`, and their round trip |
| `TagSync.dfy` | `SyncTags` against a backend whose calls fail after any part of their work |
| `Conditions.dfy`, `ConditionRuns.dfy` | `updateConditions`, `onError`, `onSuccess`, and runs of them |
| `Delta.dfy`, `Reads.dfy` | `newResourceDelta`, what it reports, and what a read overwrites |
| `Export.dfy`, `Reconcile.dfy` | `exportCertificate`, `sdkFind`, `ReadOne`, `sdkUpdate`, `Update` |
| `Protocol.dfy`, `Convergence.dfy` | runs of the reconcile protocol: freshness of the Secret, convergence, exports that are lost |
| `Passes.dfy`, `Pairs.dfy` | the methods make the machine's passes; certificate and key of one issue over runs |
| `Outcomes.dfy` | what an update answers, does and stores, spelled out |
| `Requests.dfy`, `Creation.dfy` | request and import payloads, `sdkCreate`, one certificate per resource |
| `LateInitialization.dfy`, `References.dfy` | late initialisation, reference resolution |
| `ManagerCache.dfy` | `ManagerFor` alone and under every interleaving |

## Contracts assumed of code outside the repository

- The caller's loop: `EnsureTags`, then `ReadOne` (which mirrors AWS tags), compare, update only if a
  path under `Spec` differs (`pkg/resource/certificate/hooks.go:285` says so), and store the returned
  status only from passes without an error. Between any two of these steps ACM may issue a certificate
  or change its status, other clients may change tags and options, and the user may edit the resource.
  What happens when the status is stored after an error too is proved in `Convergence.StoredFailureIsLost`.
- `DifferentAt` matches a path and everything below it; `DifferentExcept` asks for a path elsewhere.
  `HasNilDifference` compares nilness, `MapStringStringEqual` compares maps. The comparison of string
  lists is a parameter; where it matters it is only required to find a list equal to itself.
- `acktags.Merge` keeps the first map's entries (`pkg/resource/certificate/manager.go:300-306`).
- ACM reports an issue time with every issue and never uses a serial twice; these are hypotheses of the
  freshness theorem, not of the model. RemoveTags takes away the key/value pairs it is given, AddTags
  sets keys. A failing call may have done its work or any part of it: tag calls any part of their tags,
  a Secret write its write, an options update its preference, a create its certificate. A request to
  update options without a preference changes nothing; an empty preference is none.
- A panic ends the pass: its writes stay and nothing is stored. The one that can happen is the nil key
  algorithm of `pkg/resource/certificate/hooks.go:199`.
- Reading a referenced object or a Secret answers with a value or with any error.
- What ACM holds after a request it has accepted is the predicate `Reads.Honours`.
- `sync.RWMutex`: a reader waits for a writer, a writer waits for everyone. The cache lookup and the
  cache write are single steps.
- `errors.As` walks a chain of causes. The texts of errors are stand-ins; only equality of error values
  and the chain matter. `ackrequeue` errors are links of the chain.
- The passphrase, and whether sealing a private key and opening it with the same passphrase succeeds,
  are inputs; opening with another passphrase fails.

## Where code and comments disagree

The model follows the code.

- `validatePublicValidationOptions` checks the limit when an authority ARN *is* set
  (`pkg/resource/certificate/hooks.go:66`); its comment describes the opposite case.
- `ResolveReferences` says it returns a copy (`pkg/resource/certificate/references.go:51-57`); it writes
  into the resource it was passed.
- A failed `Update` hands the *latest* resource to `onError`
  (`pkg/resource/certificate/manager.go:157-163`), recorded issue time and serial included.
- A terminal error leaves a Recoverable condition that is True as it is
  (`pkg/resource/certificate/sdk.go:699-715`), so Terminal and Recoverable can both be True.
- `ManagerFor` promises to avoid several managers for one triple
  (`pkg/resource/certificate/manager_factory.go:58-60`); without a second lookup under the write lock
  two callers that both look first build two.

## Model

| member | source | states |
|---|---|---|
| `Protocol.ExportFreshness` | pkg/resource/certificate/sdk.go:521-594 | From a resource that exports and has recorded nothing, over every run with renewals, failures, drift and edits anywhere (also between a read and its export): the Secret's certificate and key are never older than the recorded serial. Assumes an unchanged export target and that the first issue time is not first seen under another status than ISSUED |
| `Protocol.FreshOverRuns` | pkg/resource/certificate/sdk.go:521-594 | The invariant behind it holds after any number of steps from any state that satisfies it |
| `Protocol.StepKeepsInv` | pkg/resource/certificate/sdk.go:510-594 | Each kind of step keeps it: an issue, a status change, drift, an edit, a read, an update with any failures, giving up |
| `Protocol.PassKeepsFreshExactly` | pkg/resource/certificate/hooks.go:282-294 | One pass keeps the Secret fresh if and only if it does not record an overlooked first issue (seen under another status than ISSUED) that the Secret happens not to hold |
| `Protocol.NothingNewToRecord` | pkg/resource/certificate/sdk.go:586-594 | With no export pending and nothing overlooked, the issue an options update records is the one already recorded: it never hides a pending export |
| `Protocol.ErrorFreePass` | pkg/resource/certificate/sdk.go:521-594 | An error-free pass exports and records the issue read exactly when an export is pending; otherwise it leaves the Secret and records the issue read or the issue recorded before. An export without a key algorithm is not error-free |
| `Protocol.FailedPass` | pkg/resource/certificate/manager.go:157-163 | A pass that fails, a panic included, stores nothing and has at most begun a pending export |
| `Passes.ReadStep` | pkg/resource/certificate/manager.go:95-113 | The methods `EnsureTags` and `ReadOne`, called in the caller's order, make exactly a read of the machine: an error if and only if no ARN is recorded or a call fails, otherwise an enabled read to the state the machine says |
| `Passes.ActStep` | pkg/resource/certificate/manager.go:145-165 | The methods `newResourceDelta` and `Update` make exactly the machine's update: its world, its stored resource, an error exactly when the machine's pass fails |
| `Passes.UpdateCallable` | pkg/resource/certificate/sdk.go:521-566 | In every state a run reaches between a read and its update, nothing the update dereferences is nil (ARN, tag keys and values), except exactly the key algorithm of a pending export that gets as far as decrypting |
| `Passes.PanicIsFailure` | pkg/resource/certificate/hooks.go:199 | That panic leaves the certificate entry written, the key entry as it was, and nothing stored |
| `Pairs.PairedOverRuns` | pkg/resource/certificate/hooks.go:178-211 | Over every run, renewals, failures and panics anywhere: if the last export that touched the Secret got through both writes, certificate and key are of one issue. Assumes an unchanged export target |
| `Pairs.UpdateAndPair` | pkg/resource/certificate/hooks.go:178-211 | For each update: the pair of the current issue, its certificate beside the key that was there, or the Secret as it was, told by how far the export gets |
| `Outcomes.FailedTagsAnswer` | pkg/resource/certificate/sdk.go:555-563 | Tags that differ and fail to be synchronised: that error is the answer, neither Secrets nor the certificate change, and nothing is stored |
| `Outcomes.SyncedTagsAnswer` | pkg/resource/certificate/sdk.go:555-594 | Otherwise: the tags, options and Secrets after the update, for every way the calls go; a failing options call that is reached is the answer, and so is the terminal error for an imported certificate whose options differ |
| `Outcomes.ErrorFreeExactly` | pkg/resource/certificate/sdk.go:555-594 | A pass without a needed export is free of errors if and only if the tag calls it makes succeed, and so does the options call if one is reached, or the certificate is imported with the options asked for |
| `Outcomes.ExportAnswers` | pkg/resource/certificate/sdk.go:521-553 | A needed export is all that happens, and its error is the answer |
| `Outcomes.UpdatedResource` | pkg/resource/certificate/sdk.go:529-534 | The resource returned is the desired one but for the issue time, serial and status read, recorded exactly when it exported or updated options |
| `Outcomes.ReturnedResource` | pkg/resource/certificate/manager.go:157-165 | The updated resource, or the latest on an error, with nothing changed but conditions and a missing region or owner |
| `Outcomes.StoredRecord` | pkg/resource/certificate/sdk.go:529-594 | What a pass stores of issue time, serial and status, on success and on an error |
| `Convergence.TwoUpdatesSuffice` | pkg/resource/certificate/sdk.go:521-594 | From any idle state with a recorded ARN, after two or more passes in which no call fails and nothing interferes: the next comparison is empty if and only if, at the start, no field differs that an update cannot change, no options are stuck (imported certificate, or no preference to set), the certificate is not exported, ISSUED and undated, and no export is due without a key algorithm |
| `Convergence.AfterTwoPasses` | pkg/resource/certificate/sdk.go:521-594 | Two such passes later an export is due if and only if exports never end (no key algorithm, or ISSUED and undated unless an imported certificate keeps an old issue time recorded); otherwise the tags are as asked, and the options differ exactly if they are stuck |
| `Convergence.ObstaclesStay` | pkg/resource/certificate/sdk.go:521-594 | A calm pass neither removes nor adds an obstacle: fields off, options stuck, undated |
| `Convergence.ImportedRefusesOptions` | pkg/resource/certificate/sdk.go:568-573 | A calm pass without an export fails if and only if the certificate is imported and its options differ: then with the terminal error, nothing but tags changed, nothing stored |
| `Convergence.NoPreferenceChangesNothing` | pkg/resource/certificate/sdk.go:575-594 | Options that differ with no preference to set: the options call succeeds and changes nothing, so they differ again |
| `Convergence.MeasureFalls` | pkg/resource/certificate/sdk.go:521-594 | Over calm passes the number of pending classes falls by one with each pass until it is zero, and every obstacle stays what it was |
| `Convergence.QuietPass` | pkg/resource/certificate/sdk.go:521-594 | One calm pass takes care of exactly one pending class: an export, or tags and options together |
| `Convergence.ExportingPass` | pkg/resource/certificate/sdk.go:521-553 | A calm pass with an export due makes it and leaves tags and options for the next; it succeeds if and only if there is an issue and ACM reports a key algorithm |
| `Convergence.ExportingPassDelivers` | pkg/resource/certificate/hooks.go:158-216 | After that pass the Secret holds the current certificate; it holds the pair when a key algorithm is reported, and gains no key entry otherwise |
| `Convergence.CalmPassesExist` | pkg/resource/certificate/manager.go:95-165 | From every idle state with a recorded ARN calm passes are possible, as many as one likes: the convergence theorem is about runs that exist |
| `Convergence.SyncingPass` | pkg/resource/certificate/sdk.go:555-594 | A calm pass without an export sets tags and options together as far as they can be, writes no Secret, and records the issue read exactly when nothing differed or the options call was reached |
| `Convergence.ReadShows` | pkg/resource/certificate/manager.go:95-113 | What a pass with a recorded ARN finds pending is what is due in the state, whatever order tags are listed or maps ranged over in |
| `Convergence.NoExportUntilRenewal` | pkg/resource/certificate/hooks.go:277-296 | Once the current issue is recorded no Secret is written until the next issue, over every run, also when `ExportTo` is only added later |
| `Convergence.StoredFailureIsLost` | pkg/resource/certificate/manager.go:157-163 | A caller that stores the status of a failed export loses it: the Secret stays what the failure left until the next issue |
| `Convergence.StoredFailureDueExactly` | pkg/resource/certificate/manager.go:157-163 | After a failed export whose status is stored, an export is due if and only if the stored record is not the current issue and either records an issue or the certificate is ISSUED |
| `Convergence.OverlookedIsLost` | pkg/resource/certificate/hooks.go:282-288 | A first issue recorded under another status than ISSUED is not exported until the next issue |
| `Convergence.ExportedForever` | pkg/resource/certificate/hooks.go:284-288 | ISSUED without an issue time and none recorded: every pass finds an export pending, however many have succeeded or failed. The exact condition for exports that never end is in `Convergence.AfterTwoPasses` |
| `Delta.NewResourceDelta` | pkg/resource/certificate/delta.go:34-96 | The delta of two resources, or the whole-resource difference when one is nil |
| `Delta.DeltaMeaning` | pkg/resource/certificate/sdk.go:521-566 | What each question `sdkUpdate` and the caller ask of a delta means for the two resources, both directions |
| `Delta.CompareCertificateIssuedAt` | pkg/resource/certificate/hooks.go:277-296 | Adds the two export triggers |
| `Delta.CompareKeyAlgorithm` | pkg/resource/certificate/hooks.go:263-275 | Adds a difference exactly when both algorithms are set and differ after normalisation |
| `Delta.CompareTags` | pkg/resource/certificate/delta.go:89-93 | Adds a difference exactly when the maps the two lists stand for differ |
| `LateInitialization.KeyAlgorithmsModuloDashes` | pkg/resource/certificate/hooks.go:259-261 | Normalised algorithms are equal if and only if the originals agree up to dashes against underscores |
| `Reads.SelfComparison` | pkg/resource/certificate/delta.go:44-93 | A resource compared with itself differs in nothing, except an issue time that is missing while it is ISSUED and exported |
| `Reads.ReportedExactly` | pkg/resource/certificate/delta.go:44-93 | A path is in the delta if and only if the resources differ there, each comparison spelled out from the fields: key algorithms character by character, tags by each key's last value |
| `Reads.NamesReported` | pkg/resource/certificate/delta.go:82-88 | Alternative names are reported exactly when the list comparison tells them apart, nil counting as empty |
| `Reads.TagsReportedWhenSynced` | pkg/tags/sync.go:51-104 | The delta reports the tags exactly when `SyncTags` would make a call |
| `Reads.ReadsAgree` | pkg/resource/certificate/sdk.go:91-351 | Two reads of one response agree on every tracked field whatever resources were passed, and keep the untracked ones (recorded region and owner, and an ARN the response does not repeat, among them) |
| `Reads.ReadTwice` | pkg/resource/certificate/sdk.go:91-351 | Reading what was read changes nothing |
| `Reads.OwnReadNeverReports` | pkg/resource/certificate/delta.go:47-66 | Comparing a resource with its own read never reports the certificate ARN or the authority reference, nor an export trigger without `ExportTo` |
| `Reads.FilledNeverReported` | pkg/resource/certificate/manager.go:208-287 | After late initialisation the paths reported against that observation are those reported before, minus the fields it filled |
| `Reads.RequestThenRead` | pkg/resource/certificate/sdk.go:451-505 | Create, read, late initialisation, comparison: a request ACM has honoured leaves an empty delta if and only if its enumerations were fully given and the names it gave are reported back |
| `Reconcile.SdkFind` | pkg/resource/certificate/sdk.go:57-351 | Answers not-found, an error, or a new object with the observation overlaid; the passed resource does not change |
| `Reconcile.ReadFields` | pkg/resource/certificate/sdk.go:91-351 | Every field of a read, from the certificate in ACM: the tracked ones as ACM reports them (names, both halves of each validation option and the details included), the others as passed in |
| `Reconcile.FindErrorExactly` | pkg/resource/certificate/sdk.go:78-87 | A failed read means not found exactly when its first API error is ResourceNotFoundException; every other error stays what it is |
| `Reconcile.SetObservation` | pkg/resource/certificate/sdk.go:129-351 | The assignments to the copy: tracked fields from the response, defaults filled in |
| `Reconcile.ReadOne` | pkg/resource/certificate/manager.go:95-113 | The read resource with success conditions, or the passed one with the error recorded; only the passed resource's tag list may change, and only by mirroring |
| `Reconcile.SdkUpdateCertificate` | pkg/resource/certificate/sdk.go:510-594 | The calls made, their order and effects and what is returned, for every combination of differences and failures; neither resource changes and what is returned is the desired resource or new |
| `Reconcile.Update` | pkg/resource/certificate/manager.go:145-165 | The updated resource with success conditions, or the latest one with the error; the error is that of `sdkUpdate` or the terminal one, as `onError` says |
| `Reconcile.ResourceTags` | pkg/tags/sync.go:195-205 | The listed tags, in order, as new objects |
| `Export.ExportCertificate` | pkg/resource/certificate/hooks.go:158-216 | Secret contents and error, for a failure at any of its five points |
| `Export.ExportedEntries` | pkg/resource/certificate/hooks.go:184-211 | Where a successful export writes and what: in the target's namespace, or the resource's if it names none, body and chain under the target's key and the key under `tls.key`; no other entry changes |
| `Export.ExportFailsExactly` | pkg/resource/certificate/hooks.go:162-211 | Which error an export answers with, the first it meets, and when it has none |
| `Export.ExportWritesThePair` | pkg/resource/certificate/hooks.go:178-211 | A successful export leaves certificate and key of one issue in one Secret and touches nothing else; they are a pair if and only if the target key is not `tls.key` (or the contents coincide) |
| `Export.FailedExportLeaves` | pkg/resource/certificate/hooks.go:178-211 | A failed export has written nothing, the certificate entry, or both entries, and that from the current issue, writes that land in spite of their error included |
| `Export.ExportTouches` | pkg/resource/certificate/hooks.go:178-211 | What an export has written, exactly, by how far it got |
| `Export.NoKeyAlgorithmNoKey` | pkg/resource/certificate/hooks.go:199 | Without a key algorithm an export never succeeds and never writes the key; one nothing else stops panics after its first write |
| `OrderedTags.ConvertToOrderedACKTags` | pkg/resource/certificate/tags.go:36-55 | The last-wins map of a list, and its keys in order |
| `OrderedTags.FromACKTags` | pkg/resource/certificate/tags.go:61-79 | Listed keys in their order, then the rest in any order, all new objects; the map it was passed loses the listed keys |
| `OrderedTags.IgnoreSystemTags` | pkg/resource/certificate/tags.go:85-92 | Leaves exactly the entries that are neither AWS nor system tags, deleting while ranging |
| `OrderedTags.SyncAWSTags` | pkg/resource/certificate/tags.go:113-119 | Copies exactly the AWS entries |
| `OrderedTags.EnsureTags` | pkg/resource/certificate/manager.go:307-324 | The list of user and default tags, user first |
| `OrderedTags.FilterSystemTags` | pkg/resource/certificate/manager.go:345-354 | The list without system tags, in order |
| `OrderedTags.MirrorAWSTags` | pkg/resource/certificate/manager.go:368-381 | The desired list with AWS's tags from latest; nothing for a nil resource |
| `TagPipeline.RoundTrip` | pkg/resource/certificate/manager.go:307-381 | For every tag list, the three steps give back the user's tags, first-occurrence order and last value, if and only if every default tag is a system tag or a key the user has |
| `TagPipeline.EnsuredTags` | pkg/resource/certificate/manager.go:307-324 | After `EnsureTags` each key once, with the user's last value, or the default where the user has none |
| `TagPipeline.MirroredTags` | pkg/resource/certificate/manager.go:368-381 | After `mirrorAWSTags` each key once: those beginning with `aws:` that latest has with latest's value, all others with the desired one |
| `TagPipeline.FilteredTags` | pkg/resource/certificate/tags.go:85-92 | After `FilterSystemTags` each key once, none listed as a system tag or beginning with `aws:`, and every other key of the input with its last value |
| `TagPipeline.PlainRoundTrip` | pkg/resource/certificate/manager.go:307-381 | A list of distinct, non-nil, non-system tags comes back unchanged under the same condition |
| `TagPipeline.UserTagsMeaning` | pkg/resource/certificate/tags.go:36-79 | The order and values given back, by an independent definition: each key at its first place with its last value |
| `TagPipeline.ConvertListOf` | pkg/resource/certificate/tags.go:61-79 | Whatever list `fromACKTags` builds converts back to the map it came from |
| `TagPipeline.LastWins` | pkg/resource/certificate/tags.go:36-55 | The converted map holds the last value of each key |
| `TagSync.SyncTags` | pkg/tags/sync.go:39-105 | The backend after every call, and the error, for calls that fail after any part of their work |
| `TagSync.SyncAnswers` | pkg/tags/sync.go:75-105 | Which calls are made and which error is returned: removing first, and no adding after a failed removal |
| `TagSync.AddTags` | pkg/tags/sync.go:108-136 | One call, with each entry once |
| `TagSync.RemoveTags` | pkg/tags/sync.go:139-166 | One call, with each entry once |
| `TagSync.RetriesConverge` | pkg/tags/sync.go:51-104 | However often and however far calls fail, each retry from a fresh listing: every state on the way holds for each key its old value, its desired value or nothing, and at most as many tags as the larger of the two counts; the first success ends at the desired tags |
| `TagSync.OneAttemptSafe` | pkg/tags/sync.go:75-102 | The same bound for every state within one attempt: remove before add never crosses a limit both counts meet |
| `TagSync.SyncCompletes` | pkg/tags/sync.go:51-104 | With any listing, stale ones included, a call without an error leaves the desired tags if and only if no key drifted from the listing in a way named by `Drifted` |
| `TagSync.OthersUntouched` | pkg/tags/sync.go:51-104 | A tag neither list mentions is never touched |
| `TagSync.CompareActAgree` | pkg/tags/sync.go:51-73 | A call is made exactly when the maps differ; adds and removes are disjoint and together are exactly the keys that differ |
| `TagSync.AwsTagsLeftAlone` | pkg/resource/certificate/manager.go:368-381 | After mirroring an AWS key is added if and only if the user's own list has one that latest lacks, none is removed, and other desired entries are unchanged |
| `TagSync.PointersConvert` | pkg/tags/sync.go:51-60 | The pointer maps of `SyncTags` stand for the maps the delta compares |
| `Conditions.UpdateConditions` | pkg/resource/certificate/sdk.go:675-752 | The new conditions on new objects; nothing reachable from the passed resource changes |
| `Conditions.UpdateInPlace` | pkg/resource/certificate/sdk.go:683-750 | The mutation through aliased conditions, as a function of the old list |
| `Conditions.FindConditions` | pkg/resource/certificate/sdk.go:683-696 | The scanning loop points at the last condition of each kind |
| `Conditions.OnError` | pkg/resource/certificate/manager.go:408-428 | The resource with the error recorded; the error becomes the terminal one exactly when a Terminal condition is True |
| `Conditions.OnSuccess` | pkg/resource/certificate/manager.go:432-444 | The resource with success conditions |
| `ConditionRuns.RunExtends` | pkg/resource/certificate/sdk.go:680-752 | Over any number of calls: entries stay at their places with kind and reason, foreign conditions are untouched, at most three entries are added, and at most one of each managed kind stays so |
| `ConditionRuns.Idempotent` | pkg/resource/certificate/sdk.go:680-752 | Repeating a call changes nothing |
| `ConditionRuns.Classification` | pkg/resource/certificate/sdk.go:697-736 | For every list: Terminal is True afterwards if and only if the error is terminal or a stale duplicate says so; likewise Recoverable, which a terminal error leaves alone |
| `ConditionRuns.RunClassification` | pkg/resource/certificate/sdk.go:697-736 | Over runs from a list without duplicates: Terminal tells of the last call only; Recoverable of the last call that was not terminal |
| `ConditionRuns.BothTrueExactly` | pkg/resource/certificate/sdk.go:697-736 | Terminal and Recoverable are both True exactly when a terminal error met a True Recoverable |
| `ConditionRuns.BothTrueHappens` | pkg/resource/certificate/sdk.go:697-736 | A terminal error after one that is not leaves both True |
| `ConditionRuns.OnErrorReplaces` | pkg/resource/certificate/manager.go:417-427 | The error `onError` answers with: the terminal one for terminal errors and for a stale duplicate, the error itself for all others |
| `ConditionRuns.EntryAfter` | pkg/resource/certificate/sdk.go:699-735 | Every entry there was, after a call: only the last Terminal and the last Recoverable are set or cleared |
| `ConditionRuns.EntriesAdded` | pkg/resource/certificate/sdk.go:699-748 | Exactly the entries a call adds, in order |
| `ConditionRuns.SyncedExactly` | pkg/resource/certificate/sdk.go:742-748 | ResourceSynced is there afterwards if and only if it was before or the call succeeded, and then True if new |
| `ConditionRuns.SyncedOverRuns` | pkg/resource/certificate/sdk.go:742-748 | Over any run from a list without it, ResourceSynced is True if and only if some call succeeded |
| `ConditionRuns.ReportsExactly` | pkg/resource/certificate/sdk.go:749-752 | A resource is handed back exactly when it has one of the three conditions |
| `ConditionRuns.TerminalExactly` | pkg/resource/certificate/sdk.go:699-777 | Which errors are terminal: two Secret errors themselves, a wrapped terminal error, or a first API error with one of six codes |
| `ConditionRuns.MessagesExactly` | pkg/resource/certificate/sdk.go:707-733 | What Terminal and Recoverable say |
| `Objects.Certificate.DeepCopy` | apis/v1alpha1/zz_generated.deepcopy.go:350-391 | Equal by value, on objects that are all new and pairwise different |
| `Objects.CopyTags` | apis/v1alpha1/zz_generated.deepcopy.go:350-360 | The tags loop, nil entries included |
| `Objects.CopyConditions` | apis/v1alpha1/zz_generated.deepcopy.go:381-391 | The conditions loop, nil entries included |
| `Values.WithDefaults` | pkg/resource/certificate/sdk.go:656-671 | Metadata, region and owner are set afterwards, a recorded ARN and all else is kept |
| `ManagerCache.ResourceManagerFactory.ManagerFor` | pkg/resource/certificate/manager_factory.go:48-79 | Calls that do not overlap, for any triple: a manager for the triple's key, built at most once per key, and the triple's own unless a slash in an account or region confuses the two |
| `ManagerCache.KeyInjective` | pkg/resource/certificate/manager_factory.go:61 | Triples whose account and region have no slash share a key exactly when they are equal |
| `ManagerCache.SlashesCollide` | pkg/resource/certificate/manager_factory.go:61 | Triples that differ by where a slash is share a key |
| `ManagerCache.PathKeepsInv` | pkg/resource/certificate/manager_factory.go:61-78 | The invariant of the interleaved machine holds over every schedule of any number of callers |
| `ManagerCache.ReturnsTheRightManager` | pkg/resource/certificate/manager_factory.go:61-78 | Under every interleaving a returned manager was built for exactly the triple asked for |
| `ManagerCache.CachedKeysStay` | pkg/resource/certificate/manager_factory.go:61-78 | No cached key and no manager is ever lost |
| `ManagerCache.BuildsAreEarlyCallers` | pkg/resource/certificate/manager_factory.go:61-78 | When all callers are done, the managers built for a key are one for each caller that looked before its first write |
| `ManagerCache.OneBuildWithoutRace` | pkg/resource/certificate/manager_factory.go:61-78 | If one caller alone looks before the first write, exactly one manager is built |
| `ManagerCache.RaceBuildsTwo` | pkg/resource/certificate/manager_factory.go:61-78 | Two callers that both look first build two managers, and each keeps its own |
| `ManagerCache.NoDeadlock` | pkg/resource/certificate/manager_factory.go:61-78 | Whenever a caller is not done, some caller can take a step |
| `ManagerCache.SchedulesEnd` | pkg/resource/certificate/manager_factory.go:61-78 | Every schedule is at most as long as the steps left, so every caller gets its manager |
| `Creation.SdkCreate` | pkg/resource/certificate/sdk.go:381-445 | The calls made with their payloads, the live certificates, and the created resource or the error; a call may fail with its certificate made |
| `Creation.MaybeImportCertificate` | pkg/resource/certificate/hooks.go:76-129 | The same for the import hook |
| `Creation.CallsExactly` | pkg/resource/certificate/hooks.go:76-100 | At most one call; a mix of import and request fields makes none and is terminal; exactly when an import is made and what it carries, and exactly when a request is made |
| `Creation.RequestExactly` | pkg/resource/certificate/sdk.go:402-505 | Every field of the request made: the Spec's and the tags, DNS validation, exporting enabled exactly for an export target with neither an authority nor a reference |
| `Creation.RefusedExactly` | pkg/resource/certificate/hooks.go:57-100 | The error of a create that makes no call: terminal, or that of the first Secret that cannot be read, wrapped |
| `Creation.CreatedExactly` | pkg/resource/certificate/sdk.go:426-445 | The answer after a call: its error, or the desired resource with the reported ARN recorded and nothing else changed |
| `Creation.CreateKeepsExactly` | pkg/resource/certificate/sdk.go:426-445 | A create keeps at most one live certificate if and only if it makes no call or no certificate, or is not forgotten (its response arrives, carries the ARN and is stored), or makes the recorded one again |
| `Creation.OneCertificate` | pkg/resource/certificate/sdk.go:69-88 | With no create forgotten, every run has at most one live certificate made for the resource |
| `Creation.ForgottenMeansTwo` | pkg/resource/certificate/sdk.go:426-445 | However a request is forgotten, a lost response included, the next one makes a second certificate |
| `Requests.CompletePayload` | pkg/resource/certificate/sdk.go:402-424 | The request as sent: the payload, DNS validation, exporting enabled for public certificates only |
| `Requests.NewCreateRequestPayload` | pkg/resource/certificate/sdk.go:451-505 | The generated part of the request |
| `Requests.NewImportCertificateInput` | pkg/resource/certificate/sdk.go:782-845 | The import payload from the Secrets, or the error of the first that cannot be read |
| `LateInitialization.LateInitialize` | pkg/resource/certificate/manager.go:208-255 | Set fields stay, nil ones take the observed value; success exactly when key algorithm and options are set; a failed read fills nothing and its error is answered; the passed resource does not change |
| `LateInitialization.InitializedExactly` | pkg/resource/certificate/manager.go:229-287 | Field by field: set stays, nil takes what ACM reports, nothing else changes; complete exactly when user or ACM give key algorithm and options |
| `LateInitialization.LateInitializeFromReadOneOutput` | pkg/resource/certificate/manager.go:274-287 | The two generated fields, on a copy |
| `References.GetReferencedResourceState` | pkg/resource/certificate/references.go:119-167 | No error exactly for an authority that is read, not Terminal, synced and has an ARN; otherwise the reader's error or the first check that fails |
| `References.StateErrorExactly` | pkg/resource/certificate/references.go:132-165 | Which of the checks fails first |
| `References.ResolveReferenceForCertificateAuthorityARN` | pkg/resource/certificate/references.go:90-112 | The ARN of the authority the reference resolves to is written, or nothing |
| `References.ResolveReferences` | pkg/resource/certificate/references.go:58-74 | Works on the passed resource; the error is that of resolving, else that of naming the authority twice, else none |
| `References.ResolvesExactly` | pkg/resource/certificate/references.go:90-167 | Resolving succeeds exactly when there is no reference, or the authority it names, in its own namespace or else the resource's, is read, not Terminal, synced and has an ARN |
| `References.ClearResolvedReferences` | pkg/resource/certificate/references.go:41-49 | A copy without the ARN a reference stands for |
| `References.ClearedExactly` | pkg/resource/certificate/references.go:41-49 | The ARN is taken away exactly when there is a reference, and nothing else |
| `References.ResolveThenClear` | pkg/resource/certificate/references.go:41-112 | Resolving and clearing restores the Spec if and only if it does not name the authority twice |
| `References.ResolvedArnIsUsable` | pkg/resource/certificate/references.go:119-167 | A resolved ARN is that of the authority the reference names, in the namespace it gives or else the resource's, which is not Terminal, is synced, and has that ARN |

## Left out

- LateInitialization.LateInitialize: does not model the LateInitialized and ResourceSynced conditions it sets, whose setters are in the runtime library.
- Export.ExportCertificate: does not model PEM and PKCS8 decoding, RSA against EC keys, or the bytes of the passphrase; each failure they can cause is an input.
- Objects.Certificate.DeepCopy: does not model aliasing of scalar pointers; a nilable field is a value, and only tags and conditions are objects.
- TagSync.SyncTags: requires non-nil keys and a non-nil winning value for each key, because the source dereferences them; tag lists with nil entries are modelled in the deep copy only.
- Reconcile.SdkUpdateCertificate: requires a recorded ARN when it synchronises tags and a key algorithm when an export gets as far as decrypting, because the source dereferences both; `Passes.UpdateCallable` says when a run meets this, and the machine covers the panic when it does not.
- ManagerCache.ResourceManagerFactory.ManagerFor: the error return of `newResourceManager`, which it never uses, is not modelled. The interleaved machine's theorems are for accounts and regions without a slash.
- Protocol.ExportFreshness: a changed export target is not covered, because nothing is exported to the new target before the next serial (`Convergence.NoExportUntilRenewal`).
- Deletion, adoption, finalizers, identifiers, `Create` and `Delete` of manager.go (the same `onError`/`onSuccess` tail as `Update`), metrics, logging and tracing: easy members or wiring.
- The difference between a nil and an empty tag or condition list, condition timestamps, and the individual read-only status fields, which are one record here.
- `generateRandomString`: its result is an input.
- The other generated deep copies, enums and types: repetitive field copies.
- A Go map being ranged over while another goroutine writes it: the code never shares one.
