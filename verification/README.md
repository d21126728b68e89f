# Update convergence and content stores, modelled in Dafny

This project models how the provisioning system brings a vehicle to a desired software state, and
the content-identified stores underneath. It covers four connected parts.

* **Deciding what is left to do.** The part diff, the flash plan and the assessment (`Wire`), Tower 2's
  choice of what to sign (`Tower`), the orchestrator's fan-out, push jobs and campaign steps
  (`Orchestrator`), the read-only preview (`Previews`) and the CLI gate (`Gates`). `Pipeline` shows the
  signed L1 is transparent: building it, fanning it out and diffing it equals a direct description that
  never mentions it. `Gates` relates the layers: no early gate hides work, the tower's skip is a pure optimisation, every push is safe.
* **Repeated passes.** `Convergence` runs any number of passes against a device under a stated contract
  (a committed step realises its jobs, a failed trial is rolled back, a failed write-through may leave
  its own component in any state, the advertised set only grows) and gives a real measure.
* **The release store.** `Identities` and `TreeHash`/`TreeHashTheorems` treat the three canonical encodings
  as unique-decoding problems; `ReleaseStore`, `ReleaseTheorems`, `ReleaseReuse` and `ReleaseCompleteness` treat the
  tables as a state machine over every sequence of requests, failing ones included.
* **The blob store.** `BlobStore`, `Publish` and `PublishTheorems` cover the streaming encrypt-once publisher,
  `ConcurrentPublish`/`ConcurrentTheorems` every interleaving of any number of publishers, and `Deployment`
  joins publishing to planning. `TokenCache` and `TokenOrder` cover the per-boot token cache.

Loops and objects of the source are methods and classes proved equal to specification functions; the
theorems are about those functions. What each function means is stated once more without it, on the
inputs alone: `DiffMeaning` for the diff and the flash plan, `CampaignMeaning` for the L1 answers, the fan-out
and the jobs, `Pipeline.ExactPlan` for the whole plan, `Previews` for the preview, `ReleaseTheorems` for who is served
what over every run, and the `...Text` lemmas for the three canonical strings. SHA-256, the AES keystream and tag, and zstd
are parameters: any function does, and where a result needs the hash not to collide, it says so of the strings concerned.
zstd is any streaming codec whose frame decompresses to what was written, however the writes were cut
(a codec that meets this is exhibited). A SUIT envelope is a datatype; a ciphertext is plaintext under an unknown
keystream followed by an unknown 16-byte tag (section 7.1 of NIST SP 800-38D).

Every lemma carries `{:induction false}`: no proof leans on automatic induction.

Where the code does less than its comments or a reader may expect, the model follows the code, shows an
input, and says exactly when:

* `diff` of a tree with itself is empty if and only if no entity gives one part id two contents
  (`SelfDiffExact`); a repeated id with equal content does no harm.
* The gate can open on a campaign with no job, exactly when all it sees is idle: stuck, not advertised, or
  disabled as desired while lacking parts (`GateOpensInVain`, `StuckExact`). A stuck component stays so over
  every run of passes, and the assessment with it (`StuckForever`). The converse, a closed gate in front of a
  job, never happens.
* `tree_hash` has genuine collisions. Among trees without newlines and NULs in paths and ids, exactly the
  ambiguous ones take part in one (`TreeHashExact`); with newlines in paths so does every non-empty
  tree that is not a single bare enabled entity (`PathNewlineCollides`). For component identities, `ComponentCollidesExact` gives the exact
  condition over all requests with distinct ids.
* "Sorted by id, so order doesn't matter": for component identities row order is hidden if and only if rows
  that share an id are equal, and for `tree_hash` if and only if no entity gives an id two contents
  (`Identities.RowOrderExact`, `TreeHashTheorems.RowOrderExact`).
* "Idempotent on content" for releases: a create that fails midway leaves a truncated row, and a retry is
  answered with it, even once the request has become valid (`TruncatedForever`). All rows are complete if and only if every create of the run was whole, a condition on
  request and tables before the call (`WholeRunsExact`).
* A reused vehicle release is what a fresh one would be for every order of its members if and only if members
  that share a path stand for equal entities (`ReuseExact`, `OrderIrrelevantExact`; `SharedPathRun` is a run
  where it fails).
* The loser of a publish race answers with its own outer hash, not the index's (`RaceLoserKeepsOwnRef`);
  `PutDecides` and `ReturnedRefExact` say exactly when the two agree.
* "The mint happens once per boot" holds of a run, however its calls interleave around the lock, if and only if
  in lock order no boot id is come back to (`OncePerBoot`); `StaleReaderMintsAgain` is a run where one is.

## Model

| member | source | states |
|---|---|---|
| `ContentHashes.PrintParseRoundTrip` | crates/wire/src/lib.rs:57-104 | the prefixed and the bare hex form both parse back to the printed hash |
| `ContentHashes.ParseExact` | crates/wire/src/lib.rs:97-103 | parsing accepts exactly 64 hex digits after an optional prefix, and which error the rest get |
| `ContentHashes.ParsedBytes` | crates/wire/src/lib.rs:97-103 | each byte read is the value of its pair of digits, the high half first |
| `ContentHashes.HexValueExact` | crates/wire/src/lib.rs:97-103 | which character is which digit, in either case |
| `ContentHashes.PrintExact` | crates/wire/src/lib.rs:57-60 | the prefix, then two lower-case digits per byte, the high half first |
| `ContentHashes.PrintInjective` | crates/wire/src/lib.rs:57-60 | different hashes print differently |
| `ContentHashes.HexInjective` | crates/software-tower/src/store.rs:74-76 | different hashes name different blob files |
| `Wire.DiffTrees` | crates/wire/src/lib.rs:405-425 | the two-pass loop computes the specified diff: added and removed paths, changes in path order |
| `Wire.DiffParts` | crates/wire/src/lib.rs:427-448 | appends exactly the additions and changes in desired order, then the removals in observed order, after what was there |
| `Wire.DiffFaithful` | crates/wire/src/lib.rs:405-448 | the diff lists exactly the absent paths and mentions a desired path iff that path has changes of its own |
| `DiffMeaning.DiffEntryExact` | crates/wire/src/lib.rs:405-448 | for all trees: added iff only the desired entity has the id, removed iff only the observed one has, changed iff both have and a desired content is not the last observed one; the kind is such a part's |
| `DiffMeaning.DiffSequence` | crates/wire/src/lib.rs:405-448 | the whole part list in order: per desired entity its arriving parts, then its leaving ones, then the retired entities |
| `DiffMeaning.PlanSequence` | crates/wire/src/lib.rs:515-542 | the whole plan in order: each desired part, reused iff its content is the last observed under its id |
| `Wire.ChangesOverBelong` | crates/wire/src/lib.rs:405-448 | a listed change belongs to its own path, and every change of a listed path is listed |
| `Wire.ComputeFlashPlan` | crates/wire/src/lib.rs:515-542 | the loop computes the specified plan over ascending paths |
| `Wire.AssessTree` | crates/wire/src/lib.rs:354-400 | the sorted-set loop computes the specified assessment, duplicates of ids included |
| `Wire.CollectActionable` | crates/wire/src/lib.rs:356-385 | the accumulated set is exactly the drifted desired paths, ascending |
| `WireTheorems.DiffEmptyExact` | crates/wire/src/lib.rs:316-321 | for all trees: the diff is empty iff both trees have the same paths and id-to-content maps and no desired entity gives an id two contents |
| `WireTheorems.DiffEmptyDistinct` | crates/software-tower/migrations/0002_releases.sql:19-25 | against a tree with the distinct ids the database keeps, an empty diff is equality of paths and contents |
| `WireTheorems.SelfDiffExact` | crates/wire/src/lib.rs:427-436 | a tree differs from itself iff one of its entities gives an id two contents |
| `WireTheorems.ContentExact` | crates/wire/src/lib.rs:427-448 | no part change iff the banks agree and the desired parts are consistent |
| `WireTheorems.DiffEmptyGeneral` | crates/wire/src/lib.rs:405-448 | for all trees: empty iff same paths and no path has a change |
| `WireTheorems.DuplicateIdsDiffer` | crates/wire/src/lib.rs:427-436 | the smallest tree that differs from itself |
| `WireTheorems.PartChangesExact` | crates/wire/src/lib.rs:427-448 | no change iff every desired part is in the observed bank and no observed id is extra |
| `WireTheorems.DiffIsEditScript` | crates/wire/src/lib.rs:405-448 | for all trees, applying the diff to the observed paths and contents gives the desired ones |
| `WireTheorems.TraversalsAgree` | crates/wire/src/lib.rs:427-542 | for all trees the shipped parts of the plan are the added and changed entries of the diff, in the same order |
| `WireTheorems.PlanIsLocal` | crates/wire/src/lib.rs:505-542 | a component's plan depends only on that component's own bank |
| `WireTheorems.AssessExact` | crates/wire/src/lib.rs:354-400 | for all trees the component list is exactly the set that needs work, ascending; the four outcomes partition all inputs by it |
| `Suit.BuildEnvelope` | crates/software-tower/src/signer.rs:80-123 | one manifest component per part, in order: id, digest, size, content address or integrated uri, and its key and nonce wrapped for this device alone |
| `Suit.BuildCampaign` | crates/software-tower/src/signer.rs:129-150 | the loop puts each named L2 under its prefixed key, the last of a repeated name |
| `Suit.IntegratedAt` | crates/software-tower/src/signer.rs:129-150 | an image with no later one of its name is found under its key |
| `Tower.EntityAgreedLoop` | crates/software-tower/src/releases.rs:752-760 | true iff every desired digest is in the given reported bank |
| `Tower.PartitionPaths` | crates/software-tower/src/releases.rs:786-820 | the three lists hold exactly the paths of each verdict, in path order |
| `Tower.WithVerdictMembers` | crates/software-tower/src/releases.rs:786-820 | membership and order of each verdict's list |
| `Tower.CollectParts` | crates/software-tower/src/releases.rs:688-701 | succeeds iff every part is indexed, and then lists them with their stored keys |
| `Tower.ChannelTargetL1` | crates/software-tower/src/releases.rs:603-734 | which of signed, no content and not found is answered, and that the campaign carries exactly the built components |
| `CampaignMeaning.L1AnswerExact` | crates/software-tower/src/releases.rs:603-734 | on tree, report and index alone: not found iff a part to flash is not indexed or the target is blank, no content iff nothing is due but it is not blank, and what every signed campaign holds |
| `CampaignMeaning.CarriedIsExact` | crates/software-tower/src/signer.rs:80-173 | an L2 for exactly the due paths: part i has id path and part id, the part's digest, the entry's size and address, and its key wrapped to the requesting device; a disable names the path; both carry the sequence number |
| `CampaignMeaning.VerdictExact` | crates/software-tower/src/releases.rs:786-820 | when a component is flashed, disabled or ignored, on the report's own fields |
| `Tower.CampaignCarries` | crates/software-tower/src/releases.rs:668-734 | the assembled campaign has one L2 per built path, its own |
| `Orchestrator.FanoutL1` | crates/orchestrator/src/lib.rs:894-973 | the decoding loop with early errors computes the specified fan-out |
| `CampaignMeaning.FanoutExact` | crates/orchestrator/src/lib.rs:894-973 | for any campaign: one slice per L2 in key order, read field by field, or the exact error of the first that cannot be read |
| `CampaignMeaning.SliceOrRefusal` | crates/orchestrator/src/lib.rs:894-973 | an L2 that can be read is not refused, so success and error exclude each other |
| `Orchestrator.DecodeManifest` | crates/orchestrator/src/lib.rs:915-966 | parts in manifest order or the first error |
| `Orchestrator.L1Jobs` | crates/orchestrator/src/lib.rs:1045-1104 | the job loop with its capability, allowlist and unchanged gates computes the specified jobs or the first fetch error |
| `CampaignMeaning.JobListExact` | crates/orchestrator/src/lib.rs:1016-1104 | for any slices: the allowlisted and advertised ones become jobs in order, without payload iff the device has every declared digest, or the error names the first missing ciphertext of the first that lacks one |
| `Orchestrator.PlanSteps` | crates/orchestrator/src/lib.rs:1342-1379 | the step builder computes the specified steps, and the number of jobs the device says cannot be rolled back |
| `Orchestrator.StepsAreSafe` | crates/orchestrator/src/lib.rs:1342-1379 | on the device's report: every job once in stable order, irreversible ones alone and first, no mixed step, only the last step resets, count exact |
| `Orchestrator.ScheduleExact` | crates/orchestrator/src/lib.rs:1342-1379 | the whole schedule: a step does not force a reset iff its job's component is reported, classified and not reversible; order and number of steps |
| `Orchestrator.ModesPartition` | crates/orchestrator/src/lib.rs:1353-1356 | splitting by rollback mode loses and repeats no job |
| `Pipeline.L1RoundTrip` | crates/software-tower/src/releases.rs:668-734 | fanning out a built campaign gives back exactly the built components in path order with their parts, disables with none |
| `Pipeline.KeysAscend` | crates/software-tower/src/signer.rs:129-150 | prefixing keys keeps path order |
| `Pipeline.UnchangedIsAgreed` | crates/orchestrator/src/lib.rs:1016-1025 | the orchestrator's and the tower's "already carried" tests agree on a built component |
| `Pipeline.JobForSlice` | crates/orchestrator/src/lib.rs:1074-1101 | a fanned-out component becomes the direct job, and fails exactly when a blob is missing |
| `Pipeline.JobsOfSlices` | crates/orchestrator/src/lib.rs:1045-1104 | the whole job list succeeds iff every eligible component can be pushed, and is then the direct plan |
| `Pipeline.L1FlashPlan` | crates/orchestrator/src/lib.rs:1124-1184 | planning end to end: when it succeeds, the plan it gives on trees, index and blobs alone, and which error names what otherwise |
| `Pipeline.PlannedIsExact` | crates/orchestrator/src/lib.rs:1124-1184 | a job for exactly the due, allowed and advertised components, ascending, each with its own L2 for this device and its parts' stored blobs |
| `Pipeline.PlanSucceedsExact` | crates/orchestrator/src/lib.rs:1124-1184 | success iff every due part is indexed, every needed blob is stored and the target is not blank |
| `Pipeline.NamesMissingBlob` | crates/orchestrator/src/lib.rs:983-993 | a failed fetch names a blob that the plan needs and the store lacks |
| `Previews.Preview` | crates/orchestrator/src/lib.rs:508-600 | lists the allowlisted desired components that want parts, ascending; version, rollback flag, shipped parts with their blobs, count of held parts; and the assessment |
| `Previews.PreviewExact` | crates/orchestrator/src/lib.rs:536-590 | the same of the specified list, for any allowlist, told from the two trees and the index |
| `Previews.PreviewPredictsStep` | crates/cli/src/main.rs:858-865 | a component shown as irreversible is exactly one whose job the campaign runs alone without a forced reset |
| `Gates.PreviewShips` | crates/orchestrator/src/lib.rs:536-575 | a component is listed as shipping iff some part is not held under its id |
| `Gates.GateExact` | crates/cli/src/main.rs:1220-1229 | the gate opens iff a selected component drifted or lacks a part |
| `Gates.BuiltIsAssessed` | crates/software-tower/src/releases.rs:786-820 | everything the tower builds or disables is in the assessment |
| `Gates.GatesNeverHideWork` | crates/cli/src/main.rs:832-854 | converged, deferred, bailed or no-work means no job under that filter |
| `Gates.RenamedPartPassesGate` | crates/cli/src/main.rs:1220-1229 | the everyday case: a part held under another id opens the gate with no job behind it |
| `Gates.StuckExact` | crates/cli/src/main.rs:854-857 | for an advertised component: drifted without being outstanding iff stuck, written out on admin state, parts and ids |
| `Gates.IdleExact` | crates/cli/src/main.rs:1220-1229 | a component opens the gate and gets no job iff it is idle |
| `Gates.GateOpensInVain` | crates/cli/src/main.rs:832-854 | for all trees and selections: the gate opens with no job behind it iff all it sees is idle |
| `Gates.BailsExact` | crates/cli/src/main.rs:832-841 | the deferred bail on the two trees: all drift is unadvertised and the selected component is part of it |
| `Gates.ProceedsInVain` | crates/cli/src/main.rs:832-854 | the CLI goes ahead with no job behind it iff all it sees is idle and not all of it deferred |
| `Gates.MissingDigestIsChange` | crates/software-tower/src/releases.rs:752-760 | a digest the bank lacks is a part change: the id join sees all the digest join sees |
| `Gates.JobsExact` | crates/orchestrator/src/lib.rs:1045-1104 | with report = observed a component has a job iff desired, advertised, allowed and outstanding |
| `Gates.TowerSkipIsPure` | crates/software-tower/src/releases.rs:752-820 | with or without the report the payload-carrying jobs are the same sequence |
| `Gates.TowerSkipDifference` | crates/software-tower/src/releases.rs:797-818 | the remaining difference is manifest-only jobs for carried components, and disables |
| `Gates.TowerSkipNeverFails` | crates/software-tower/src/releases.rs:797-818 | reporting never turns a plan that succeeds into one that fails |
| `Gates.PushIsSafe` | crates/orchestrator/src/lib.rs:1016-1104 | targets advertised and allowed, payload i is part i's blob, manifest-only firmware iff reported disabled while holding all digests |
| `Convergence.PassShrinks` | crates/orchestrator/src/lib.rs:1285-1402 | a pass removes what it committed from the pending set, adds nothing, and at least one component per committed step |
| `Convergence.RunShrinks` | crates/orchestrator/src/lib.rs:1285-1402 | over any run nothing settled becomes pending again |
| `Convergence.CommittedOnce` | crates/orchestrator/src/lib.rs:1313-1320 | no component is committed twice in a run; a failed write-through is tried again |
| `Convergence.RunTerminates` | crates/orchestrator/src/lib.rs:1285-1402 | committed steps plus what is still pending never exceed what was pending at the start |
| `Convergence.NoJobsMeansAgreed` | crates/orchestrator/src/lib.rs:1045-1104 | an unfiltered pass plans no job iff every advertised component with parts or a disable agrees |
| `Convergence.FullPassSettles` | crates/orchestrator/src/lib.rs:1285-1402 | after a pass that committed everything the next one plans nothing |
| `Convergence.StuckForever` | crates/orchestrator/src/lib.rs:1285-1402 | a stuck component has no job in any pass of any run, and the assessment stays actionable |
| `Convergence.RealisedAgrees` | crates/orchestrator/src/lib.rs:1285-1293 | what a committed job declares is what the release wants |
| `Convergence.PassExists` | crates/orchestrator/src/lib.rs:1285-1293 | every plan has a pass committing any chosen number of its steps |
| `Canonical.SortCanonical` | crates/software-tower/src/releases.rs:845-846 | with distinct ids, sorting by id gives equal lists iff the parts are the same multiset |
| `Canonical.SortStable` | crates/software-tower/src/releases.rs:845-846 | the sort orders by id and leaves the parts of each id in their order |
| `Canonical.SortExact` | crates/software-tower/src/releases.rs:845-846 | for all lists: equal sorted lists iff the same parts for every id in the same order |
| `Canonical.DecimalInjective` | crates/software-tower/src/releases.rs:873-901 | decimal printing of ids, negative ones included, is injective |
| `Canonical.JoinInjective` | crates/software-tower/src/releases.rs:873-901 | joining separator-free pieces can be undone |
| `Identities.ComponentIdentity` | crates/software-tower/src/releases.rs:844-860 | the buffer loop builds the specified string |
| `Identities.ComponentText` | crates/software-tower/src/releases.rs:841-860 | the text part by part: a part that comes last by id adds one line with id, kind and printed content |
| `Identities.ComponentIdentityExact` | crates/software-tower/src/releases.rs:844-860 | strings are equal iff entity kinds and part multisets are, given distinct ids and no separators |
| `Identities.ComponentCollidesExact` | crates/software-tower/src/releases.rs:844-860 | with distinct ids and any characters: a request shares its string with a different one iff it has parts or its kind ends in a record |
| `Identities.KindNewlineCollides` | crates/software-tower/src/releases.rs:844-860 | without the newline condition every release with parts collides with one that has fewer |
| `Identities.NulCollides` | crates/software-tower/src/releases.rs:844-860 | a NUL moves the boundary between id and kind, for all strings |
| `Identities.DuplicateIdsOrderMatters` | crates/software-tower/src/releases.rs:844-860 | the smallest case: two different rows of one id, in both orders, give different strings |
| `Identities.RowOrderExact` | crates/software-tower/src/releases.rs:841-860 | for every kind and all NUL-free rows: no rearrangement changes the string iff rows that share an id are equal |
| `Identities.RepeatsHideOrder` | crates/software-tower/src/releases.rs:841-860 | when rows that share an id are equal, no rearrangement changes the string, whatever characters they hold |
| `Identities.RowsExact` | crates/software-tower/src/releases.rs:844-860 | for one kind: equal strings iff every id has the same rows in the same order |
| `Identities.ComponentRowsExact` | crates/software-tower/src/releases.rs:844-860 | repeated ids included: equal strings iff one kind and the same rows for every id in the same order |
| `Identities.VehicleIdentity` | crates/software-tower/src/releases.rs:873-901 | sort, dedup, filter, print and join build the specified string |
| `Identities.VehicleText` | crates/software-tower/src/releases.rs:873-881 | the text member by member, ascending, with commas between |
| `Identities.DisabledText` | crates/software-tower/src/releases.rs:883-899 | the disabled members follow a marker, in the same form; ids that are not members leave no trace |
| `Identities.BinarySearch` | crates/software-tower/src/releases.rs:885-889 | found iff present in the sorted members |
| `Identities.VehicleIdentityExact` | crates/software-tower/src/releases.rs:873-901 | for all inputs: equal strings iff equal member sets and equal disabled members |
| `TreeHash.ComputeTreeHash` | crates/software-tower/src/releases.rs:1087-1108 | the nested buffer loop builds the specified string |
| `TreeHashTheorems.TreeText` | crates/software-tower/src/releases.rs:1087-1108 | the text entity by entity and part by part |
| `TreeHash.RenderNearlyInjective` | crates/software-tower/src/releases.rs:1087-1108 | equal lines come from equal blocks, or one list refolds into the other around a line `disabled` |
| `TreeHashTheorems.TreeHashOrderIndependent` | crates/software-tower/src/releases.rs:1081-1108 | with distinct ids, whatever characters paths and ids hold, part row order, kinds and versions do not matter |
| `TreeHashTheorems.RowOrderExact` | crates/software-tower/src/releases.rs:1081-1108 | for all trees: no rearrangement of part rows changes the preimage iff no entity gives an id two contents |
| `TreeHashTheorems.TreeHashCanonical` | crates/software-tower/src/releases.rs:1081-1108 | with no entity called `disabled`: equal preimages iff same paths, flags and id-to-content maps |
| `TreeHashTheorems.CollisionIsAmbiguous` | crates/software-tower/src/releases.rs:1095-1097 | two targets sharing a preimage are ambiguous and one has an entity called `disabled` |
| `TreeHashTheorems.TreeHashExact` | crates/software-tower/src/releases.rs:1087-1108 | among trees without newlines and NULs in paths and ids, a tree shares its preimage with another target iff it is ambiguous |
| `TreeHashTheorems.PathNewlineCollides` | crates/software-tower/src/releases.rs:1087-1108 | if paths could hold newlines every tree would share its preimage with a single bare entity, another target unless it was one |
| `TreeHashTheorems.Unfold` | crates/software-tower/src/releases.rs:1095-1097 | a disabled entity collides with a bare one followed by one called `disabled` |
| `TreeHashTheorems.TradeFlags` | crates/software-tower/src/releases.rs:1095-1097 | a bare entity and one called `disabled` can trade flags unseen |
| `TreeHashTheorems.FoldUp` | crates/software-tower/src/releases.rs:1095-1097 | a bare entity followed by one called `disabled` collides with one disabled entity |
| `ReleaseStore.Tables.PostComponent` | crates/software-tower/src/releases.rs:193-240 | row, then children up to the first refused one: new tables and reply equal the specified transition |
| `ReleaseStore.Tables.InsertParts` | crates/software-tower/src/releases.rs:226-238 | the insert loop stops exactly at the first repeated part id |
| `ReleaseStore.Tables.PostVehicle` | crates/software-tower/src/releases.rs:245-303 | same for vehicle releases, refusing repeated and unknown members |
| `ReleaseStore.Tables.PutTarget` | crates/software-tower/src/releases.rs:403-446 | binding and channel row together or neither, with the resolved tree's hash |
| `ReleaseStore.Tables.ResolveToTree` | crates/software-tower/src/releases.rs:1013-1058 | the join loop, failing on the first malformed hash |
| `ReleaseStore.Tables.FindChannelVehicle` | crates/software-tower/src/releases.rs:965-992 | exact row, or the channel's only target |
| `ReleaseStore.Tables.ResolveTarget` | crates/software-tower/src/releases.rs:923-960 | pinned or channel lookup with the tree-hash check |
| `ReleaseStore.Tables.ResolveForL1` | crates/software-tower/src/releases.rs:632-649 | a pinned release that never served this device and architecture is not found; otherwise the lookup decides |
| `ReleaseStore.Tables.ReleaseMatches` | crates/software-tower/src/releases.rs:994-1009 | true iff the binding is recorded |
| `ReleaseTheorems.ReadBack` | crates/software-tower/src/releases.rs:1066-1080 | stored part rows read back as the parts written |
| `ReleaseTheorems.ReachableSound` | crates/software-tower/src/releases.rs:193-446 | in every reachable state each channel row exists, resolves, stores its tree's hash and has its binding; rows are unique per identity |
| `ReleaseTheorems.RunKeeps` | crates/software-tower/src/releases.rs:193-446 | every run keeps the invariant and loses no release and no binding |
| `ReleaseTheorems.PinnedForever` | crates/software-tower/migrations/0009_vehicle_release_targets.sql:1-13 | a served (release, tree hash) answers an L1 request of its device and architecture with the same tree in every later state |
| `ReleaseTheorems.TreeHashBinds` | crates/software-tower/src/releases.rs:1081-1086 | an L1 request carrying the hash of a planned tree is answered with that very target, or refused |
| `ReleaseTheorems.BindingsAreHistory` | crates/software-tower/migrations/0009_vehicle_release_targets.sql:1-9 | the bindings are exactly the tuples ever successfully set as a target |
| `ReleaseTheorems.ChannelIsLastSet` | crates/software-tower/src/releases.rs:403-446 | a channel row exists iff its selector was ever set, and names the last release it was set to |
| `ReleaseTheorems.LookupExact` | crates/software-tower/src/releases.rs:923-992 | over every run: which release a query asks for, from what was ever set, and that it is answered with that release's tree, refused for its hash, or not found; never an internal error |
| `ReleaseTheorems.SetTargetExact` | crates/software-tower/src/releases.rs:403-446 | setting a target succeeds iff the release exists, and answers with the hash of its tree |
| `ReleaseTheorems.ChannelRequestExact` | crates/software-tower/src/releases.rs:962-992 | an L1 request by channel is served iff that very channel, device and architecture was ever set, with the release it was last set to |
| `ReleaseTheorems.PinnedRequestExact` | crates/software-tower/src/releases.rs:632-652 | a pinned L1 request is served iff that release was ever set for this device and architecture |
| `ReleaseTheorems.FoundIsBound` | crates/software-tower/src/releases.rs:632-652 | whatever an L1 request gets was set for its device and architecture |
| `ReleaseTheorems.BareChannelExact` | crates/software-tower/src/releases.rs:962-992 | without device and architecture a channel is served iff exactly one of its selectors was ever set |
| `ReleaseTheorems.ReleaseRequestExact` | crates/software-tower/src/releases.rs:923-960 | asked for by id outside an L1 request, every existing release is served |
| `ReleaseReuse.ComponentCreationExact` | crates/software-tower/src/releases.rs:193-240 | created, reused or error, each iff a condition on tables and request; what an error leaves behind |
| `ReleaseReuse.CreatedReadsBack` | crates/software-tower/src/releases.rs:213-240 | a created release reads back as the requested parts |
| `ReleaseReuse.ReusedHasContent` | crates/software-tower/src/releases.rs:193-212 | a reused complete release has the requested kind and parts if the hash separates the two strings |
| `ReleaseCompleteness.WholeRunReuse` | crates/software-tower/src/releases.rs:193-212 | after a run of whole requests completeness need not be asked for |
| `ReleaseCompleteness.PlainReuse` | crates/software-tower/src/releases.rs:193-212 | among requests without separator characters, one with distinct ids that is reused always gets its own kind and parts, whatever other creates failed |
| `ReleaseReuse.OneReleasePerContent` | crates/software-tower/migrations/0003_release_identity.sql:13-20 | at most one complete release per path and content in every reachable state |
| `ReleaseReuse.RetryReusesTruncated` | crates/software-tower/src/releases.rs:213-238 | for all tables and requests: a create that failed is answered, on retry, with the row the failure left |
| `ReleaseReuse.FailedCreateLeaves` | crates/software-tower/src/releases.rs:213-238 | what a failed create leaves: a row with the parts before the first repeated id |
| `ReleaseReuse.FailedVehicleLeaves` | crates/software-tower/src/releases.rs:277-301 | what a failed vehicle create leaves: a row with the members before the first refused one |
| `ReleaseReuse.RetryReusesTruncatedVehicle` | crates/software-tower/src/releases.rs:245-303 | and the retry is answered with that row |
| `ReleaseReuse.TargetServesRows` | crates/software-tower/src/releases.rs:403-446 | truncated or not, a release that is pointed at serves the tree of the rows it has |
| `ReleaseCompleteness.MissingMemberRun` | crates/software-tower/src/releases.rs:245-303 | a run in which a release with a missing member is refused and then handed out without it |
| `ReleaseCompleteness.LateMemberRun` | crates/software-tower/src/releases.rs:245-303 | a run in which the missing member is created and the now valid request still gets the truncated release |
| `ReleaseCompleteness.TruncatedForever` | crates/software-tower/src/releases.rs:245-303 | after any later requests the failed one is answered with its truncated row |
| `ReleaseCompleteness.TruncatedIsIncomplete` | crates/software-tower/src/releases.rs:213-238 | a truncated row is not complete, its identity string being longer than its content's |
| `ReleaseCompleteness.VehicleRowExact` | crates/software-tower/src/releases.rs:277-301 | a cut vehicle row is complete iff no member was lost |
| `ReleaseCompleteness.WholeRunsExact` | crates/software-tower/src/releases.rs:193-303 | every row is complete iff every create of the run was known or had distinct ids, or members that exist with no new one after a repeat |
| `ReleaseReuse.VehicleCreationExact` | crates/software-tower/src/releases.rs:245-303 | created, reused or error, each iff a condition, and what is stored in each case |
| `ReleaseReuse.CreatedVehicleResolves` | crates/software-tower/src/releases.rs:277-301 | a created vehicle release resolves to its members' kinds, versions and parts, the last of those sharing a path, disabled exactly where the request says |
| `ReleaseReuse.ResolveIsJoin` | crates/software-tower/src/releases.rs:1013-1058 | the tree is the join of the members' seats in order, for any members |
| `ReleaseReuse.OrderIrrelevantExact` | crates/software-tower/src/releases.rs:1013-1058 | every order of a member list resolves to one tree iff members sharing a path stand for equal entities |
| `ReleaseReuse.ReusedVehicleResolves` | crates/software-tower/src/releases.rs:245-303 | a reused vehicle release resolves to exactly the tree a fresh one would when sharers agree |
| `ReleaseReuse.ReuseExact` | crates/software-tower/src/releases.rs:245-303 | it does so for every request of its identity iff sharers agree |
| `ReleaseCompleteness.SharedPathRun` | crates/software-tower/src/releases.rs:1013-1058 | a run in which the second of two orders is answered with the first one's release, which resolves to another tree |
| `BlobStore.FsBlobStore.Begin` | crates/software-tower/src/store.rs:85-96 | takes the next number and truncates or creates that temp, nothing else |
| `BlobStore.FsBlobSink.Commit` | crates/software-tower/src/store.rs:129-143 | the temp becomes the blob, or goes if the blob exists |
| `BlobStore.FsBlobSink.Drop` | crates/software-tower/src/store.rs:146-153 | an uncommitted temp is removed |
| `BlobStore.TempIsNoBlob` | crates/software-tower/src/store.rs:74-88 | no temp name is a blob name |
| `BlobStore.TempNamesDiffer` | crates/software-tower/src/store.rs:79-88 | different numbers or different processes give different temps |
| `Publish.StreamEncryptor.Update` | crates/software-tower/src/crypto.rs:47-54 | the reused buffer holds exactly this chunk's ciphertext at the running offset |
| `Publish.Publisher.StreamBody` | crates/software-tower/src/content.rs:70-107 | for every chunking the five accumulators end at plaintext, size, sealed body and temp contents |
| `Publish.Publisher.PublishStream` | crates/software-tower/src/content.rs:54-130 | index, files and answer equal the specified publish: abort and dedup change nothing, otherwise blob and entry are added |
| `Publish.PublishedExact` | crates/software-tower/src/content.rs:54-130 | what the answer names, whose hash, size, key, nonce and address a fresh entry holds, and which files and entries stay |
| `Publish.Publisher.GetBlob` | crates/software-tower/src/content.rs:152-175 | a bad address, a missing blob or the stored bytes |
| `Publish.SealedOpens` | crates/software-tower/src/content.rs:54-107 | decrypting and decompressing the blob gives back the plaintext, for every chunking |
| `PublishTheorems.ChunkingIrrelevant` | crates/software-tower/src/content.rs:44-53 | same bytes cut differently: same inner and size, both open to the bytes, and the second is answered with the first's reference |
| `PublishTheorems.NothingChanges` | crates/software-tower/src/store.rs:200-214 | entries and blobs never change over a run of uploads |
| `PublishTheorems.EveryUploadFetchable` | crates/software-tower/src/content.rs:54-130 | after any run, broken uploads included, every complete upload can be looked up, fetched and opened |
| `Deployment.StockedCanBePlanned` | crates/orchestrator/src/lib.rs:1124-1184 | if every wanted content can be delivered, planning fails only for lack of a target |
| `Deployment.StockedByUploads` | crates/software-tower/src/content.rs:54-130 | uploads made one after another make all they held deliverable |
| `Deployment.StockedByRun` | crates/software-tower/src/content.rs:109-129 | and so do racing publishers, once answered, at any point of any interleaving |
| `Deployment.PlannedPayloadsOpen` | crates/orchestrator/src/lib.rs:1074-1101 | a job ships nothing or one payload per manifest component, each opening for the target device, under the key wrapped to it, to bytes with the declared digest and size |
| `ConcurrentPublish.StepKeepsAll` | crates/software-tower/src/content.rs:109-129 | every step of every publisher keeps the invariant, all entries, all blobs and all other temps |
| `ConcurrentTheorems.EntriesPointToBlobs` | crates/software-tower/src/content.rs:109-129 | in every interleaving each entry's blob is stored under its own hash |
| `ConcurrentTheorems.RunLater` | crates/software-tower/src/store.rs:200-214 | entries never change, blobs never vanish, answers stay given |
| `ConcurrentTheorems.ReturnedRefsHold` | crates/software-tower/src/content.rs:109-129 | a returned reference names an indexed plaintext and a stored blob ever after |
| `ConcurrentTheorems.ReturnedIsFetchable` | crates/software-tower/src/content.rs:109-129 | whatever raced, a returned upload can be opened to its own bytes from then on, and its answer gave their size |
| `ConcurrentTheorems.TempsArePrivate` | crates/software-tower/src/store.rs:79-153 | nobody else creates, changes or removes a publisher's temp |
| `ConcurrentTheorems.PutDecides` | crates/software-tower/src/content.rs:119-129 | the answer equals the index's reference iff nobody was first or the outer hashes coincide |
| `ConcurrentTheorems.ReturnedRefExact` | crates/software-tower/src/content.rs:109-129 | over any run, an answer that is not the index's reference is the publisher's own and differs in the outer hash |
| `ConcurrentTheorems.RaceLoserKeepsOwnRef` | crates/software-tower/src/content.rs:119-129 | from any starting store two uploads of the same bytes can end with different references, both stored |
| `ConcurrentTheorems.FinishAlone` | crates/software-tower/src/content.rs:119-129 | a publisher past the lookup can always finish |
| `TokenCache.RigToken.GetToken` | crates/orchestrator/src/lib.rs:803-840 | cache, mint count and answer equal the specified step, failures included |
| `TokenCache.CacheIsLastServed` | crates/orchestrator/src/lib.rs:812-840 | the cache pairs a token with its own boot, that of the last call served |
| `TokenCache.ReplyIsBound` | crates/orchestrator/src/lib.rs:812-840 | a returned token is bound to the boot id that call read |
| `TokenCache.ReplyOrigin` | crates/orchestrator/src/lib.rs:826-840 | every token returned was minted by a call of the run, for the ecu id and the boot id that call read |
| `TokenCache.ReplyFails` | crates/orchestrator/src/lib.rs:820-838 | a call fails iff the boot id cannot be read, or it must mint and cannot |
| `TokenCache.MintsCounted` | crates/orchestrator/src/lib.rs:670-677 | all succeeding: one mint plus one per boot-id change |
| `TokenCache.TokensMatchTheirRead` | crates/orchestrator/src/lib.rs:812-840 | in every interleaving with reboots: token bound to the boot read, cache paired, one lock holder |
| `TokenOrder.LockOrder` | crates/orchestrator/src/lib.rs:812-840 | in every run cache and mint count are those of the served calls made one after another in lock order |
| `TokenOrder.OrderCounts` | crates/orchestrator/src/lib.rs:812-840 | each call that got a token counts once in that order |
| `TokenOrder.OncePerBoot` | crates/orchestrator/src/lib.rs:670-677 | a run mints once per boot id it serves iff in lock order no boot id is come back to |
| `TokenCache.AloneIsSequential` | crates/orchestrator/src/lib.rs:812-840 | a call nothing interleaves with does what the sequential cache does |
| `TokenCache.StaleReaderMintsAgain` | crates/orchestrator/src/lib.rs:812-840 | a stale reader can cost extra mints: three mints for one reboot |

## Left out

- HTTP routing, argument parsing, printing, tracing and the SOVD reads of the vehicle: plumbing without a deep invariant.
- The client crate: thin request wrappers.
- X.509, CSRs, COSE/CWT minting and the keystore: their substance is in libraries that are not part of this model.
- The bits of SHA-256, AES-GCM, zstd, CBOR, key wrapping and signatures: parameters with stated contracts, or datatypes.
- The flash engine, health checks and the device's bank logic: an environment contract; trials left uncommitted on request are not modelled.
- Release history lists, config snapshots, channel listing and the device roster: read-only or single-row data no identity depends on.
- The error a filtered campaign raises when its filter matched nothing, and the per-component result records: a single test after planning.
- Sharing between the CLI's read of the vehicle and the orchestrator's later one: the gate results are for one observed state.
- ReleaseStore.Tables.InsertParts: the primary key is the only refusal; that the database also refuses a NUL in a text value is not modelled, so the tables here admit more rows than it would.
- ReleaseStore.Tables.PostVehicle: the config snapshot, which a reuse may fill in, is label data and left out.
- ReleaseStore.Tables.PostComponent: a handler runs to its end or its first database error before the next starts; concurrent handlers, id gaps and connection failures between inserts are not modelled.
- ReleaseStore.Tables.ResolveToTree: rows come in insertion order; the database promises no order, which only matters with two members on one path.
- Identities.ComponentIdentityExact: asks for distinct ids, a kind without newline and no NULs; `ComponentRowsExact` drops the first, and over all characters `ComponentCollidesExact` is the exact statement.
- Publish.Publisher.PublishStream: failures other than a broken upload are covered by the concurrent model, where a publisher may stop at any step; `size` is unbounded, not 64-bit.
- ConcurrentPublish.StepKeepsAll: one process; a second process with the same id, and wrap-around of the 64-bit temp counter, are not modelled.
- TokenCache.RigToken.GetToken: the pre-supplied token variant, which is returned as it is, and the trimming of ids read from the device are not modelled.
- Suit.BuildEnvelope: failures of key parsing, re-wrapping and signing are not modelled.
- Suit.BuildCampaign: that a repeated name replaces the earlier image is an assumption about the campaign builder, which is not part of this model; the tower never repeats one.
- Tower.ChannelTargetL1: takes the resolved tree and a usable device key; bad keys and signer errors are not modelled.
- Pipeline.L1FlashPlan: the device key lookup, the selector check, the trust anchor and the state encoding are not modelled.
- Signing sequence numbers and validity are carried as given.
