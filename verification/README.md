# Release and guest-fixture tooling: a verified model

A Dafny model of the algorithms in this repository's release scripts, guest-engine harness and live
probes, with proofs of what they are for. Registry, file system, kernel, clock and network answers are
parameters that may take any value the real ones can; everything computed from them is modelled.

| module | models |
|---|---|
| `PackageGraph`, `DependencyOrder` | the two three-state depth-first orders, and why they refuse exactly the cyclic graphs |
| `NameOrder`, `RequiredClosure` | the reachability closure behind the npm set, sorted |
| `PublishRun` | decision, plan, publish loop and re-drives over an append-only registry |
| `RelativePath`, `LinkResolution`, `LinkDepth` | path text and the symlink resolver, against two component-by-component walks; where it gives up |
| `StagedTree`, `Staging` | manifest checks, the building of the staged tree, the inventory walk, and the round trip between them |
| `BoundedCopy` | bounded reading and copying under arbitrary short reads and writes |
| `CurrentInputs`, `InventoryRules` | the walk over the source; the rules of both inventory walks written out |
| `Snapshot` | `check_snapshot`, `stage` and `verify_staged` as one run |
| `SourceTrees`, `Workspace` | sources that pass the checks, and the smallest one with all that is required |
| `VisitLimit`, `LinkDivergence`, `EmptyFolder` | three ways in which a source that passes `check_snapshot` is not staged, or not as resolved |
| `TranscriptEvidence` | the transcript acceptor and the native-state binding |
| `MountOracle` | the fail-stop mount oracle |
| `Mountinfo`, `MountinfoGrammar`, `MountinfoText` | the mountinfo parser with its escapes, the grammar it accepts, lines and limits |
| `ProviderProtocol`, `ToolRounds` | the provider's pull protocol; the tool-round wire check |
| `NgramScan`, `UpdatePlacement`, `LineReader` | the verbatim-run scan, update relocation, chunked line splitting |
| `RegistryScope`, `RegistryCalls`, `KeychainLocator` | scoped environment edits, nested and in any interleaving; the keychain locator's parser and printer |

`Outcome`, `Text` and `Picking` hold the shared `Option`/`Result` types, text splitting and what it means to
filter a list. Code that updates state is modelled by classes and loops proved against a specification function; the
theorems are then lemmas about that function. Where code and specification share a test, its meaning is stated again
in full, field by field or letter by letter. `dafny verify dfyconfig.toml` checks the whole project.

## Where the obvious statement is false

- The publish loop carries on after a failed upload, so publishing in dependency order alone does not keep
  the registry safe: `PublishRun.FailedDependencyIsServedDangling` gives a run. `PublishRun.SafeWhateverFails`
  says exactly which plans are safe whatever fails, and `PublishRun.SafeExactlyWhenLandingsClosed` which runs are.
- `resolve_link` normalises `..` as text. `LinkResolution.ResolveIsWalk` proves that it walks the tree if no target
  turns back over a link. `LinkResolution.TextAndKernelPart` takes a target that does, and says exactly when the kernel
  ends elsewhere. `LinkDivergence.CheckedSourceParts` extends any manifest with room by such a link to one whose source
  passes `check_snapshot`, and `LinkDivergence.OneParts` gives one with the required sources that meets the conditions of staging.
- `current_inputs` leaves the ten roots of a source uncounted and `inventory_staged` does not, with one limit for
  both. `Snapshot.StageSnapshot` says exactly when staging succeeds, `Snapshot.AtMostTenOver` that at most ten paths
  are at stake, and `VisitLimit.PassesThenRefused` that any manifest with room extends to one whose source passes the
  first walk and fails the second. `VisitLimit.OneRefused` gives one with the required sources.
- The same theorem has a second condition: a source with a folder that holds no file passes the check and cannot be
  staged, since no directory is made for it. `SourceTrees.SourceExists` has such a source for every manifest without a
  name in some folder, and `EmptyFolder.OneEmptyFolder` one that has the required sources and an empty `node_modules`.
- `MountIsolationOracle.during` checks its deadline before it leaves `baseline`, so that failure can be
  retried (`MountOracle.DeadlineIsRetried`). `MountOracle.FailureIsFinalOnceEntered` says exactly which failures are final.
- `parse_mountinfo` splits at every line break that Python knows, while the kernel escapes the newline alone:
  `MountinfoText.TableReadsBack` says exactly which tables are read back. `MountinfoText.CarriageReturnIsRefused`
  spoils any table by one mount point, and `MountinfoText.OneRowIsRefused` is a table of one row.
- `toAfterUser` overwrites a pending update. `UpdatePlacement.UpdatesKeptExactly` says exactly when none is lost.
- `withNpmRegistryAccess` promises that no credential is in the environment while a call is in flight, and that the
  environment is restored. `RegistryCalls.ScheduleDecides` says exactly which interleavings keep the promise: those
  where the first call of each busy period is the last to end. `RegistryCalls.OverlapLeaks` is the shortest that does
  not. Even alone, a call cannot undo what its body does to a variable that the scope never touched:
  `RegistryScope.CallRestoresExactly`.
- A default-service account with a slash and no colon before it is printed in a form that reads back as a
  service: `KeychainLocator.SlashedAccountIsMisread`, with the exact condition in `KeychainLocator.PrintedReadsBack`.
  The accounts that `runLogin` prints all start with a provider id and a colon, so none of them is concerned.
- `relative_name` accepts the bare name `.`; `RelativePath.RelativeNameMeans` shows it is the only such exception.

## Model

| member | source | states |
|---|---|---|
| `DependencyOrder.NpmPublishOrder` | scripts/npm-publish-set.ts:129-154 | throws exactly when some packages of the npm set form a ring in which each lists the next as a dependency or an optional dependency, naming one of them; otherwise a duplicate-free arrangement of the npm set in which whatever a package lists in either field stands before it |
| `DependencyOrder.InDependencyOrder` | scripts/build-packages.ts:188-207 | the same over `dependencies` alone; for repeated names, what the code still guarantees |
| `DependencyOrder.DepthFirst.Visit` | scripts/npm-publish-set.ts:137-151 | on entry the open names are a linked path; returning keeps them and puts the package in the order, throwing means a cycle through the named package; ends on every graph |
| `DependencyOrder.DepthFirst.VisitDependencies` | scripts/npm-publish-set.ts:144-148 | on return every in-set target of the package is in the order |
| `DependencyOrder.DepthFirst.VisitAll` | scripts/npm-publish-set.ts:152-153 | from an empty state, all roots end up ordered and nothing stays open |
| `DependencyOrder.DepthFirst.Emit` | scripts/npm-publish-set.ts:149-150 | a package whose dependencies are out joins the order, which stays valid |
| `DependencyOrder.CloseCycle` | scripts/npm-publish-set.ts:141 | meeting an open package closes a directed cycle through it |
| `DependencyOrder.Order` | scripts/npm-publish-set.ts:134-153 | both sorts at once: a valid order of all names, or a cycle |
| `DependencyOrder.NpmSet` | scripts/npm-publish-set.ts:64-66 | exactly the packages marked for npm, in workspace order |
| `PackageGraph.CompleteOrderHasNoCycle` | scripts/npm-publish-set.ts:140-141 | a graph that has a dependency order has no cycle, so refusal on a cycle is the only choice |
| `PackageGraph.OrderedHasNoCycle` | scripts/npm-publish-set.ts:140-141 | no cycle lies within an ordered part of a graph |
| `PackageGraph.PositionsFall` | scripts/npm-publish-set.ts:149-150 | along any path of edges the positions in an order never rise |
| `PackageGraph.MapValues` | scripts/npm-publish-set.ts:134 | the values of the name map, in the order of its keys |
| `PackageGraph.ByNameKeepsLast` | scripts/npm-publish-set.ts:134 | a repeated name keeps its last package |
| `PackageGraph.KeysInFirstOrder` | scripts/npm-publish-set.ts:134 | the keys stand in the order in which their names first occur |
| `RequiredClosure.NpmRequiredClosure` | scripts/npm-publish-set.ts:89-106 | ends on every graph and returns, in dictionary order, the least set of workspace packages that holds the roots and whatever its packages list as dependencies or optional dependencies, whatever the order of the roots |
| `RequiredClosure.ClosureIsClosed` | scripts/npm-publish-set.ts:101-102 | the reachable set holds the workspace roots and whatever its packages list in either field |
| `RequiredClosure.ClosureIsLeast` | scripts/npm-publish-set.ts:94-103 | it lies within every such set |
| `RequiredClosure.ExpectedSetIsLeast` | scripts/npm-publish-set.ts:89-105 | the default closure is the least set with the wrapper, the runtime, every harness and all they list |
| `RequiredClosure.Reachability.Visit` | scripts/npm-publish-set.ts:92-103 | adds only names reachable from the argument, and each added name's targets too |
| `NameOrder.SortNames` | scripts/npm-publish-set.ts:105 | the elements of the set in dictionary order |
| `NameOrder.SortedIsUnique` | scripts/npm-publish-set.ts:105 | only one list is sorted and has these elements |
| `PublishRun.DecidePublishes` | scripts/already-published.ts:36-46 | one decision for each entry in plan order; only an existing version is skipped, so an unknown answer is published |
| `PublishRun.PublishLoop` | scripts/publish-npm-set.ts:97-104 | the loop equals the fold over decisions that the run theorems are about |
| `PublishRun.RunEffect` | scripts/publish-npm-set.ts:97-109 | the registry grows by exactly the accepted uploads of a real run, and the failure count is zero exactly when every attempted upload was accepted |
| `PublishRun.AttemptSource` | scripts/publish-npm-set.ts:98-104 | every attempt comes from a publish decision, and saw the old registry plus what landed before it |
| `PublishRun.DecisionAttempted` | scripts/publish-npm-set.ts:98-104 | every publish decision is attempted, whatever failed before it |
| `PublishRun.PlanIsOrdered` | scripts/publish-npm-set.ts:81-87 | filtering the publish order keeps every needed entry that is in the plan before the entry that needs it |
| `PublishRun.SafeExactlyWhenLandingsClosed` | scripts/publish-npm-set.ts:83-104 | every landing upload finds its dependencies on the registry if and only if the landed set as a whole has its needs met |
| `PublishRun.SafeWhateverFails` | scripts/publish-npm-set.ts:93-104 | before the run: every upload is safe whatever the others do, if and only if all that the entries to be published need is on the registry already |
| `PublishRun.FailedDependencyIsServedDangling` | scripts/publish-npm-set.ts:98-104 | a plan closed under dependencies, and answers, for which the loop uploads a package without its dependency |
| `PublishRun.AcceptedRunCompletes` | scripts/publish-npm-set.ts:83-104 | truthful probe, closed plan, every attempt accepted: each upload is safe, the whole plan ends up on the registry, consistently, with no failure |
| `PublishRun.RedriveStaysConsistent` | scripts/publish-npm-set.ts:83-104 | over any sequence of runs the registry only grows, and stays consistent if each run's landings are closed |
| `PublishRun.RedriveCompletes` | scripts/publish-npm-set.ts:83-104 | after any earlier runs, however partial, one truthful fully accepted run completes the release consistently |
| `PublishRun.PublishNpmSet` | scripts/publish-npm-set.ts:62-109 | the main block: exactly when it refuses; otherwise it tries exactly the requested versions that the probe does not find, each once and after whatever its package lists in either field; the registry gains what landed, nothing in a dry run; and a closed request is delivered safely when nothing failed |
| `PublishRun.GatedSetLeavesNothingDangling` | scripts/npm-publish-set.ts:172-174 | if the npm set equals the closure and is fully published, every workspace package that a published one lists in either field is published at its version |
| `RelativePath.RelativeNameMeans` | scripts/guest-engine/stage.py:21-25 | accepted exactly when short enough, free of NUL and backslash, and made of plain components, or the single name `.` |
| `RelativePath.NormUp` | scripts/guest-engine/stage.py:120-134 | `..` after plain components removes the last of them |
| `RelativePath.NormEscapes` | scripts/guest-engine/stage.py:158-159 | a leading `..` survives normalisation, so the escape test sees it |
| `RelativePath.NormShape` | scripts/guest-engine/stage.py:120-134 | a normalised path is plain, or starts with its `..` components |
| `LinkResolution.ResolveLink` | scripts/guest-engine/stage.py:120-134 | the resolver's loops equal the rewriting function, errors included |
| `LinkResolution.ResolvedIsFinal` | scripts/guest-engine/stage.py:120-134 | no prefix of a result, itself included, is a link, and the result is a name or directory of the closure |
| `LinkResolution.ResolverIsBounded` | scripts/guest-engine/stage.py:120-134 | for every inventory, each link is expanded at most once whatever the limit, and with fewer links than rounds the limit never decides the answer |
| `LinkResolution.ExpandedOnce` | scripts/guest-engine/stage.py:120-134 | each link is expanded at most once, and only links are |
| `LinkResolution.LimitIrrelevant` | scripts/guest-engine/stage.py:120-134 | with more rounds than links the round limit never decides |
| `LinkDepth.FortyLinksAreTooMany` | scripts/guest-engine/stage.py:122-134 | a chain of links resolves to its end with fewer than forty links and is refused for its depth from forty on |
| `LinkDepth.FirstTargetEscapes` | scripts/guest-engine/stage.py:126-128 | a first target that starts at the root, or as text above it, is refused as an escape |
| `LinkResolution.ResolveIsWalk` | scripts/guest-engine/stage.py:120-134 | if no target turns back with `..` over a link, resolution succeeds exactly when a component-by-component walk that may use each link once does, at the same place |
| `LinkResolution.ResolveAgreesWithKernel` | scripts/guest-engine/stage.py:120-134 | and then the kernel's walk, which may reuse links, ends there too |
| `LinkResolution.WalkNormal` | scripts/guest-engine/stage.py:120-134 | walking on from a link-free directory without turning back over a link is walking the normalised text from the root |
| `LinkResolution.TextAndKernelPart` | scripts/guest-engine/stage.py:120-134 | for a link to `d/../z` where `d` is a link, resolution ends beside the link and the kernel beside the target of `d`: the same place exactly when that target lies beside the link |
| `LinkDivergence.CheckedSourceParts` | scripts/guest-engine/stage.py:158-162 | every admissible manifest of files where four names are free, whatever is required and whatever the files hold, has an extension by six paths whose source passes `check_snapshot` and holds such a link with two different ends |
| `LinkDivergence.OneParts` | scripts/guest-engine/stage.py:156-162 | for every digest there is such a source with all required sources, every folder filled, and within the limit of the staged walk |
| `StagedTree.CreateSucceeds` | scripts/guest-engine/stage.py:282-289 | creating a path succeeds exactly when its parent is a real directory and its name is free |
| `StagedTree.CreateAdds` | scripts/guest-engine/stage.py:282-289 | and changes nothing but that path |
| `StagedTree.SortByDepth` | scripts/guest-engine/stage.py:282 | the directories without repeats, shallow ones first |
| `StagedTree.MakeDirectories` | scripts/guest-engine/stage.py:282 | for every inventory the depth-sorted `mkdir` sequence never fails and leaves exactly the directories |
| `StagedTree.Stage` | scripts/guest-engine/stage.py:279-289 | staging succeeds exactly for inventories with no name inside another, and the tree then holds the inventory, its directories, and nothing else |
| `StagedTree.Walker.Walk` | scripts/guest-engine/stage.py:308-325 | the recursive walk fails exactly on a refusable path or past the limit, and otherwise adds the whole listing and counts every path |
| `StagedTree.Walker.Entry` | scripts/guest-engine/stage.py:313-325 | the same for one directory entry and all below it |
| `StagedTree.InventoryStaged` | scripts/guest-engine/stage.py:306-326 | the inventory of a tree is exactly its files and links |
| `StagedTree.NodePathsSeen` | scripts/guest-engine/stage.py:312-315 | the counted paths are exactly those that exist below the root |
| `StagedTree.PartGrows` | scripts/guest-engine/stage.py:313-316 | each entry adds its own paths, disjoint from those of the entries before |
| `StagedTree.ListingGrows` | scripts/guest-engine/stage.py:318-324 | and its own listing |
| `Staging.ValidateInputs` | scripts/guest-engine/stage.py:142-162 | accepts exactly the admissible manifests, and collects exactly the proper prefixes of the names |
| `Staging.AcceptableMeans` | scripts/guest-engine/stage.py:142-162 | the checks in full: number of entries, names of plain components at an allowed root, digests of 64 lower-case hexadecimal digits, sizes, relative link targets, total, required names, no name inside another, and every link inside and resolving |
| `Staging.CheckEntries` | scripts/guest-engine/stage.py:144-156 | the first loop passes exactly when no entry is objected to, with the right directories and total |
| `Staging.CheckLinks` | scripts/guest-engine/stage.py:158-162 | the second loop passes exactly when every link stays inside and resolves |
| `Staging.AdmissiblePaths` | scripts/guest-engine/stage.py:144-157 | an admissible manifest has no name inside another, and all its names and directories pass the walk's name check |
| `Staging.RoundTrip` | scripts/guest-engine/stage.py:279-326 | staging then walking gives the inventory back exactly when names and directories fit the visit limit |
| `Staging.TreeListing` | scripts/guest-engine/stage.py:306-326 | the listing of a tree that holds an inventory is that inventory |
| `Staging.TreeSize` | scripts/guest-engine/stage.py:314-316 | such a tree has as many paths as the inventory has names and directories |
| `CurrentInputs.Inventory` | scripts/guest-engine/stage.py:92-118 | `current_inputs` succeeds exactly when the roots are there, nothing in view is refused, and paths below the roots, names and bytes are within their limits; it then lists exactly the names in view |
| `CurrentInputs.SourceWalker.Walk` | scripts/guest-engine/stage.py:94-111 | the recursive walk in any scan order: fails exactly on a refused path or past a limit, and otherwise adds all it did not pass over |
| `CurrentInputs.SourceWalker.Entry` | scripts/guest-engine/stage.py:97-111 | the same for one directory entry and all below it |
| `CurrentInputs.Collect` | scripts/guest-engine/stage.py:112-117 | the root files and the folders in turn, with shared counters |
| `CurrentInputs.BytesJoined` | scripts/guest-engine/stage.py:109-111 | the bytes of disjoint listings add up |
| `InventoryRules.SourceRulesExactly` | scripts/guest-engine/stage.py:92-118 | the rules of the source walk in full: the ten roots, the three names passed over, good names, files of at most 16 mebibytes, relative links that stay inside, nothing special, and the three limits; the listing has just those leaves |
| `InventoryRules.StagedRulesExactly` | scripts/guest-engine/stage.py:306-326 | the rules of the staged walk in full: it succeeds and returns a listing exactly when all names are good, files have at most 128 mebibytes, nothing is special, and there are at most 60000 paths |
| `Snapshot.CheckSnapshot` | scripts/guest-engine/stage.py:198-200 | passes exactly when the manifest is admissible and is what the walk over the source finds |
| `Snapshot.CopyLeaves` | scripts/guest-engine/stage.py:284-289 | whatever the source has become since: unless a write fails, all leaves are copied exactly when each still is the listed link, or a regular file that `copy_leaf` accepts, and the copies are the bytes found there, of the listed digest |
| `Snapshot.CopyAt` | scripts/guest-engine/stage.py:285-288 | the same for one leaf |
| `Snapshot.CopiedIsChecked` | scripts/guest-engine/stage.py:284-289 | if what was checked and what was copied at each path do not collide under the digest, they are the same, size included |
| `Snapshot.AtMostTenOver` | scripts/guest-engine/stage.py:100-101 | a manifest that matches its source exceeds the staged walk's limit by at most ten paths |
| `Snapshot.StagedPasses` | scripts/guest-engine/stage.py:344 | the staged tree of a matching source passes the same check again exactly when none of the three folders was left empty |
| `Snapshot.StageSnapshot` | scripts/guest-engine/stage.py:276-304 | unless a write fails, staging succeeds exactly when the source matched, every leaf still copies, no folder was left empty, and names and directories fit the staged walk's limit; what is delivered lists exactly the manifest, however the source changed meanwhile |
| `Snapshot.StageUnchanged` | scripts/guest-engine/stage.py:276-304 | for a source that stays as it was checked: staged, unless a write fails, exactly when it matched, no folder was left empty, and the limit holds |
| `SourceTrees.TreeExists` | scripts/guest-engine/stage.py:282-289 | every inventory with no name inside another, and any further directories, are held by some tree |
| `SourceTrees.HeldMatches` | scripts/guest-engine/stage.py:198-200 | a manifest in view with its roots passes the check on a tree that holds it, as long as names and directories exceed the limit by at most the ten roots |
| `SourceTrees.SourceExists` | scripts/guest-engine/stage.py:112-117 | every such manifest has a source that passes, with the three folders there whether or not a name lies in them |
| `Workspace.FullIsAdmissible` | scripts/guest-engine/stage.py:10-13 | the manifest of the root files, the required sources and one module passes the checks on manifests |
| `Workspace.BareIsAdmissible` | scripts/guest-engine/stage.py:10-13 | and so it does without the module |
| `EmptyFolder.OneEmptyFolder` | scripts/guest-engine/stage.py:281-282 | for every digest, a source with all required sources and an empty `node_modules` that passes `check_snapshot`, and whose manifest leaves that folder out of the staged tree |
| `SourceTrees.BytesAgree` | scripts/guest-engine/stage.py:152-157 | the checks on the manifest and the walk over the source add up the same bytes |
| `VisitLimit.PassesThenRefused` | scripts/guest-engine/stage.py:314-316 | every admissible manifest of files with room has an extension, at most five components deep where it is new, whose source passes the check and whose staged tree is five paths past the limit |
| `VisitLimit.OneRefused` | scripts/guest-engine/stage.py:314-316 | for every digest there is such a source with all required sources |
| `BoundedCopy.Measure` | scripts/guest-engine/stage.py:50-68 | under any short reads: succeeds exactly when the file is regular, meets the link, owner and mode demands, has its stated size within the limit, is the same file before and after, and has the expected well-formed digest; returns its digest, its size and, if asked for, its bytes; at most one byte past the limit is read |
| `BoundedCopy.CopyLeaf` | scripts/guest-engine/stage.py:252-274 | unless a write fails, succeeds exactly when the file is regular, meets the link demand, has its stated size within the limit, is the same file before and after, and has the expected digest; success wrote exactly the stream, failure a prefix within the limit |
| `BoundedCopy.Sink.WriteAll` | scripts/guest-engine/stage.py:293-299 | under any short writes, all the bytes once and in order, or a failure that leaves a prefix |
| `TranscriptEvidence.PersistedEvidence` | scripts/guest-engine/verify.py:298-353 | accepts exactly when the records are identified; the blocks that count, in order, are each expected call from its anchor followed by the expected successful answer, and then the final text; and the native-state records, in file order, are bound to the anchors one by one |
| `TranscriptEvidence.EvidenceMeans` | scripts/guest-engine/verify.py:313-349 | what the scan finds in events is the same as what stands in blocks and records |
| `TranscriptEvidence.CompleteExactly` | scripts/guest-engine/verify.py:313-335 | the scan ends complete exactly on call-0, result-0, ..., final text from pairwise distinct anchors, and has recorded those anchors and answers |
| `TranscriptEvidence.FoldOnTrack` | scripts/guest-engine/verify.py:313-335 | any scan with at most one call unanswered has seen calls and results strictly in turn |
| `TranscriptEvidence.RoundsAccepted` | scripts/guest-engine/verify.py:313-335 | every prefix of such a history is accepted |
| `TranscriptEvidence.TakeBlock` | scripts/guest-engine/verify.py:318-335 | the three tests on a block are one step of the automaton |
| `TranscriptEvidence.ScanBlocks` | scripts/guest-engine/verify.py:318-335 | the inner loop is the fold over the record's events |
| `TranscriptEvidence.ScanRecords` | scripts/guest-engine/verify.py:313-335 | the outer loop accepts exactly when records are identified and the events fold without refusal |
| `TranscriptEvidence.CheckAnswers` | scripts/guest-engine/verify.py:336-342 | passes exactly when every answer succeeded with the expected content |
| `TranscriptEvidence.CheckNative` | scripts/guest-engine/verify.py:343-349 | passes exactly when the i-th record carries the i-th anchor and envelope under a fresh identity |
| `MountOracle.MountIsolationOracle.Before` | scripts/guest-engine/verify.py:195-201 | one call of the phase machine: new state and answer |
| `MountOracle.MountIsolationOracle.During` | scripts/guest-engine/verify.py:207-229 | one call, with the deadline test before the phase changes: succeeds exactly from `baseline` in time, when after attempts that lack a mount one shows, in both readings, a runtime in another namespace with nothing shared and exactly one record at each expected point, with its access and hardening, and the outer view is unchanged |
| `MountOracle.MountIsolationOracle.After` | scripts/guest-engine/verify.py:230-232 | the same for the teardown |
| `MountOracle.AttemptMeans` | scripts/guest-engine/verify.py:212-220 | an attempt succeeds exactly when both readings show that, with the same records at the expected points |
| `MountOracle.AttemptWaits` | scripts/guest-engine/verify.py:106-108 | and is retried exactly when nothing is shared and an expected point has no record |
| `MountOracle.SnapshotMeans` | scripts/guest-engine/verify.py:185-192 | a snapshot is taken exactly when both readings are covered and agree on the namespace and on the mounts around the directory |
| `MountOracle.RelevantMeans` | scripts/guest-engine/verify.py:94-98 | a mount point covers a directory exactly when its components are a beginning of the directory's, and a mount is selected exactly when one of the two lies at or below the other |
| `MountOracle.RunLeavesTrail` | scripts/guest-engine/verify.py:183-232 | over every call sequence, `complete` has behind it one successful before, during and after in that order, with equal outer namespace and selected mounts, and a runtime in another namespace with nothing shared and every expected point mounted once, with its access and hardening |
| `MountOracle.CheckingIsForever` | scripts/guest-engine/verify.py:195-232 | once stuck in `checking`, no call sequence changes anything |
| `MountOracle.OpenStateCompletes` | scripts/guest-engine/verify.py:183-232 | every other reachable state can still be completed by some calls |
| `MountOracle.FailureIsFinalOnceEntered` | scripts/guest-engine/verify.py:207-232 | a failing call leaves completion possible if and only if it failed on the phase or on a deadline met before the phase changed |
| `MountOracle.DeadlineIsRetried` | scripts/guest-engine/verify.py:207-232 | a `during` refused on its deadline changes nothing, and a later `during` and `after` still complete |
| `Mountinfo.DecodeInvertsEncode` | scripts/guest-engine/verify.py:72-74 | decoding gives back every encoded string |
| `Mountinfo.EncodeInvertsDecode` | scripts/guest-engine/verify.py:72-74 | and encoding gives back every text in encoded form |
| `Mountinfo.DecodeIsExact` | scripts/guest-engine/verify.py:72-74 | decoding succeeds and re-encodes to the same text exactly for texts in encoded form |
| `Mountinfo.ParseTable` | scripts/guest-engine/verify.py:67-89 | for any line parser, one to 8192 lines are accepted exactly when all of them parse, to distinct ids; one record per line under its id |
| `MountinfoGrammar.LineMeans` | scripts/guest-engine/verify.py:75-88 | a line is accepted, with its record, exactly when it is a line of the grammar: one mark, no empty field, ids, a device, paths from the root, no option twice and exactly one of `rw` and `ro`, and a peer number on every propagation tag |
| `MountinfoGrammar.DecodeMeans` | scripts/guest-engine/verify.py:72-74 | a field decodes to a path exactly when it spells it, letter by letter with the four codes |
| `Mountinfo.ParseInvertsRender` | scripts/guest-engine/verify.py:75-88 | a line rendered from a well-formed row, with any path text, parses back to that row exactly when it is within 16384 bytes of UTF-8, and is refused otherwise |
| `MountinfoText.ParseMountinfo` | scripts/guest-engine/verify.py:65-89 | succeeds exactly when the text has at most a mebibyte, ends in a newline, and breaks into one to 8192 lines of the grammar under distinct ids; one record per line under its id |
| `MountinfoText.TableReadsBack` | scripts/guest-engine/verify.py:65-89 | a printed table is accepted exactly when it is within the limits and no path holds a line break other than a newline, and then reads back row by row |
| `MountinfoText.DirtyRowIsRefused` | scripts/guest-engine/verify.py:69-76 | a row with such a break is cut before its separator, and the piece is refused |
| `MountinfoText.CarriageReturnIsRefused` | scripts/guest-engine/verify.py:69-76 | a carriage return put into any mount point of any well-formed table leaves it well formed and has it refused |
| `MountinfoText.OneRowIsRefused` | scripts/guest-engine/verify.py:69-76 | a table of one row for which this happens |
| `ProviderProtocol.Provider.Response` | scripts/guest-engine/provider.ts:31-46 | one request: the reply or failure, and the new invocation and turn count |
| `ProviderProtocol.Serve` | scripts/guest-engine/provider.ts:50-63 | the receipt passes exactly when some request came, none failed, and five turns ended with none open |
| `ProviderProtocol.RepliesFollowScript` | scripts/guest-engine/provider.ts:25-46 | over every run without error the replies are whole exchanges, then at most one open one: the acceptance, then native state, call start, delta and end, and `tool_use`, or after the last call native state, text and `end_turn`, numbered from one; and no more turns than the script has plus one |
| `ProviderProtocol.PassedMeansFiveExchanges` | scripts/guest-engine/provider.ts:50-63 | a passing run is five exchanges, each to `done`, in exactly 28 requests |
| `ProviderProtocol.ClientServed` | scripts/guest-engine/provider.ts:31-46 | a client that continues the history and pulls in order is always served |
| `ProviderProtocol.OnlyOrderlyServed` | scripts/guest-engine/provider.ts:31-46 | a run goes without error exactly when the client begins each turn on a history of all earlier turns and pulls it in order to its end |
| `ToolRounds.CheckRounds` | scripts/fixtures/subagent-cold-restart-provider.preload.ts:23-37 | the nested loops equal the scan |
| `ToolRounds.ScanAcceptsExactly` | scripts/fixtures/subagent-cold-restart-provider.preload.ts:23-37 | for role-disciplined histories, accepted exactly when each message answers, first and once each, just what the message before it called, and no call is left |
| `ToolRounds.UserScan` | scripts/fixtures/subagent-cold-restart-provider.preload.ts:27-34 | a user message clears the pending set exactly when it opens with one result per pending id and has no other |
| `ToolRounds.MessageScan` | scripts/fixtures/subagent-cold-restart-provider.preload.ts:25-36 | one message passes exactly when it answers what is owed, and owes then what it calls |
| `NgramScan.Grams` | scripts/check-derived-shapes.ts:297-300 | exactly the twelve-word windows of the haystack |
| `NgramScan.Extend` | scripts/check-derived-shapes.ts:351-354 | every window of the run is shared and it cannot grow to the right |
| `NgramScan.ScanBlock` | scripts/check-derived-shapes.ts:347-361 | disjoint, ordered, right-maximal runs, and every shared window starts inside one |
| `NgramScan.RunsMissNothing` | scripts/check-derived-shapes.ts:347-361 | no run is reported exactly when no window is shared |
| `NgramScan.RunsAreUnique` | scripts/check-derived-shapes.ts:347-361 | these properties determine the runs: the scan's answer is the only one |
| `NgramScan.CheckNgrams` | scripts/check-derived-shapes.ts:297-361 | returns, block after block, the runs of every block: apart, in order, of at least twelve words, reproduced throughout and as long as they can be, with every reproduced place in one; none exactly when nothing is reproduced |
| `UpdatePlacement.ToAfterUser` | scripts/probe-openai-midconv.ts:137-153 | the loop equals the slot fold |
| `UpdatePlacement.OrderAndEndKept` | scripts/probe-openai-midconv.ts:137-153 | all other items keep their order, and the same update is in force at the end |
| `UpdatePlacement.UserSeesSameUpdate` | scripts/probe-openai-midconv.ts:145-149 | just after each user message the same update is in force as before the move, and if one was waiting it stands directly behind the message |
| `UpdatePlacement.UpdatesBehindUsers` | scripts/probe-openai-midconv.ts:141-153 | every update of the output stands directly behind a user message, but for a last one that had none |
| `UpdatePlacement.UpdatesKeptExactly` | scripts/probe-openai-midconv.ts:141-153 | no update is lost if and only if any two have a user message between them |
| `UpdatePlacement.OverwrittenUpdate` | scripts/probe-openai-midconv.ts:141-143 | two updates before one user message: the first is lost |
| `LineReader.ReadLines` | scripts/verify-mcp-oauth.ts:106-119 | the lines are, in order, the pieces of the whole text between newlines that hold more than white space, however it was cut into chunks |
| `RegistryScope.Enter` | scripts/test-network-registry.ts:61-88 | the environment the body sees, the values saved, and the counter |
| `RegistryScope.Leave` | scripts/test-network-registry.ts:91-96 | the saved values are back, every other variable is as the body left it |
| `RegistryScope.Scope.Set` | scripts/test-network-registry.ts:63-67 | first value remembered, new value in place |
| `RegistryScope.Scope.Drop` | scripts/test-network-registry.ts:79-85 | exactly the matching variables are gone and saved |
| `RegistryScope.BodyIsClean` | scripts/test-network-registry.ts:50-88 | the body finds no variable that names a credential in any capitalisation, each npm config key in one spelling with the pinned value, the registry's host behind both proxy exception lists, and every other variable as it was |
| `RegistryScope.TouchedMeans` | scripts/test-network-registry.ts:77-89 | a scope touches the five pinned variables, and those set that name a credential or spell a config key |
| `RegistryScope.CallRestoresExactly` | scripts/test-network-registry.ts:61-98 | a call, returning or throwing, ends in its entry environment if and only if its body changed only variables the scope had touched |
| `RegistryScope.NestedCallsRestore` | scripts/test-network-registry.ts:61-98 | so it does around any nesting of calls whose own steps change only pinned variables |
| `RegistryCalls.CounterCountsCalls` | scripts/test-network-registry.ts:41-48 | under any interleaving the counter is the number of calls in flight, and the guard is open exactly while there is one |
| `RegistryCalls.ScheduleDecides` | scripts/test-network-registry.ts:61-98 | over every interleaving with bodies that keep to the pinned variables: no credential is ever set while a call is in flight if and only if in each busy period the first call to begin is the last to end, and then the entry environment is back whenever no call is in flight |
| `RegistryCalls.CleanExactlyWhenFirstOutlasts` | scripts/test-network-registry.ts:79-96 | the same equivalence from any moment of such a run |
| `RegistryCalls.OverlapLeaks` | scripts/test-network-registry.ts:91-96 | two overlapping calls: the whole entry environment is back while the second is in flight, and the first one's config path remains after it |
| `KeychainLocator.ParsesExactly` | scripts/verify-provider-live.ts:277-294 | parses to a ref exactly when the ref can be written and the text spells it, with any white space around its parts |
| `KeychainLocator.PrintedReadsBack` | scripts/verify-provider-live.ts:734-736 | the printed locator reads back as the same ref if and only if no part is empty or has white space at an end, the service has no separator, and an account of the default service has no leading slash and a colon before every slash |
| `KeychainLocator.ParsePrintParse` | scripts/verify-provider-live.ts:277-294 | printing what was parsed and parsing again changes nothing, for every text |
| `KeychainLocator.SlashedAccountIsMisread` | scripts/verify-provider-live.ts:287-292 | a default-service account that reads back as a service |

## Left out

- Spawning npm, tar and the engine, sockets, pidfds and reads of `/proc`: their answers are parameters. The tarball scan is one boolean, an upload or a probe one answer.
- SHA-256 is an arbitrary function, and JSON text, argument parsing and receipt shapes are taken as already parsed.
- Owners, modes and the immutability bits of staged files, apart from the test on one file before it is read; `NAME_MAX` and `PATH_MAX` of the host.
- The receipt and artifact parts of `validate_manifests`, `check_snapshot`, `stage` and `verify_staged`: equality tests on fields and copies of further files.
- Staging.ValidateInputs: the digest of the inventory itself is not compared, and `required` is a parameter; `Workspace.Required` is the set the source demands, and the three lemmas that give a source use it.
- CurrentInputs.Inventory: looks at the kinds of all roots before it reads any, where the source does so one by one; only the reason for a refusal can differ.
- Snapshot.CheckSnapshot: takes a source that does not change under it, so that measuring each file again after the walk adds nothing.
- Snapshot.StageSnapshot: reads all leaves before it builds the tree, where the source does both leaf by leaf and keeps the partial tree; a failed copy leaves no tree in the model.
- VisitLimit.OneRefused, LinkDivergence.OneParts and EmptyFolder.OneEmptyFolder: their files are empty, and the receipts that name the digest of single sources are not modelled; the lemmas they come from take any contents.
- StagedTree.SortByDepth: does not model the tie-break by name among directories of one depth, on which nothing later depends.
- BoundedCopy.CopyLeaf: the error text after a failed write is one code, because the kernel's reason is not modelled.
- DependencyOrder.InDependencyOrder: with repeated package names the refusal is stated one way only, because the code then visits packages its name map does not hold; the workspace does not allow repeats.
- MountinfoText.ParseMountinfo: starts from the decoded text, so bytes that are no UTF-8 are not modelled.
- MountOracle.RunLeavesTrail: the dictionary of observations and the polling delays are not modelled; a poll is an entry in a list of attempts.
- TranscriptEvidence.PersistedEvidence: file names, file counts, owners, modes and field types of the persisted session, and the fixture bytes it is compared with first, are taken as already checked.
- TranscriptEvidence.CheckAnswers: an expected answer is compared as one text, where the source parses JSON if the expectation is structured.
- LineReader.ReadLines: starts from decoded chunks, so a multi-byte character cut in two is left to the decoder.
- NgramScan.CheckNgrams: starts from normalised words and blocks; the word normaliser, the kind of a run and the quotation test are left out.
- RegistryScope.BodyIsClean: lower-casing covers ASCII letters only, and the temporary config files are two path names.
- NameOrder.SortNames: compares by code point, where the source compares UTF-16 units; the two differ only on names npm does not allow.
- The differential scenarios, compiled-binary gates, version bumping, specifier rewriting and citation checks: case analysis or regular expressions that would only add easy members.
