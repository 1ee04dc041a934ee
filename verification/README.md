# Registry and document compiler: a verified model

This project models the semantic core of the Galadril Registry and the template renderer of its document compiler, and
proves what they promise. `dafny verify dfyconfig.toml` checks everything.

## What is modelled

**Composition** (`Pipelines`, `Flow`, `Occurrences`, `Traces`, `Composition`, `CompiledGraph`, `CompiledSteps`,
`CompiledCycles`, `EmissionOrder`, `CompilableGraph`, `CompileFailures`). A pipeline may hand its data over to another
pipeline pinned at an immutable revision. The meaning of such a composition is given without any renaming or numbering: a graph of *addresses*, where a block inside a linked pipeline is addressed by the chain of
transfer blocks that leads to it. The compiler, an `Expansion` object with the counters of the source, is proved to
compute a function (`Expanded`), and what that function emits is proved to be the address graph: every block exactly
once, everything renamed consistently and nothing else touched, with the budgets accounted for occurrence by occurrence.

**Merging and diffing** (`Patches`, `ThreeWay`, `OntologyDocuments`, `Reordering`, `OntologyMerging`, `Pointers`, `PipelineMerging`,
`DefinitionMerging`). Documents are JSON trees with unordered objects. Both three-way merges are stated as functions on
the identity-keyed form, with their conflicts as sets of paths; the recursive procedures that push onto lists are proved
against them. Results are stated up to the order of resources and blocks.

**Graph checkers** (`Graphs`, `TopologicalOrder`, `CycleSearch`, `Ontologies`, `Slicing`), each proved exact against a
statement about paths or least closed sets.

**Authoring and publication** (`Snapshots`, `PipelineDocuments`, `Gathering`, `RuntimeMeaning`, `Forests`, `PipelineAuthoring`,
`PipelineEffects`, `OntologyAuthoring`, `OntologyEffects`, `Registry`, `RunProperties`, `History`, `Service`,
`Witness`). A tenant is an append-only log of immutable states. Every command is a function from a log to the next state or a refusal; `Reachable` describes the logs of all
runs; `RunsKeep` proves one invariant for all of them, and `RunProperties` reads the promises off it. The class
`Service.TenantRegistry` carries out the commands step by step and is proved to do exactly that.

**The commit protocol** (`CommitProtocol`). Concurrent callers load, prepare, lock, check the head, stage two artifacts
and commit; any of them may stop between any two steps. Every interleaving leaves each tenant with a log that a serial
run of Registry commands could have produced, so everything proved of runs holds under concurrency too.

**Rendering** (`Escaping`, `Substitution`, `Templates`, `RenderingLaws`). A source is read once as literals and placeholders;
whatever is inserted is proved to be plain text to TeX, and whatever is rendered to pass the worker's checks.

## Where the code does not do what one would expect

- `references` reads `step` before `id`, so a *source* that carries a `step` field of its own may have an id of the
  reserved form `__linked_n`. Such an id can coincide with the name of a linked block. The compiled pipeline is a valid
  pipeline again exactly if no source of the root has one of the names that are drawn (`StructuredIff`), its edges are
  those of the composition exactly if no root step consumes such a source (`EdgesPreservedIff`), and
  `CompiledAcyclicIff` and `CompiledRouteIff` say exactly when cycles and broken routes arise. `ReservedNameCollides`
  and `ReservedNameInventsCycle` exhibit a pipeline that passes every check and compiles to a cyclic one.
- `semantic_diff` passes over a metadata field called `resource_id`. Its changes are a patch exactly if both documents
  agree on that field (`DiffPatches`), and reproduce a merge exactly if the other side already has whatever they leave
  out (`MergePatches`); `DiffMissesRootId` is a pair of documents for which they are no patch.
- The dependency closure of a slice does not follow `value_type`. The final validation of a dependency-closed slice
  succeeds exactly if the slice covers the value types of its properties (`SliceValidIff`); `SliceMissesValueType` is
  a valid ontology and a selector for which it fails.
- Publishing in the workspace checks the ontology bindings of linked pipelines but not those of the pipeline itself;
  deploying does. A release can therefore be refused on deployment (`ReleaseRefused`), and this is the only reason for
  which it can be (`DeployFailsOnlyOnBindings`).
- A semantic merge of valid versions without conflicts need not be a valid ontology (`MergeClosesCycle`); it is refused
  exactly if no document with the merged content is valid (`MergeOntology`).

## Model

| member | source | states |
|---|---|---|
| Pipelines.References | platform/registry/src/composition.rs:39-114 | Succeeds exactly on admissible pipelines (reserved names and fields refused, transfers pinned, terminal and event driven, at most three) and returns the pinned references in reading order |
| Pipelines.ValidateRoute | platform/registry/src/semantics.rs:461-528 | A step's branches are accepted exactly if they cover its immediate, unscheduled consumers and nothing else, with distinct targets and proper labels |
| Pipelines.ValidateStructure | platform/registry/src/semantics.rs:334-459 | Succeeds exactly on structured pipelines and returns an order of all nodes in which inputs come first |
| TopologicalOrder.Order | platform/registry/src/semantics.rs:861-898 | An order is returned exactly if every input is known and the graph is acyclic; it lists each node once, after all its inputs, also with repeated inputs |
| CycleSearch.FindCycle | platform/registry/src/semantics.rs:762-802 | Returns nothing exactly if the relation has no cycle, and otherwise an id that lies on one |
| Flow.ReachableFrom | platform/registry/src/composition.rs:156-188 | The single pass over the order finds exactly what the selected source reaches through unscheduled consumers, and fails exactly if some such step has more than one input |
| Flow.ReachedIsLeast | platform/registry/src/composition.rs:156-188 | What is reached is contained in every set that holds the source and is closed under triggering: it is the least fixed point |
| Composition.Rename | platform/registry/src/composition.rs:221-264 | Succeeds exactly if every id, input and branch target mentioned is known, and renames all of them and nothing else |
| Composition.Expansion.Admit | platform/registry/src/composition.rs:133-188 | Makes the checks in order, charges the budgets, and returns exactly the steps that the occurrence keeps |
| Composition.Expansion.NameSteps | platform/registry/src/composition.rs:205-220 | Kept steps of a linked pipeline draw consecutive reserved names, root steps keep theirs |
| Composition.Expansion.Append | platform/registry/src/composition.rs:126-297 | The object's counters and steps after the call, or the failure, are exactly the expansion of the occurrence from the counters before it |
| Composition.ExpandedTrace | platform/registry/src/composition.rs:126-297 | A successful expansion emitted the address graph below the occurrence: each block once and renamed, fresh names consecutive, every occurrence sound, no pipeline id twice on a chain, and the counters raised by exactly what the occurrences cost |
| Composition.ExpandedFailures | platform/registry/src/composition.rs:221-289 | The lookups of steps, inputs, branch targets and references inside the expansion never fail, and over a reference-closed library no revision is missing |
| CompiledGraph.Compile | platform/registry/src/composition.rs:302-357 | The result is the expansion of the root from empty counters, failures included |
| CompilableGraph.CompilesIff | platform/registry/src/composition.rs:126-297 | A composition compiles exactly if its occurrences are finitely many, all sound, supplied and without a pipeline twice on a chain, and together within the block and transfer budgets |
| CompiledGraph.CompiledPreserves | platform/registry/src/composition.rs:126-297 | Compilation preserves meaning: the output steps are the blocks of the composition, each exactly once, in the authored order with every transfer directly before what it links, and the reported counters are the sums over at most four occurrences and bound the output |
| CompiledSteps.SettingsCompiled | platform/registry/src/composition.rs:241-289 | A transfer has become a `forward` without a reference, every other step has its kind and reference; linked steps record pipeline, revision and block they come from, root steps keep their origin; routing and all other configuration are unchanged |
| CompiledSteps.MentionsCompiled | platform/registry/src/composition.rs:225-264 | Inputs and branch targets keep number and order; each has become the compiled step of what it referred to, the selected source being the transfer that feeds it |
| CompiledSteps.IdCompiled | platform/registry/src/composition.rs:205-220 | Root steps keep their ids; linked steps are called `__linked_n` with n up to the number of linked blocks |
| CompiledSteps.RootBlocksMean | platform/registry/src/composition.rs:189-220 | Every step of the root is in the composition |
| CompiledSteps.LinkedBlocksMean | platform/registry/src/composition.rs:156-188 | A step of a linked occurrence is in the composition exactly if it is not scheduled and takes an input from the selected source or from another such step |
| EmissionOrder.NeverBoth | platform/registry/src/composition.rs:221-289 | The order in which steps are emitted never puts two blocks both ways round |
| CompileFailures.FailuresExplained | platform/registry/src/composition.rs:133-188 | Every failure names a real defect: a repeated pipeline on a chain, an inadmissible, unstructured or unsupplied occurrence, a missing input, an implicit join, or occurrences that together exceed a budget |
| CompiledGraph.CompiledFailures | platform/registry/src/composition.rs:221-289 | No compilation fails on an internal lookup |
| CompiledGraph.EdgeExact | platform/registry/src/composition.rs:189-294 | For all pairs of output steps: they are joined by an edge exactly if it is authored inside one occurrence, leads from a transfer to a consumer of the selected source of its child, or was invented because a root step consumes a source that carries the name of a linked block |
| CompiledGraph.EdgesPreservedIff | platform/registry/src/composition.rs:189-294 | All edges of the output are those of the composition if and only if no root step lists one of the drawn reserved names as an input |
| CompiledGraph.BlockNamesInjective | platform/registry/src/composition.rs:189-220 | No two blocks of a composition share a compiled name |
| CompiledGraph.CompiledStepOk | platform/registry/src/composition.rs:221-276 | Every compiled step passes the per-step checks and no transfer remains |
| CompiledGraph.CompiledInputsKnown | platform/registry/src/composition.rs:225-240 | Every compiled input is a root source or a compiled step |
| CompiledGraph.CompiledAcyclic | platform/registry/src/composition.rs:126-297 | Without such inputs the compiled graph has no cycle |
| CompiledCycles.CompiledAcyclicIff | platform/registry/src/composition.rs:126-297 | The compiled graph has no cycle exactly if no root step waits for itself, where a drawn name among its inputs stands for the transfer it leads back to |
| CompiledGraph.CompiledRouteIff | platform/registry/src/semantics.rs:461-528 | A compiled route covers exactly its immediate consumers, unless it is linked and an unscheduled root step consumes a source that carries its name |
| CompiledGraph.StructuredIff | platform/registry/src/semantics.rs:338-528 | The compiled pipeline validates again exactly if no root source is called `__linked_n` for an n up to the number of linked blocks of the address graph |
| CompiledGraph.OrdinarySourcesNeverCollide | platform/registry/src/composition.rs:53-66 | Sources whose ids do not start with the reserved prefix never collide |
| CompiledGraph.ReservedSourceHides | platform/registry/src/composition.rs:53-66 | A reserved source id passes `references` only behind a `step` field of the source |
| Counterexamples.ReservedNameCollides | platform/registry/src/composition.rs:53-66 | A concrete admitted pipeline whose compiled form does not validate |
| Counterexamples.ReservedNameInventsCycle | platform/registry/src/composition.rs:221-240 | In that pipeline an edge nobody authored leads back to the transfer and closes a cycle |
| Ontologies.Ancestors | platform/registry/src/semantics.rs:842-859 | The worklist returns exactly the ids reachable over parent edges |
| Ontologies.ValidateInherited | platform/registry/src/semantics.rs:804-840 | Accepts exactly if no owned property changes the type of an inherited one with the same display name |
| Ontologies.ValidateOntology | platform/registry/src/semantics.rs:81-172 | Accepts exactly the valid ontologies |
| Slicing.CloseSelection | platform/registry/src/semantics.rs:238-272 | The worklist returns the least dependency-closed superset of the selection, or finds a malformed attribute on the way |
| Slicing.Slice | platform/registry/src/semantics.rs:185-289 | Result and error are exactly determined: the restriction to the selection or to its least closed superset if that is valid, a malformed attribute exactly if one lies in that set, an invalid slice exactly otherwise |
| Slicing.DependsOnMeans | platform/registry/src/semantics.rs:244-264 | One resource pulls another into a slice exactly if it lists it as reference, owner, supertype, interface, source or target type, or if the other is a property it owns |
| Slicing.PlainSliceMeans | platform/registry/src/semantics.rs:216-237 | Without dependencies a slice holds exactly the resources the selector names by id or kind |
| Slicing.ClosedSliceMeans | platform/registry/src/semantics.rs:216-272 | With dependencies it holds exactly the resources in every set that has the named ones and, with each, whatever it mentions or owns |
| Slicing.SliceIsSaturated | platform/registry/src/semantics.rs:238-272 | In particular every property of a taken type is taken |
| Slicing.ClosureIsLeast | platform/registry/src/semantics.rs:238-272 | The resources forced into every closed superset of a selection are themselves the least one |
| Slicing.SliceFailsIff | platform/registry/src/semantics.rs:282-288 | With dependencies the final validation fails exactly if the closed selection leaves out a value type |
| Slicing.SliceValidIff | platform/registry/src/semantics.rs:282-288 | A closed slice of a valid ontology is valid exactly if it covers its value types |
| Slicing.ListedTypesAreCovered | platform/registry/src/semantics.rs:244-272 | It does if resource-valued types are also listed among the references |
| Slicing.SliceIdempotent | platform/registry/src/semantics.rs:185-289 | Slicing a slice by the same ids and kinds gives the slice back, with and without dependencies |
| Slicing.SliceMonotone | platform/registry/src/semantics.rs:185-289 | More ids or kinds never take less: the smaller slice is a slice of the larger one |
| OntologyCounterexamples.SliceMissesValueType | platform/registry/src/semantics.rs:244-288 | A concrete valid ontology whose closed slice is not valid |
| Patches.PatchDiff | platform/registry/src/semantics.rs:916-967 | Applying the changes between two documents, in any order, turns one into the other |
| Patches.DiffPathsIncomparable | platform/registry/src/semantics.rs:916-967 | No change lies inside another one |
| OntologyDocuments.DiffValue | platform/registry/src/semantics.rs:916-967 | Appends exactly the changes at and below a place, correctly labelled, passing over a root `resource_id` |
| OntologyDocuments.SemanticDiff | platform/registry/src/semantics.rs:531-573 | Succeeds exactly on two valid ontologies and reports exactly the differences of their id-keyed views, minus a root `resource_id` |
| OntologyDocuments.DiffPatches | platform/registry/src/semantics.rs:531-573 | Patching the base with the reported changes yields the target exactly if both have the same root `resource_id` |
| OntologyDocuments.ReportedPathsIncomparable | platform/registry/src/semantics.rs:531-573 | The reported paths are pairwise incomparable |
| OntologyCounterexamples.DiffMissesRootId | platform/registry/src/semantics.rs:933-937 | A concrete pair of valid documents for which the diff is no patch |
| ThreeWay.MergeValue | platform/registry/src/semantics.rs:969-1022 | Computes the merge function and appends exactly its conflicts at full paths |
| ThreeWay.ConflictIsReal | platform/registry/src/semantics.rs:969-1022 | A conflict records what the three versions hold at its path, which differ pairwise and are not all objects |
| ThreeWay.Pathwise | platform/registry/src/semantics.rs:969-1022 | Without conflicts, at every path where one side equals the base the result equals the other side |
| ThreeWay.SwapConflicts | platform/registry/src/semantics.rs:969-1022 | Swapping the sides swaps the sides of every conflict |
| ThreeWay.SwapMerge | platform/registry/src/semantics.rs:969-1022 | A conflict-free merge is symmetric |
| ThreeWay.MergeIsPatch | platform/registry/src/semantics.rs:969-1022 | A conflict-free merge is one side patched with what the other side changed |
| ThreeWay.MergeKeepsLeft | platform/registry/src/semantics.rs:969-1022 | It is the left side itself exactly if that already has every change of the right side |
| OntologyMerging.MergeOntology | platform/registry/src/semantics.rs:576-633 | Each error occurs exactly under its condition; conflicts are exact; a conflict-free result is a valid document whose id-keyed view is the merge of the three views, and is refused exactly if no document with that view is valid |
| Reordering.ViewDecidesValidity | platform/registry/src/semantics.rs:81-172 | Documents with the same id-keyed view are both valid or both invalid |
| OntologyCounterexamples.MergeClosesCycle | platform/registry/src/semantics.rs:626-633 | A concrete conflict-free merge of valid versions that is not a valid ontology |
| OntologyMerging.MergePatches | platform/registry/src/semantics.rs:576-633 | The merge equals the left document patched with the diff of base and right, exactly if the left root `resource_id` already has everything the right one changed in it |
| OntologyMerging.MergePatchesRight | platform/registry/src/semantics.rs:576-633 | The same for the right document and the diff of base and left |
| OntologyMerging.UneditedMerge | platform/registry/src/semantics.rs:576-633 | Merging an unedited version gives the target back without conflicts |
| Pointers.RoundTrip | platform/registry/src/authoring.rs:269-271 | Decoding a pointer as sections 3 and 4 of RFC 6901 prescribe gives the key sequence back |
| Pointers.PointerInjective | platform/registry/src/authoring.rs:269-271 | Different key sequences have different pointers |
| DefinitionMerging.MergeValue | platform/registry/src/authoring.rs:273-328 | Computes the merge function under the given choices, reports exactly the clashes left without a choice under their pointers, and fails exactly beyond depth 32 |
| DefinitionMerging.Normalize | platform/registry/src/authoring.rs:243-267 | Succeeds exactly if blocks have identities that are unique in their collection, and keys each block by its identity |
| DefinitionMerging.MergeDefinitions | platform/registry/src/authoring.rs:332-373 | Keying the merged definition again gives the merged keyed document; each error occurs exactly under its condition, and those for a removed definition, a non-object and a missing collection never |
| DefinitionMerging.MergedCollections | platform/registry/src/authoring.rs:332-373 | The merged keyed form has both collections, every block filed under its own identity, whatever was chosen |
| DefinitionMerging.UneditedMerge | platform/registry/src/authoring.rs:332-373 | Merging an unedited branch leaves main as it is, whatever choices are sent along |
| DefinitionMerging.CollectChanges | platform/registry/src/authoring.rs:540-571 | Appends exactly the structural differences under their pointers, and fails exactly beyond depth 32 |
| DefinitionMerging.CompareDefinitions | platform/registry/src/authoring.rs:575-584 | Putting the reported values at the reported pointers turns one definition into the other, up to block order; nothing is reported exactly if they agree |
| PipelineMerging.Pathwise | platform/registry/src/authoring.rs:273-328 | Without conflicts and choices, at every path where one side equals the base the result equals the other side |
| PipelineMerging.ResolvedConflicts | platform/registry/src/authoring.rs:315-328 | The conflicts under a resolution map are the preview's conflicts minus the addressed ones |
| PipelineMerging.OverrideIsChoice | platform/registry/src/authoring.rs:315-320 | Exactly the preview's conflicts for which the source was chosen are overridden, with the source's value |
| PipelineMerging.ResolvedMerge | platform/registry/src/authoring.rs:273-328 | The result under a resolution map is the preview with those overrides applied and nothing else changed |
| PipelineMerging.ChoosingSettles | platform/registry/src/authoring.rs:332-348 | Any combination of choices for the reported paths can be expressed, in no more entries than there are conflicts, and leaves none |
| Gathering.Gather | platform/registry/src/domain.rs:427-464 | The worklist succeeds exactly if the references close over at most three loadable revisions, and returns the least such closed library |
| Gathering.Compose | platform/registry/src/domain.rs:427-472 | Succeeds exactly if the document composes over the log, and never because the expansion misses a revision |
| Gathering.ComposesMeaning | platform/registry/src/domain.rs:427-472 | What was composed preserves the meaning of the document over a reference-closed library taken from the log |
| Gathering.LeastStable | platform/registry/src/domain.rs:427-464 | Later revisions do not change what a complete composition consists of |
| Gathering.RuntimeStable | platform/registry/src/domain.rs:396-424 | What runs at a revision is decided once and for all |
| RuntimeMeaning.RuntimeMeans | platform/registry/src/domain.rs:396-424 | A revision runs exactly what its stored definition composes to, if the pipeline is alive there and its dependencies are met |
| RuntimeMeaning.ResolveMeans | platform/registry/src/domain.rs:440-462 | A reference resolves exactly to a readable, admissible pipeline that is alive at the pinned revision, with its dependencies met where that is asked |
| RuntimeMeaning.DependenciesMean | platform/registry/src/domain.rs:1048-1071 | Dependencies are met exactly if the graph is valid, each step that requires or names an ontology is bound to it, and every binding is to an ontology in production |
| RuntimeMeaning.BindingMeans | platform/registry/src/domain.rs:847-872 | A binding is accepted exactly if its ontology is in production at a stored valid revision that has what it selects |
| RuntimeMeaning.ReadingMeans | platform/registry/src/semantics.rs:343-400 | Blocks are read from their own fields, in order |
| PipelineAuthoring.AuthoredKeeps | platform/registry/src/authoring_service.rs:77-446 | Every authoring command keeps branch forest, proposals, approval, release and production pointer as promised |
| PipelineEffects.AuthoredDid | platform/registry/src/authoring_service.rs:140-416 | Command by command, what is set and that everything else of the record, the tenant's other pipelines and its ontologies stay: drafts, branches and their bases, proposals and their hashes, the merge that becomes main, approval, release, pointer and binding |
| PipelineEffects.AuthoredAnswers | platform/registry/src/authoring_service.rs:84-416 | A command succeeds only if all it demands is met, and every refusal says something true of the input and the record |
| PipelineAuthoring.DeployFailsOnlyOnBindings | platform/registry/src/authoring_service.rs:381-415 | A release deploys exactly if the released revision meets its ontology bindings; no other check can fail |
| PipelineAuthoring.RemergeUnedited | platform/registry/src/authoring_service.rs:281-329 | Merging a branch on which nothing was edited leaves main unchanged up to block order |
| OntologyAuthoring.AuthoredKeeps | platform/registry/src/ontology_authoring.rs:151-355 | Every workspace command keeps branch forest, valid documents, publication and provenance, and leaves main's plugin origin alone |
| OntologyEffects.AuthoredDid | platform/registry/src/ontology_authoring.rs:151-425 | Command by command, what is set, what the history records, and that everything else stays; a merge puts the merged content and title into the parent and rebases the source |
| OntologyEffects.AuthoredAnswers | platform/registry/src/ontology_authoring.rs:151-425 | A command succeeds only if all it demands is met, and every refusal says something true of the input and the record |
| OntologyAuthoring.PutKeeps | platform/registry/src/domain.rs:507-593 | So does replacing the main document directly, which may set an origin but never change one |
| OntologyAuthoring.MergeFindsItsVersions | platform/registry/src/ontology_authoring.rs:240-302 | A branch merge always finds its parent and three valid versions: it fails only for a wrong source, a name conflict, a semantic conflict, or, exactly then, because the merged content is no valid ontology |
| OntologyAuthoring.RemergeUnedited | platform/registry/src/ontology_authoring.rs:240-302 | Merging an unedited branch gives its parent's document back up to resource order |
| OntologyAuthoring.MergedIsUnedited | platform/registry/src/ontology_authoring.rs:276-283 | After a merge the source branch counts as unedited, so merging it again changes nothing |
| Registry.RunsKeep | platform/registry/src/domain.rs:169-872 | The invariant over records, bindings and history links holds in every state of every run of commands |
| Witness.RunExists | platform/registry/src/domain.rs:169-361 | A concrete run that puts and publishes a pipeline, whose production pointer runs |
| Witness.ChainExists | platform/registry/src/authoring_service.rs:77-446 | A concrete run that saves, approves, publishes and deploys a pipeline, whose production pointer runs |
| Witness.ReleaseRefused | platform/registry/src/authoring_service.rs:355-415 | A concrete run in which an approved and published release is refused on deployment, for a step that requires an ontology and has no binding |
| RunProperties.PublishedRunsForever | platform/registry/src/domain.rs:301-424 | Whatever was ever in production compiles in every later state, to the same pipeline |
| RunProperties.PointerIsWhatWasChecked | platform/registry/src/domain.rs:301-361 | What every later state runs is what was compiled when the pointer was published |
| RunProperties.DeploymentIsWhatWasChecked | platform/registry/src/authoring_service.rs:381-415 | Deploying moves the pointer to the release of the record it found, and what every later state runs there is what was compiled for that release |
| RunProperties.SecondReleaseReplaces | platform/registry/src/authoring_service.rs:355-415 | Publishing and then deploying puts the newly published revision in production, whatever was there before |
| RunProperties.ApprovalsAreCurrent | platform/registry/src/authoring_service.rs:159-183 | In every reachable state a present approval is of the current main definition |
| RunProperties.ReleasesWereApproved | platform/registry/src/authoring_service.rs:355-380 | A release pins a revision whose stored definition has the release hash and was approved there |
| RunProperties.PublishedRuns | platform/registry/src/authoring_service.rs:381-415 | Every production pointer runs; if the pipeline was managed at the pinned revision, that was approved there and released |
| RunProperties.DeployedWasReleased | platform/registry/src/authoring_service.rs:381-415 | A pointer that deploying set was the approved release of an earlier state |
| RunProperties.NoStaleApproval | platform/registry/src/authoring_service.rs:355-365 | The check for a stale approval never fires in a run |
| RunProperties.NoInvalidPublication | platform/registry/src/authoring_service.rs:381-415 | The check for an invalid publication never fires, nor does the release's revision ever disappear or stop composing |
| RunProperties.UnreachableRefusals | platform/registry/src/authoring_service.rs:77-446 | Stale approvals, invalid publications and lost proposal branches are refusals no command of a run returns |
| RunProperties.PipelineBranches | platform/registry/src/authoring_service.rs:184-280 | Pipeline branches form an acyclic forest rooted at main, and every proposal is keyed by its own existing source branch |
| RunProperties.OntologyBranches | platform/registry/src/ontology_authoring.rs:151-319 | Ontology branches form an acyclic forest rooted at main |
| RunProperties.OriginImmutable | platform/registry/src/ontology_authoring.rs:205-302 | Once main carries a plugin origin, every later revision carries the identical value; ontologies are never lost |
| RunProperties.BoundOntologiesLive | platform/registry/src/ontology_authoring.rs:321-352 | A bound ontology is never deleted, has a publication, and that still resolves to the recorded content |
| RunProperties.NoLostOntologyVersion | platform/registry/src/ontology_authoring.rs:240-302 | In a run, a branch merge never misses its parent or a valid version; it is refused only for content that is no valid ontology |
| History.OntologyHistory | platform/registry/src/ontology_authoring.rs:448-509 | A page shows the chain from its starting revision up to the limit and names the next revision; the cycle check never fires, and nothing is missing on the way |
| History.RunHistory | platform/registry/src/ontology_authoring.rs:448-509 | The chain shows every mutation of the ontology exactly once, newest first |
| History.MutationsExact | platform/registry/src/ontology_authoring.rs:93-105 | The listed mutations are exactly the revisions that created or changed the ontology |
| History.PagesContinue | platform/registry/src/ontology_authoring.rs:448-509 | The next page continues exactly where this one stopped |
| History.PagesListEveryMutation | platform/registry/src/ontology_authoring.rs:448-509 | Read page by page with any limit, the history of a run shows every mutation of the ontology once, newest first, under its branch and operation |
| History.ChainStable | platform/registry/src/ontology_authoring.rs:448-509 | Later commits do not disturb pages that start from a pinned revision |
| History.TouchIsMutation | platform/registry/src/ontology_authoring.rs:93-105 | A command that touches the ontology is always visible as a mutation of its own |
| Service.TenantRegistry.AuthorPipeline | platform/registry/src/authoring_service.rs:77-446 | Commits exactly the state the command describes and returns the committed record, with the effect of that command on record, branches, proposals, review state, pointer and bindings and nothing else; a refusal changes nothing and is true; everything that was in production runs as before, and unreachable refusals are not returned |
| Service.TenantRegistry.RuntimePipeline | platform/registry/src/domain.rs:396-424 | Returns what the pinned revision runs, or nothing if it does not run |
| Service.TenantRegistry.PutPipeline | platform/registry/src/domain.rs:169-252 | Succeeds exactly under the stated conditions; the committed record has the given definition and name, no review state, and keeps the production pointer; nothing else changes, and everything that was in production runs as before |
| Service.TenantRegistry.PublishPipeline | platform/registry/src/domain.rs:301-361 | The committed record points at the given revision, which runs; nothing else changes |
| Service.TenantRegistry.DeletePipeline | platform/registry/src/domain.rs:365-393 | Afterwards the pipeline is not alive and has no pointer, its definition and review state are kept, what it had in production still runs at its revision, and nothing else changed; refused exactly without the record or with another head |
| Service.TenantRegistry.PutBinding | platform/registry/src/domain.rs:791-843 | Adds exactly this binding, to an ontology that is there and not deleted; everything in production runs as before |
| Service.TenantRegistry.AuthorOntology | platform/registry/src/ontology_authoring.rs:357-445 | Returns the committed record with the effect of the command and nothing else, chained to the head, recorded under its branch and operation and with the plugin origin it had; a refusal changes nothing and is true |
| Service.TenantRegistry.PutOntology | platform/registry/src/domain.rs:507-593 | Succeeds exactly under the stated conditions; the committed record has the given document and title; branches and publication of an existing one are kept, and only this ontology changes |
| Service.TenantRegistry.PublishOntology | platform/registry/src/domain.rs:648-726 | Afterwards the ontology is published at the given revision, which resolves to the recorded content; only this ontology changes |
| Service.TenantRegistry.RetireOntology | platform/registry/src/domain.rs:729-771 | Succeeds exactly on the matching production publication; afterwards no binding to the ontology is accepted, while the retired revision still resolves to its content and nothing else changed |
| CommitProtocol.CommitContent | platform/registry/src/storage.rs:759-825 | What a commit contains is the state of the committing call, computed from the revision it replaces |
| CommitProtocol.Exclusive | platform/registry/src/storage.rs:307-324 | Two callers of one tenant are never in the critical section together |
| CommitProtocol.EveryInterleaving | platform/registry/src/storage.rs:759-825 | The protocol invariant holds after every interleaving of steps and failures |
| CommitProtocol.HistoriesAreSerial | platform/registry/src/storage.rs:738-825 | Each tenant's revisions are a serial run of Registry commands |
| CommitProtocol.OneCallPerRevision | platform/registry/src/storage.rs:759-825 | Every revision holds exactly what one call wanted to commit, replaces the revision that call had loaded, and is that call's only one; abandoned calls leave nothing |
| CommitProtocol.UndisturbedCommits | platform/registry/src/storage.rs:759-825 | A prepared caller that finds its stripe free and the head unmoved commits exactly its state as the next revision, touching nothing else and leaving nothing staged |
| CommitProtocol.MovedHeadRefused | platform/registry/src/storage.rs:775-779 | A caller whose head has moved is refused, gives its lock back and leaves no trace |
| CommitProtocol.AbandonedLeavesHistory | platform/registry/src/storage.rs:759-825 | Giving up before the commit changes no branch's revisions and frees the stripe |
| Escaping.EscapeText | platform/document-compiler/src/domain.rs:144-163 | The loop computes the function that the decoder law and the plain-text law are about |
| Escaping.UnescapeEscape | platform/document-compiler/src/domain.rs:144-163 | A decoder recovers the text minus the dropped control characters |
| Escaping.EscapedIsPlain | platform/document-compiler/src/domain.rs:142-163 | Read as TeX reads it, escaped text holds only ordinary characters and commands that print one character: no other command, group, comment, parameter, script, math shift or tie |
| Escaping.PlainPositions | platform/document-compiler/src/domain.rs:142-163 | In such text there is no bare `^` or `~`, and every other special character stands behind its backslash or in the empty group that closes a word |
| Substitution.Substitute | platform/document-compiler/src/domain.rs:308-336 | The loop equals reading the original text as literals and placeholders and concatenating literals and values; it fails exactly if there is no such reading with known names that fits |
| Substitution.ReadsOnce | platform/document-compiler/src/domain.rs:308-336 | A text reads as literals and placeholders in at most one way |
| Templates.Validate | platform/document-compiler/src/domain.rs:209-272 | Accepts exactly the valid templates, saturating addition included |
| Templates.Render | platform/document-compiler/src/domain.rs:276-364 | Returns the rendering of the document, and fails exactly if it has none within the limits; the missing-entrypoint error never occurs |
| RenderingLaws.AcceptedMeans | platform/document-compiler/src/domain.rs:166-197 | A document is accepted exactly if it gives no unknown variable, every required one, and only suitable values |
| RenderingLaws.InsertedMeans | platform/document-compiler/src/domain.rs:166-197 | Every inserted value is plain text to TeX and stands for what was given: text and choices decode to themselves minus dropped characters, numerals read back with their sign, booleans are words, a missing value is empty |
| RenderingLaws.RenderingIsPlain | platform/document-compiler/src/domain.rs:276-364 | No rendering inserts anything but such plain text, in the entrypoint or in any other file TeX reads |
| RenderingLaws.OthersInOrder | platform/document-compiler/src/domain.rs:338-364 | The other files keep their order |
| RenderingLaws.TexLikeMeans | platform/document-compiler/src/domain.rs:343-349 | Exactly files ending in `.tex`, `.cls` or `.sty` are rendered |
| Templates.RenderedIsAdmitted | platform/document-compiler/src/domain.rs:338-364 | Every rendering passes the worker's count, size, path and uniqueness checks |
| Templates.Admit | services/document-compiler/src/worker.rs:97-112 | Accepts exactly the projects with at most 63 further files, good unique paths and no more bytes than allowed |

## Left out

- Unreadable documents: a block that cannot be read as a source or step is reported before the other checks of the same call; the source may report another of its errors first. Success is not affected.
- Serialized sizes (the 1, 2 and 3 MiB limits on drafts and workspaces), clocks, authors, messages and owners: the model accepts whatever they would refuse.
- Hashes are injective by construction; SHA-256 and canonical serialization are not modelled.
- Input strings that are only checked for presence (names, authors and messages of the direct pipeline and ontology calls) are not modelled.
- `ontology_slice`, listing calls and revision reads beyond what the commands themselves load: they only read.
- `Registry::merge_ontology` across revisions: it is a semantic merge followed by the modelled replacement of the main document.
- Tenant purge, tenant markers and the marker cache, and all HTTP and S3 requests behind a protocol step.
- More than one process: the lock is in-process, and no precondition travels with the commit request.
- A commit id that the revision validator would refuse: the store is taken to return unused, valid ids.
- `diagnose_definition`, which is advisory and not meant to agree with the executable check.
- `plugin_ontology.rs`: overlays are built before they are put, and the put is modelled.
- Map iteration order: where the source iterates over maps, results are stated up to order.
- Job queue, gateway, object store, sandbox and engine of the document compiler; `Template::seal` and the frame-size limit of the worker's input.
- Asset data is either a text or bytes that are not UTF-8; the encoding itself is represented by its length only.
- History.OntologyHistory: checks the starting revision before the loop instead of in its first pass; the other revisions are proved to be there.
