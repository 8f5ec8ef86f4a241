# Roxo: reconciler, live sync, syncback links and printers

Roxo keeps an in-memory instance tree in step with a file system and streams the
changes to Studio clients. This project models the parts of it whose correctness
is not visible in any single function, and proves what they promise.

* **Snapshot reconciler** (`TreeModel` … `RefTranslation`). `PatchPlan` and
  `PatchEffect` say what `compute_patch_set` and `apply_patch_set` compute;
  `RojoTrees`, `ComputePatch` and `ApplyPatch` are the mutating programs with the
  original's maps, indexes, work queue, in-place rewriting and two-phase context,
  proved equal to those specifications. `PlanFacts`, `EffectFacts`, `Pointers`,
  `Outcome`, `FinalTree` describe the result instance by instance, and `Convergence`,
  `Reconciliation`, `RefTranslation`, `CarrierFacts`, `PointerSettling`, `StalePointers`,
  `Idempotence` prove the main theorems. `SpelledOut` says what they come to in terms of
  fields and literal names alone.
* **Change processor** (`ChangeProcessing`, `QuietSubtrees`, `BatchResults`): path walks,
  one patch per affected instance, the descriptions that are handed on, and what a batch
  leaves in the tree.
* **Live sync** (`MessageQueues`, `LiveSync`, `Replica`, `Delivery`, `Sessions`): the
  message log, the interleaving of writer, readers and subscribers, a client's copy that
  replays patches, messages composed from the tree as it is when they are sent, and
  whole sessions of a read and a socket.
* **Reference linking** (`Doms`, `RefLinks`, `LinkFacts`, `RefRoundTrip`).
* **Printers and canonical forms** (`LuaSyntax`, `LuaPrinter`, `LuaRoundTrip`,
  `Hashes`, `HashFacts`, `Localization`).
* **Client registry** (`ClientRegistries`, `Connections`).

## Modelling choices

* A `Ref` is the order number of its generation, zero being `Ref::none`. The tree
  carries the next number, so an instance is younger than its parent; `RojoTree`
  never reparents. The syncback DOM makes no such assumption: it only has to be
  acyclic.
* The foreign `WeakDom` is a map from `Ref` to name, class, properties, parent and
  ordered children: insertion appends, destruction drops the subtree and keeps the
  order of siblings.
* Hash maps and sets are maps and sets; a loop over one picks its elements in any
  order, so what is proved holds for every order.
* Floats are reals or NaN, compared with the margin of `variant_eq` (the distance in
  units of last place is left out); values of several floats are opaque. Binary strings
  are texts or undecodable bytes.
* Clock readings, generated unique ids, what the disk shows and the reflection
  database are parameters.
* The programs, their panics and what they leave alone are modelled for every snapshot.
  What the subtree looks like afterwards is proved for `Clean` ones: their ids are not
  references the tree already uses (`FreshIds`), and no null reference stands in the
  place of the attributes. They may carry `Rojo_Id` and `Rojo_Target_` attributes. The
  properties that pointer attributes name are decided in the last phase and have
  theorems of their own in `PointerSettling`.

## What the code does not do

Each of these departs from what the documentation or a reader would expect. Each has a
lemma that says exactly when it happens.

* `NeedsPivotMigration` set by a snapshot on a model-like class is overridden unless
  it is off or flips the present value, and null references are skipped and leave the
  old value in place: `Convergence.SettlesExactlyWhenHonoured`.
* Reconciling the same snapshot again is not always idle: an explicit pivot, a
  translated reference, a skipped null reference, an adopted `Rojo_Id` or a pointer
  whose carrier changes is emitted again: `Idempotence.SecondReconcileIsEmpty`.
* A visited instance that needs no update keeps an attribute pointer resolved as before,
  although another instance will carry the id: `PointerSettling.PointersSettleExactly`,
  with an input in `StalePointers.StalePointer`. Who will carry an id is told from the
  tree and the plan by `CarrierFacts.CarrierExactly`.
* The loop over affected instances panics when the source of the root has vanished, or
  when the patch of an earlier instance removes a later one, be it that its source
  vanished or that its snapshot drops a child:
  `ChangeProcessing.PanicsExactlyWhenLost`, `ChangeProcessing.PairPanicsExactlyWhenLost`.
* An update that refers to an instance added by the same patch is described to the
  clients with the snapshot's id, and a visible value replaced by a shared string is
  never withdrawn: `Replica.ReplayFollows`. Examples on any tree are
  `Replica.HidingCannotBeDescribed` and `Replica.AddedCannotBeDescribed`.
* Messages are composed when they are sent, and composing one panics when an instance
  that its patch added has been removed since: `Delivery.ComposableExactly`. This can
  happen within one batch, when an affected instance lies above an earlier one:
  `ChangeProcessing.BroadcastFollows`, `ChangeProcessing.ApartCanBeSent`. Otherwise a read
  that is ahead of its cursor does no harm: `Delivery.OverlapIsHarmless`.
* A subscriber that registers after a push it did not see waits although the log is
  ahead of it, until the next push, even an empty one: `LiveSync.StallsExactly`,
  `LiveSync.StalledExactly`, `LiveSync.PushServesEveryone`.
* The unique id written to one target may be the `Rojo_Id` that another target keeps:
  `LinkFacts.TargetsToldApart`, and on a DOM that is a tree `LinkFacts.CopiesMayClash`.
* Pointers of an instance destroyed between collecting and linking end up on the next
  instance: `LinkFacts.EveryOrderLinksRight`, `LinkFacts.StrayPointer`. Old pointer
  attributes of an instance without links stay: `LinkFacts.StalePointersStay`.
* The comment on `set_subscribed` promises an entry for clients that never shook
  hands; the code makes none: `Connections.GuardShowsRecordOnly`. A client with two open
  sockets disappears for good when one of them closes: `Connections.ShownExactly`,
  `Connections.ClosedForGood`, `Connections.LiveButNotShown`.

## Model

| member | source | states |
|---|---|---|
| ComputePatch.ComputePatchSet | src/snapshot/patch_compute.rs:19-36 | the mutating program gives exactly the patch that the specification `PatchFor` describes, which every theorem below is about |
| ComputePatch.ComputePropertyPatches | src/snapshot/patch_compute.rs:96-209 | an update is pushed exactly when something differs, and it is the one the specification gives; `SpelledOut.ChangesExactly`, `PivotExactly`, `PointedChangesExactly` and `FieldsExactly` say in plain terms what it holds |
| ComputePatch.ComputeChildrenPatches | src/snapshot/patch_compute.rs:211-276 | greedy pairing with its in-place marks yields the planned pairs, additions and removals |
| ComputePatch.ComputeRefProperties | src/snapshot/patch_compute.rs:278-328 | every readable pointer attribute is resolved to the only carrier of its id, or to nothing |
| ComputePatch.RewriteRefsInUpdates | src/snapshot/patch_compute.rs:43-53 | the in-place rewriting translates exactly the references whose snapshot id was paired |
| ComputePatch.RewriteRefsInSnapshot | src/snapshot/patch_compute.rs:61-73 | the same for a whole added subtree |
| Values.EqualExactlyWhenSame | src/variant_eq.rs:15-46 | two values count as equal exactly when they are the same but for numbers, alone or as attributes, which may be 2 to the power of -23 apart or both be NaN |
| Values.NumbersToldApart | src/variant_eq.rs:76-77 | numbers 0.0000002 or more apart are never equal, and numbers at most 0.0000001 apart always |
| SpelledOut.ChangesExactly | src/snapshot/patch_compute.rs:125-146 | for every visited instance, exactly the values that are not the same are sent, with paired references translated, and exactly the properties nobody wants are taken away |
| SpelledOut.PivotExactly | src/snapshot/patch_compute.rs:166-190 | what is sent for `NeedsPivotMigration` on the eight classes, case by case |
| SpelledOut.PointedChangesExactly | src/snapshot/patch_compute.rs:148-164 | what is sent for a pointed property: the one instance that has the id, or a removal, unless it is so already |
| SpelledOut.FieldsExactly | src/snapshot/patch_compute.rs:107-123 | name, class and metadata are sent exactly when they differ |
| SpelledOut.ChangedNumberIsSent | src/snapshot/patch_compute.rs:130-132 | a number that differs by 0.0000002 or more reaches the patch |
| SpelledOut.PairedAlike | src/snapshot/patch_compute.rs:224-247 | below the root, an instance is only paired with a node of its own name and class |
| SpelledOut.NothingReplaced | src/snapshot/patch_compute.rs:249-275 | under one parent, nothing is removed that has the name and class of something added |
| ApplyPatch.ApplyPatchSet | src/snapshot/patch_apply.rs:23-50 | applying mutates the tree, its metadata and both indexes into the specified tree, keeps all of them in agreement, and describes what was done |
| ApplyPatch.ApplyAddChild | src/snapshot/patch_apply.rs:140-172 | one added subtree: ids, notes for later and adopted `Rojo_Id`s as specified |
| ApplyPatch.ApplyUpdateChild | src/snapshot/patch_apply.rs:174-241 | one update, with skipped null references and translated ones, also for an id that does not exist; the indexes stay right when metadata is given for a live instance |
| ApplyPatch.DeferRefProperties | src/snapshot/patch_apply.rs:249-302 | remembers exactly the readable pointers and adopts the readable `Rojo_Id` |
| ApplyPatch.FinalizePatchApplication | src/snapshot/patch_apply.rs:99-133 | the second phase: added instances are translated, then pointers resolved against unique carriers |
| ApplyPatch.ReconcileInstance | src/change_processor.rs:353-363 | computing and applying in a row never reaches a panic on any tree and snapshot, and keeps the indexes right |
| Outcome.ComputedPatchApplicable | src/snapshot/patch_compute.rs:19-36 | a computed patch always applies: removed ids are live, unnested and not the root, parents and updated ids survive |
| EffectFacts.RemovableWhenUnnested | src/snapshot/tree.rs:143-156 | unnested ids other than the root can be removed one after the other |
| EffectFacts.RemoveAllEffect | src/snapshot/tree.rs:143-156 | after removing a list, exactly what is below none of it is left, with its siblings in order |
| EffectFacts.AddAllEffect | src/snapshot/patch_apply.rs:28-36 | after the additions, each snapshot stands below its parent and nothing else has changed |
| FinalTree.ReconcileDone | src/snapshot/patch_apply.rs:23-50 | the whole final tree, instance by instance, in terms of the tree before, with metadata and adopted ids; only pointed properties are left to `PointersSettleExactly` |
| FinalTree.ReconcileMembers | src/snapshot/patch_apply.rs:23-50 | for every snapshot: which instances are there afterwards, and that all not visited are as before |
| Convergence.SettlesExactlyWhenHonoured | src/snapshot/patch_compute.rs:118-189 | away from pointed properties, a visited instance ends with the properties of its snapshot if and only if neither the null reference rule nor the pivot rule overrides them, as seen before the call |
| SpelledOut.HonouredExactly | src/snapshot/patch_compute.rs:118-190 | what these two rules ask of the instance and the snapshot, in plain terms |
| CarrierFacts.CarrierExactly | src/snapshot/tree.rs:218-223 | which instances carry a user-specified id after a reconciliation, and which one it stands for, told from the tree and the plan before it |
| CarrierFacts.PatchCarrierExactly | src/snapshot/patch_apply.rs:116-132 | the same for any patch |
| PointerSettling.PointersSettle | src/snapshot/patch_compute.rs:278-328 | what a visited instance has where its snapshot points: after an update the one instance that will carry the id, otherwise what the pointer stood for before, unless the pivot rule decides |
| PointerSettling.AddedPointersSettle | src/snapshot/patch_apply.rs:116-132 | a new instance has the one instance that will carry the id where its snapshot points, and without one what the snapshot itself says |
| PointerSettling.PointersSettleExactly | src/snapshot/patch_compute.rs:278-328 | for any ids, a pointed property of a visited instance ends as the one instance that will carry the id, as told beforehand, if and only if the instance is updated or that carrier is the one from before |
| StalePointers.StalePointer | src/snapshot/patch_compute.rs:278-328 | an input on which a reference to a removed instance stays although another one carries the id |
| Convergence.SecondPairing | src/snapshot/patch_compute.rs:224-258 | pairing again after applying matches each snapshot child with the instance it was paired with or created as |
| Reconciliation.ReconcileConverges | src/snapshot/patch_compute.rs:75-276 | the subtree mirrors the snapshot if and only if every visited instance is honoured, for any tree and clean snapshot |
| SpelledOut.CleanExactly | src/snapshot/patch_compute.rs:75-87 | what the theorems ask of a snapshot: no node has an id that the tree knows, or a null reference for its attributes |
| Reconciliation.ReconcileGivesTheSnapshot | src/snapshot/patch_compute.rs:211-276 | the same in words without pairing: same fields, and children equal as a multiset, recursively |
| SpelledOut.ReconcileSpelledOut | src/snapshot/patch_compute.rs:75-276 | the same in terms of fields alone: names, classes, metadata but for an adopted `Rojo_Id`, and the same value at every property that no pointer names |
| SpelledOut.PivotInTheEnd | src/snapshot/patch_compute.rs:166-190 | a visited instance of the eight classes that has no `NeedsPivotMigration`, nor its snapshot, ends with one that is off |
| Reconciliation.ReconcileKeepsOutside | src/snapshot/patch_apply.rs:23-50 | for every snapshot, the patch applies and everything outside the subtree keeps its fields, children and metadata |
| Idempotence.SecondReconcileIsEmpty | src/snapshot/patch_compute.rs:96-209 | reconciling the same snapshot again gives the empty patch if and only if, as told from the tree and the plan before the first time, no place of a node has an explicit pivot, a translated reference, a skipped null reference, an adopted id or a pointer whose carrier will change unnoticed |
| Idempotence.PlainIsIdempotent | src/snapshot/patch_compute.rs:178-209 | without references and pointers and with stated ids, an explicit `NeedsPivotMigration` on a model-like class is the only thing emitted again |
| RefTranslation.PlacesExactly | src/snapshot/patch_compute.rs:211-276 | the nodes of the snapshot end up exactly at the places the plan gives them, paired ones and added ones in order of creation |
| RefTranslation.DestinationIsThePlace | src/snapshot/patch_apply.rs:162-164 | the two tables together send a snapshot id to the instance its node was paired with or created as |
| RefTranslation.ReferencesFollowTheirTargets | src/snapshot/patch_compute.rs:43-94 | a reference from node to node becomes a reference from instance to instance, although rewriting is split over two passes |
| RojoTrees.RojoTree.constructor | src/snapshot/tree.rs:45-66 | a new tree is well formed and its indexes agree with a full scan |
| RojoTrees.RojoTree.InsertInstance | src/snapshot/tree.rs:103-141 | inserts a whole snapshot in creation order and keeps the indexes in agreement |
| SpelledOut.OneInserted | src/snapshot/tree.rs:103-141 | an inserted instance has the fields of its snapshot, a `NeedsPivotMigration` that is off where the class needs one, and stands last among its siblings; nothing else changes |
| SpelledOut.InsertBuildsTheSame | src/snapshot/tree.rs:103-141 | inserting a whole snapshot builds the instances that adding it in a patch builds, and adopts no ids |
| RojoTrees.RojoTree.Remove | src/snapshot/tree.rs:143-156 | the work queue visits exactly the subtree, so no metadata or index entry is left behind |
| RojoTrees.RojoTree.UpdateMetadata | src/snapshot/tree.rs:159-199 | replacing metadata moves the index entries that differ and no others |
| RojoTrees.RojoTree.SetSpecifiedId | src/snapshot/tree.rs:225-232 | the id index follows the metadata, and an id without metadata is indexed all the same |
| RojoTrees.RojoTree.InsertMetadata | src/snapshot/tree.rs:234-250 | a new record is entered in both indexes |
| RojoTrees.RojoTree.RemoveMetadata | src/snapshot/tree.rs:252-262 | a dropped record leaves both indexes |
| RojoTrees.RojoTree.GetSpecifiedId | src/snapshot/tree.rs:218-223 | answers exactly when one instance carries the id |
| RojoTrees.RojoTree.GetIdsAtPath | src/snapshot/tree.rs:208-210 | the live instances whose metadata names the path, by a scan of the metadata |
| RojoTrees.RojoTree.NearestIds | src/change_processor.rs:159-172 | the walk ends at the longest prefix with any instance, and finds all of them |
| MultiMaps.Remove | src/multimap.rs:42-60 | takes out one value, whatever order `swap_remove` leaves, and never leaves an empty bucket |
| MultiMaps.Insert | src/multimap.rs:30-40 | appends a value that is not there yet |
| ChangeProcessing.CanonicalizeEventPath | src/change_processor.rs:123-139 | rejoins the longest existing prefix with the unchanged rest, and fails exactly when looking that prefix up fails |
| ChangeProcessing.LongestIsUnique | src/change_processor.rs:123-139 | only one prefix can be the longest existing one, so the answer is determined |
| ChangeProcessing.ChangeApplies | src/change_processor.rs:328-416 | one change applies, whatever its snapshot, if and only if it does not remove the root; then it keeps the tree well formed, adds below its instance only and leaves unrelated instances alone |
| ChangeProcessing.UnrelatedAreProcessable | src/change_processor.rs:174-180 | affected instances none of which lies below another are all still there when their turn comes |
| ChangeProcessing.ProcessingKeepsTheRest | src/change_processor.rs:174-180 | the whole loop leaves alone whatever is neither below nor above an affected instance |
| ChangeProcessing.PanicsExactlyWhenLost | src/change_processor.rs:329-331 | the loop panics if and only if the root is affected and has vanished or some turn's patch removes the instance of a later turn |
| ChangeProcessing.PairPanicsExactlyWhenLost | src/change_processor.rs:329-331 | for two instances the patch of the first, computed beforehand, decides |
| ChangeProcessing.BroadcastFollows | src/change_processor.rs:174-183 | composed when the whole batch is applied, all messages of the loop can be composed if and only if no turn removes what an earlier one added; then a client that replays them ends with the view of the processed tree |
| ChangeProcessing.ApartCanBeSent | src/change_processor.rs:174-180 | this is so whenever no affected instance lies below another |
| ChangeProcessing.ApplyPatches | src/change_processor.rs:174-183 | the loop computes the processed tree, of which `BatchResults.BatchFollowsTheSources` says that it follows the files, and hands on, in order, exactly the non-empty descriptions of its turns |
| BatchResults.TurnFollowsTheSource | src/change_processor.rs:348-413 | a turn makes the subtree its snapshot, removes an instance whose source is gone, and changes nothing when the source cannot be read |
| BatchResults.TurnHandsOn | src/change_processor.rs:371-388 | such a removal is handed on as it is, and a turn that changes nothing hands on nothing |
| BatchResults.BatchFollowsTheSources | src/change_processor.rs:174-180 | after a batch of instances none of which lies below another, each with a snapshot is that snapshot, each whose source is gone is gone with all below it, and the others are as before |
| MessageQueues.MessageQueue.PushMessages | src/message_queue.rs:36-62 | appends, fires every outgrown listener once with the log after its cursor, and leaves none behind the log |
| MessageQueues.MessageQueue.Subscribe | src/message_queue.rs:65-85 | answers at once or registers, never both |
| MessageQueues.FireAllAnswers | src/message_queue.rs:118-131 | exactly the ready listeners are answered, each with its own suffix of the log |
| LiveSync.NextInv | src/web/api.rs:752-790 | every step of writer, readers and subscribers keeps the protocol invariant |
| LiveSync.ClientsSeeEverything | src/web/api.rs:328-331 | in every interleaving a read holds at least the patches before its cursor, and the batches sent from there are the log without gap, repeat or reordering |
| LiveSync.SentIsTheLog | src/web/api.rs:752-790 | the same for a subscriber with any cursor, even one past the log |
| LiveSync.NothingIsLost | src/message_queue.rs:36-62 | in every run the tree has all batches in order, and the log all but the one not pushed yet |
| LiveSync.ReadHasTheTree | src/web/api.rs:328-331 | a read has what the tree held when it was read, also patches not pushed by then |
| LiveSync.CursorIsTheLog | src/web/api.rs:328-331 | and its cursor is how much had been pushed when it was taken |
| LiveSync.CatchesUp | src/web/api.rs:752-790 | a subscriber that is behind can go on at any time and is then sent all it lacks |
| LiveSync.WaiterIsServed | src/message_queue.rs:36-62 | a waiting subscriber is sent all it lacks after the next push that brings something |
| LiveSync.PushServesEveryone | src/message_queue.rs:36-62 | after a push, even an empty one, no waiting subscriber is behind the log |
| LiveSync.AnswersAreFinal | src/message_queue.rs:118-131 | a channel is answered once |
| LiveSync.StallsExactly | src/message_queue.rs:65-85 | a step leaves a subscriber waiting behind the log if and only if it registers there, or waited there and the step is neither a push nor its own end |
| LiveSync.StalledExactly | src/message_queue.rs:65-85 | the same over whole runs: since it registered late, nothing has ended its wait |
| LiveSync.LateListener | src/message_queue.rs:65-85 | such a run exists |
| Replica.FromPatchUpdate | src/web/interface.rs:57-100 | the message holds the records of all added instances with their descendants, their ordered child lists, and the visible changes; `MessageHolds` and `UpdateHolds` say what these are |
| Replica.MessageHolds | src/web/interface.rs:57-68 | a message has the record and the ordered children of exactly the instances at or below an added one |
| Replica.UpdateHolds | src/web/interface.rs:70-94 | an update carries every change but one to a shared string, and of the metadata the one flag |
| Replica.RecordHolds | src/web/interface.rs:143-170 | a record has name, class, parent and flag of the instance, and all its properties but shared strings |
| Replica.MessageIsClosed | src/web/interface.rs:60-68 | the child list of an added record holds exactly the added records that name it as their parent |
| Replica.ViewDeterminesChildren | src/web/interface.rs:57-100 | trees with the same view have the same children everywhere, in whatever order |
| Replica.ViewDeterminesFields | src/web/interface.rs:143-170 | they also have the same names, classes, parents, flags and property values, shared strings excepted |
| Replica.ReplayFollows | src/web/interface.rs:57-100 | a copy that replays a patch equals the view of the new tree if and only if every update is describable, which includes that each pointer leads where the update says |
| Replica.RunFollows | src/web/interface.rs:57-100 | over a whole run, with each message composed right after its patch, the copy is right after every patch if and only if every patch is describable |
| Replica.HidingCannotBeDescribed | src/web/interface.rs:79-83 | a patch that puts a visible value behind a shared string applies but cannot be described |
| Replica.AddedCannotBeDescribed | src/web/interface.rs:85-91 | nor can one that refers to an instance it adds |
| Replica.ReconcileReplicated | src/snapshot/patch_apply.rs:135-241 | for any snapshot whose ids were generated before, a computed patch meets all other conditions, so describability alone decides |
| Delivery.ComposableExactly | src/web/interface.rs:60-63 | a message can be composed from a later tree if and only if no patch in between removes what its patch has added |
| Delivery.DeliveryFollows | src/web/api.rs:752-790 | whenever each message was composed, and however far the read was ahead of its cursor, a client that was shown no later tree than the one it stands at holds its view |
| Delivery.OverlapIsHarmless | src/web/api.rs:328-331 | the messages a read is ahead of can be composed if and only if none of their patches removes what another has added; then replaying them gives the view of the tree |
| Sessions.SessionComposes | src/web/api.rs:759-766 | in a session of a read and a socket opened with its cursor, no message panics exactly when no patch has removed too early what another has added |
| Sessions.ClientIsRight | src/web/api.rs:752-790 | in every interleaving the copy of such a client is ahead of the view of the tree after the log up to its cursor and behind in nothing, and equal to it when it was shown nothing later |
| Sessions.SessionsEndRight | src/web/api.rs:752-790 | when all is pushed and sent, its copy is the view of the tree |
| Doms.Descendants | src/syncback/mod.rs:496-512 | lists each instance below the start once, parents before children |
| RefLinks.CollectReferents | src/syncback/ref_properties.rs:35-109 | collects exactly the live references of all reachable instances, and marks for rewriting all targets without an id and all but one of those sharing one, and no others |
| RefLinks.WriteIdAttributes | src/syncback/ref_properties.rs:159-194 | succeeds exactly when no attributes of a marked target have the wrong kind, and then gives each its id and touches nothing else |
| RefLinks.LinkReferents | src/syncback/ref_properties.rs:111-157 | the loop with its carried-over list, in some order of the linked instances; `LinkFacts.LinkingKeeps` and `PointersHeld` say what it leaves in the attributes |
| RefLinks.ScanTallies | src/syncback/ref_properties.rs:72-101 | whatever the order of the references, at most one target per id keeps it |
| LinkFacts.EveryOrderLinksRight | src/syncback/ref_properties.rs:116-154 | every order of the linked instances gives each its own pointers if and only if each name carried over from a destroyed one is a name of every linked instance that is left |
| LinkFacts.RunPoints | src/syncback/ref_properties.rs:116-154 | under that condition success depends on the kinds of attributes only |
| LinkFacts.StrayPointer | src/syncback/ref_properties.rs:126-138 | otherwise some order leaves a live instance with a pointer that is not its own |
| LinkFacts.LinkingCannotPanic | src/syncback/ref_properties.rs:122-123 | every live target has an id by then |
| LinkFacts.PointersNameTheirTargets | src/syncback/ref_properties.rs:111-157 | a linked instance has a pointer attribute for a property if and only if that property's target is live, and it holds that target's id |
| LinkFacts.PointersHeld | src/syncback/ref_properties.rs:111-157 | the same in terms of properties and attributes alone |
| LinkFacts.RewrittenCarry | src/syncback/ref_properties.rs:159-194 | a rewritten instance ends with the text of its unique id as its id, or with the generated one when it has none |
| LinkFacts.LinkingKeeps | src/syncback/ref_properties.rs:130-154 | in any order, linking touches nothing but attributes, and of these only pointers and, on rewritten instances, `Rojo_Id` |
| LinkFacts.UserAttributesStay | src/syncback/ref_properties.rs:141-143 | so every other attribute is there afterwards with its value exactly if it was there before |
| LinkFacts.LinkingFailsExactly | src/syncback/ref_properties.rs:130-140 | linking fails exactly when a linked instance has attributes of the wrong kind |
| LinkFacts.TargetsToldApart | src/syncback/ref_properties.rs:72-101 | when generated ids are new, distinct targets get distinct ids if and only if no unique id that is written is taken by another target |
| LinkFacts.CopiesMayClash | src/syncback/ref_properties.rs:164-168 | a DOM that is a tree, walked, identified and linked, in which two targets end with one id |
| LinkFacts.StalePointersStay | src/syncback/ref_properties.rs:130-147 | pointers of instances without links are not cleared |
| RefRoundTrip.ReferencesComeBack | src/snapshot/patch_apply.rs:116-132 | linked, stripped of references and added to a tree, a reference comes back between the copies if and only if nothing else carries the target's id |
| RefRoundTrip.AllReferencesComeBack | src/syncback/ref_properties.rs:35-194 | all references come back when generated ids are new, no written unique id is taken and no untargeted instance shares one |
| LuaPrinter.LuaStream.WriteStr | src/lua_ast.rs:285-307 | splitting into lines indents exactly the first character of each non-empty line |
| LuaPrinter.FmtLua | src/lua_ast.rs:78-100 | the pieces written to the stream add up to the text of the expression at its level |
| LuaPrinter.FmtTableKey | src/lua_ast.rs:90-100 | a key goes out bare when it is an identifier and in brackets otherwise, indented only at the start of a line |
| LuaPrinter.FmtTable | src/lua_ast.rs:197-212 | entries stand on lines of their own, one level deeper, and the level is restored |
| LuaPrinter.Display | src/lua_ast.rs:42-58 | what the stream holds in the end is the statement text that `StatementReadBack` reads |
| LuaRoundTrip.ExpressionReadBack | src/lua_ast.rs:78-212 | a printed expression followed by a delimiter is read back as its syntax tree, at any indentation |
| LuaRoundTrip.StatementReadBack | src/lua_ast.rs:42-58 | reading the printed statement gives the expression, empty arrays and tables identified |
| LuaRoundTrip.ReadBackExactly | src/lua_ast.rs:42-58 | an expression without empty arrays is read back as it was |
| LuaRoundTrip.PrintingIsInjective | src/lua_ast.rs:78-212 | only expressions equal up to empty arrays print the same |
| LuaRoundTrip.StringReadBack | src/lua_ast.rs:142-166 | escaping is undone by reading, and the literal ends at its own quote |
| LuaRoundTrip.EscapedHasNoBreak | src/lua_ast.rs:142-160 | no raw line break or tab is left for the stream to indent |
| LuaRoundTrip.TableLayout | src/lua_ast.rs:197-212 | each entry of a table stands on a line of its own, one tab deeper than the braces |
| LuaRoundTrip.ArrayLayout | src/lua_ast.rs:177-192 | the items of an array stand on one line with commas between them |
| LuaRoundTrip.BareKeys | src/lua_ast.rs:168-176 | exactly the names of the language stand bare as keys |
| Hashes.HashTree | src/syncback/hash/mod.rs:23-39 | exactly what lies below the start is hashed, every child before its parent, so the panic is out of reach, every instance has a finite picture, and each entry is the hash of it |
| Hashes.HashInstance | src/syncback/hash/mod.rs:76-122 | properties collected in any order are fed sorted by name; `HashFacts.HashIsTheDigest` says which, and that each is fed with its value |
| Hashes.SimilarHashEqual | src/syncback/hash/mod.rs:54-72 | subtrees equal up to the order of children and filtered properties hash the same |
| Hashes.SimilarSubtreesHashEqual | src/syncback/hash/mod.rs:23-39 | so do the entries in the tables of two DOMs |
| HashFacts.HashIsTheDigest | src/syncback/hash/mod.rs:82-122 | a hash is the digest of name, class, the properties that are hashed with their values in the order of their names, and the sorted hashes of the children |
| HashFacts.OneEditTold | src/syncback/hash/mod.rs:54-122 | one edit anywhere in a tree, of a name, a class, a hashed property or a whole child, changes the hash of the tree, unless digests collide |
| HashFacts.OneEditInTables | src/syncback/hash/mod.rs:23-39 | so do the entries in the tables of two DOMs, also when one of them is reordered |
| Localization.ConvertLocalizationCsv | src/snapshot_middleware/csv.rs:198-243 | the loops over records and cells build the specified entries |
| Localization.LocalizationToCsv | src/snapshot_middleware/csv.rs:248-294 | the loops build the specified sheet with sorted languages |
| Localization.SortIsStable | src/snapshot_middleware/csv.rs:254-255 | entries are sorted by source, permuted, and keep their order within one source |
| Localization.ConvertedAreGood | src/snapshot_middleware/csv.rs:209-237 | whatever the sheet, only entries with a key or source and without empty strings come out |
| Localization.RowByRow | src/snapshot_middleware/csv.rs:209-237 | a row with a cell under Key or Source becomes one entry, which holds the last cell under each header, and any other row none |
| Localization.LastCellFound | src/snapshot_middleware/csv.rs:212-215 | there is such a cell exactly when some cell under that header is not empty |
| Localization.SheetReadBack | src/snapshot_middleware/csv.rs:198-294 | converting a written table back gives the stably sorted entries if and only if every entry is good |
| Localization.SheetIsStable | src/snapshot_middleware/csv.rs:248-294 | writing what came back gives the same records |
| Localization.SheetSpelledOut | src/snapshot_middleware/csv.rs:257-289 | the sheet has the four columns and one for each language, and each record the texts of its entry under them |
| Localization.SheetIsInOrder | src/snapshot_middleware/csv.rs:254-266 | records are in the order of their sources, without a source first, and languages in the order of their names |
| ClientRegistries.ClientRegistry.AddHandshake | src/client_registry.rs:184-208 | a new record with the data of the handshake under an id never used before, after pruning |
| ClientRegistries.ClientRegistry.SetSubscribed | src/client_registry.rs:215-222 | no record comes or goes and no other changes; a known id enters or leaves the set of the subscribed and counts as seen now |
| ClientRegistries.ClientRegistry.PruneStale | src/client_registry.rs:238-244 | drops exactly the unsubscribed records unseen for sixty seconds |
| ClientRegistries.ClientRegistry.SubscribedCount | src/client_registry.rs:256-263 | the answer is the size of the set that `ConnectedMeansLive` bounds by the live guards |
| ClientRegistries.ClientRegistry.ProbeEntry | src/client_registry.rs:325-354 | places unheard of for ten minutes go, a new place at capacity evicts one oldest entry, and every other entry is kept as it was |
| ClientRegistries.ClientRegistry.RecordProbe | src/client_registry.rs:279-290 | after making room, only the entry of the place is edited: seen now, from this address, with one more probe |
| ClientRegistries.ClientRegistry.RecordProbeVerdict | src/client_registry.rs:293-312 | the same for a verdict, with texts clipped to 64 and 500 characters and at most sixteen ports |
| ClientRegistries.RoomBounded | src/client_registry.rs:335-345 | the probe table never exceeds its bound |
| ClientRegistries.RoomSpelledOut | src/client_registry.rs:325-366 | what making room comes to, in seconds and numbers of places |
| Connections.ConnectedMeansLive | src/web/api.rs:705-725 | in every run, whatever ids clients claim, a subscribed record belongs to a live guard, and there are no more of them than guards |
| Connections.RememberedExactly | src/client_registry.rs:176-181 | in every run a client without a socket is remembered exactly as long as each prune comes less than a minute after it was last seen |
| Connections.IdsNeverReused | src/client_registry.rs:187 | an id whose record is gone never has one again |
| Connections.OnlyDropsDisconnect | src/client_registry.rs:238-244 | a subscribed record goes exactly when a guard for its id is dropped, never by a prune |
| Connections.GuardShowsRecordOnly | src/client_registry.rs:210-222 | opening a guard shows a client exactly when it has a record |
| Connections.ShownExactly | src/web/api.rs:705-725 | in every run a client is shown exactly when a socket was opened for its record and no socket of its id has been closed since |
| Connections.ClosedForGood | src/client_registry.rs:230-232 | once one of its sockets is closed, a client has no record under its id again, whatever other sockets it has |
| Connections.LiveButNotShown | src/web/api.rs:705-725 | a run in which a socket is live and its client gone |
| Connections.ProbesBounded | src/client_registry.rs:315-366 | over every run of probes and listings the table is bounded, and with no more places than fit nothing unexpired is forgotten |

## Left out

- ApplyPatch.ApplyPatchSet: asks that an update with metadata is for a live instance, because the vacant branch of `update_metadata` (src/snapshot/tree.rs:195-197) stores metadata that no index knows; computed patches always meet this.
- Reconciliation.ReconcileConverges: says nothing about properties that pointer attributes name, which `PointersSettleExactly` decides, and takes fresh snapshot ids: with an id the tree uses already, a reference to the old instance and one to the node cannot be told apart.
- PointerSettling.PointersSettleExactly: for pointers that name neither the attributes themselves nor the forced `NeedsPivotMigration`; `PointersSettle` has those too, for fresh snapshot ids.
- Idempotence.SecondReconcileIsEmpty: for clean snapshots; with an id the tree uses already, raw and translated references cannot be told apart.
- Replica.ReplayFollows: for snapshot ids generated before the patch; the order of children is not part of the copy, because updates of a parent's list are not sent.
- Sessions.ClientIsRight: for patches that can be described, since a wrong record may be put right by a later message; a client is taken to read the whole tree and to open its socket after the read.
- LiveSync.ClientsSeeEverything: the log is unbounded, where the cursor is a 32-bit number.
- RefRoundTrip.ReferencesComeBack: files are taken to keep structure, names, classes and attributes.
- LuaRoundTrip.ExpressionReadBack: for expressions without nil keys, where the original panics; a finite float is its decimal text, and the reader covers the part of Lua that the printer uses.
- Hashes.SimilarHashEqual: only this direction, since fields are fed without separators and floats are rounded.
- HashFacts.OneEditTold: one edit at a time, since several can cancel when fields are fed without separators, and a change of class that changes which properties are hashed counts as several.
- ChangeProcessing.ChangeApplies: that removing the root panics is what `WeakDom` does, which is not part of this model.
- ChangeProcessing.BroadcastFollows: for runs whose patches can be described, as `ReplayFollows` asks.
- ClientRegistries.ClientRegistry.AddHandshake: client ids are unbounded, where the original counts in 64 bits; the order in which clients and probes are listed is left out.
- Requests of clients that edit files (src/change_processor.rs:224-283): file input and output.
- Texts of CSV, JSON, YAML and TOML, glob matching, digests, the reflection database and float formatting: libraries, kept abstract.
- HTTP and websocket transport, host checks, the command line, the web page and the Studio plugin: not part of this model.
- Syncback of files and the in-memory file system: input and output, and a backend for tests.
