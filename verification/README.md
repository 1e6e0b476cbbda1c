# OpenFaith sync engine: a verified model

This project models how OpenFaith keeps Planning Center (PCO) and its own tables in agreement, and
proves what the engine promises. Run `dafny verify dfyconfig.toml` to check it.

## How it is built

**The store.** `Tables` holds the four tables (external links, edges, entities, registry of related
entity types) as maps, and each SQL statement as a value with a map meaning: an upsert with its fixed
SET list, a soft delete, a union merge. Postgres refuses a batch that hits one row twice, so an upsert
whose rows share a key changes nothing and fails. A run of the engine is a sequence of statements;
`LinkTable`, `Merge`, `Registry` and `EntityTable` prove what every statement and every run keeps.
`InternalManager` is the object whose methods read and change the tables, each proved to leave them as
those modules say. Statements that the source starts concurrently are taken in every order.

**A page of a sync.** `RelationshipExtraction` finds the references that have no link, has the links
created, and emits the oriented edges. `PcoTransformer` decodes and encodes items by the annotated
fields of a schema, with `SchemaAst` for the syntax trees of its types. `PageSync` puts links, entities
and edges together as the adapter does for one response, `FullSync` syncs page after page and then
detects what is gone. `SyncedPage` says what a synced page leaves in the tables, column by column, and
`Redelivery` which statements do nothing the second time. `EdgeDirection` and `RelationshipUtils` hold
the two pure conventions below them: which end of an edge is its source, and how type-level
relationships are expanded. Of the first characters that count as A-M, two are not ASCII: U+0130 and the
Kelvin sign, by their lower-case forms.

**The token protocol.** `TokenProtocol` interleaves any number of fibers over one `TokenAuth`, step by
step: read, acquire, read again, call, save, set, release. It follows the refresh grant of section 6 of
RFC 6749, with a provider that rotates refresh tokens. `TokenHistory` is a second invariant, of where
tokens come from; `TokenResends` shows which steps lead to one being sent twice; `TokenManager` is the
table behind it all.

**Pushing.** `PushPipeline` turns mutations into one group of operations per table; `PushEntity`
interleaves the operations of a group with retries of the whole activity and with what others do to the
links; `PushMutation` carries one operation out on the tables. `Pluralizer` is the pair of functions
that table and entity names go through.

`Seqs`, `Strings`, `Values` and `Wrappers` are helpers: list combinators, the order of UTF-16 strings,
JSON values, and options.

## Where the code does less than one would expect

Each is proved by the members named with it, with the exact condition where there is one.

- A page on which two entities share an id is not synced at all when both carry times, or neither does:
  a link's key holds no type, while ids are per type, so its link batch is refused. A page of people
  includes their addresses, phone numbers and emails (`LinkTable.LinksAcceptedIff`,
  `PageSync.SyncSucceedsIff`, `PageSync.SharedIdIsNotSynced`).
- A page whose relations fall on one edge is never synced whole: two relations without an underscore
  from one entity to another under one target type, or two entities that refer to each other by such
  relations, give one edge key, and then the whole edge batch is refused
  (`PageSync.SyncSucceedsIff`, `RelationshipExtraction.TwoPlainRelationsClash`,
  `RelationshipExtraction.MutualRelationsClash`).
- A merge is refused when the two entities are joined in both directions by one type of edge, or when
  the removed one has a `merged` edge to itself that would move onto the new one. The removed entity is
  buried by then and its edges stay behind (`Merge.BatchAcceptedIff`, `Merge.MergeOutcomes`). One merge
  can bring this about for the next, starting from oriented edges and from an empty database
  (`Merge.SecondMergeIsRefused`, `Merge.RefusedMergeIsReached`). The edges stay behind too when the kept
  id has no live link (`Merge.MergeWithoutKeptLink`). And merging two ids of one entity buries that
  entity, and mostly reports success (`Merge.SelfMergeOutcomes`, `Merge.SelfMergeBuries`).
- A merged edge whose key was already taken keeps the stored tombstone; a self edge of the removed
  entity moves by one end only; and the moved edges are oriented only if the neighbour is on the same
  side of both entities (`Merge.MergeLiveness`, `Merge.MergeCarriesRelationships`,
  `Merge.MergeKeepsOrientationIff`).
- Deletion detection selects and then updates: any stale link touched in between is buried although it
  is fresh (`LinkTable.BumpedTooLate`). And a link that a full sync has just seen, unchanged, is buried
  by the detection that follows when it was stored under the detected type name
  (`LinkTable.DetectionAfterRun`, `FullSync.FullSyncBuriesIff`). As written, the sync passes the PCO
  name of the type while links are stored under the entity name, which mostly hides this.
- A page synced twice settles only if each entity carries its `updatedAt` or no time at all
  (`Redelivery.BatchAgain`, `PageSync.SecondSyncChangesNothing`).
- A refresh token that the provider took can be sent again after every step that loses new tokens: an
  answer that does not arrive, a save that fails, an interruption before or after the save. And every
  refused token can be sent again (`TokenResends.LossLeadsToResend`, `TokenResends.RefusalLeadsToResend`).
  Such runs exist for every expired row (`TokenResends.SpentTokenIsSentAgain`,
  `TokenResends.RefusedTokenIsSentAgain`).
- Two operations on one unlinked id, a retry between a remote create and its link, another sync that
  records the new entity first, or a deletion, merge or detection that buries the new link, each lead
  to a second remote entity (`PushEntity.AtMostOnceIff`, `PushEntity.InterferenceCreatesTwice`).
- A pushed delete passes the internal id on where an external id is looked up. The links of the deleted
  entity stay alive unless a live link has that id as its external id and names that very entity, and
  when it names another one, that one loses its links (`PushMutation.PushedDeleteBuriesIff`).
- A bar in a type tag breaks the expansion of relationships and lets `compressPairs` drop pairs
  (`RelationshipUtils.ExpansionIsSymmetricClosureIff`, `RelationshipUtils.CompressPairsKeepsFirst`).
  Inputs that relate nothing make the registry's insert fail (`Registry.RegistryAcceptedIff`).
- An entity that refers to itself under two type tags gives two edges
  (`EdgeDirection.EdgeFoundFromEitherSide`). And the tag that an edge takes from a relation is the type
  of the linked entity only if its link is new or was stored under that type
  (`RelationshipExtraction.MissingLinkType`).
- The two readers of a schema's relations differ. A relation that is nullable and not annotated, such as
  a campus's organization, has its link created by the one and its edge never emitted by the other
  (`RelationshipExtraction.RelationIsLostIff`).
- A gender kept in a column or under a key of another name is lost or respelled on the second trip
  (`PcoTransformer.SecondTripIff`); a required choice of literals is defaulted to null, which it does
  not accept (`SchemaAst.DefaultIsAcceptedIff`).
- An unknown custom operation is accepted when its list is empty
  (`PushPipeline.ConversionIsAllOrNothing`).
- `pluralize("constructor")` throws, because the tables of irregular words are plain objects
  (`Pluralizer.ComesBackIff`).

## Model

| member | source | states |
|---|---|---|
| `EdgeDirection.DecodeIsSymmetricAndIdempotent` | packages/shared/schema.ts:23-56 | The direction does not depend on the side the pair is read from, its ends are the two ids, orienting twice changes nothing; it fails exactly on an empty id |
| `EdgeDirection.SourceInLetters` | packages/shared/schema.ts:23-56 | Of two different non-empty ids the source is the one whose first character lower-cases into a-m when only one does; else the one that comes first by UTF-16 code units, a prefix before what it begins |
| `EdgeDirection.BeforeIsStrictTotalOrder` | packages/shared/schema.ts:37-53 | On non-empty ids, "is the source of" is irreflexive, total and transitive |
| `EdgeDirection.NoDirectedCycle` | packages/shared/schema.ts:37-53 | No set of oriented edges has a directed cycle of any length other than self loops |
| `EdgeDirection.TagsFollowIds` | adapters/pco/pcoAdapterManagerLive.ts:1608-1652 | However an edge is turned, each type tag stays with the id it was read with; the type is the source's tag, then the key when it has an underscore and "has" when not, then the target's tag, joined by underscores |
| `EdgeDirection.EdgeFoundFromEitherSide` | adapters/pco/pcoAdapterManagerLive.ts:1608-1652 | For all non-empty ids: two relations that point at each other give one edge from either side if and only if the keys are equal or neither has an underscore, and it is not one entity under two type tags |
| `EdgeDirection.OneKeyIff` | adapters/pco/pcoAdapterManagerLive.ts:1608-1652 | Two relations fall on one edge key, ends and spelled type, whenever they are one relation seen from one side or the other; for tags without an underscore only then |
| `RelationshipUtils.KeyRoundTrip` | packages/schema/shared/relationshipUtils.ts:27-57 | The key of a pair reads back as its pair if and only if neither tag has a bar |
| `RelationshipUtils.ExpansionIsSymmetricClosureIff` | packages/schema/shared/relationshipUtils.ts:21-60 | The expansion is the symmetric closure of the inputs if and only if no related tag has a bar, and then each pair comes once, in whatever order the hash set is read |
| `RelationshipUtils.ExpansionKeepsBarFree` | packages/schema/shared/relationshipUtils.ts:21-60 | Of the pairs that any inputs call for, exactly those without a bar come out |
| `RelationshipUtils.GroupingRestoresPairs` | packages/schema/shared/relationshipUtils.ts:66-85 | Flattening the groups restores the pairs; each source comes once, with distinct targets |
| `RelationshipUtils.CompressionPreservesMeaning` | packages/schema/shared/relationshipUtils.ts:122-144 | Compressed inputs relate the same types and expand over the same keys as the originals, each source once with distinct targets, for any tags |
| `RelationshipUtils.CompressPairsKeepsFirst` | packages/schema/shared/relationshipUtils.ts:91-116 | The first occurrence of each pair is kept in order if and only if no two different pairs share a key |
| `RelationshipUtils.CompressPairsWithoutBars` | packages/schema/shared/relationshipUtils.ts:91-116 | So it always is for tags without a bar |
| `Tables.MergedRows` | backend/server/live/internalManagerLive.ts:166-183 | Key by key, what an accepted upsert leaves: merged rows where there was one, inserted ones where there was none, and no other change |
| `LinkTable.RunKeepsLinks` | backend/server/live/internalManagerLive.ts:129-183 | Over every run of statements a link row never vanishes, never changes the entity it names, and never loses its tombstone |
| `LinkTable.DetectionBuriesWhatItSaw` | backend/server/live/internalManagerLive.ts:471-528 | Whatever runs between its select and its update, detection buries exactly the rows that were stale when it looked |
| `LinkTable.DetectionAlone` | backend/server/live/internalManagerLive.ts:471-528 | With nothing in between each live row of its org, adapter and type older than the start gets the tombstone with the time and "sync_deletion_detection", and every other row stays as it was |
| `LinkTable.BumpedTooLate` | backend/server/live/internalManagerLive.ts:508-528 | Every stale row that an accepted batch touches between select and update is buried, also when the batch made it fresh by another updatedAt |
| `LinkTable.DetectionAfterRun` | backend/server/live/internalManagerLive.ts:471-528 | Whatever ran since the start of a sync, its detection buries, of the links live by then, exactly those that were stale before and that no accepted batch brought another updatedAt |
| `LinkTable.ChangedIsExactUnlessTooRecent` | backend/server/live/internalManagerLive.ts:85-101 | The links reported as changed are exactly the new ones and those with another updatedAt, if and only if no unchanged one was processed within a millisecond of this batch |
| `LinkTable.ReferencesOnlyInsert` | backend/server/live/internalManagerLive.ts:247-297 | A batch of reference links changes no row that exists, and with older batches more than a millisecond back reports exactly the new ones |
| `LinkTable.ChangeDetectionOverRuns` | backend/server/live/internalManagerLive.ts:85-204 | After any run whose batch times are more than a millisecond back, the batch time stands in exactly for real change detection |
| `LinkTable.LinksAcceptedIff` | backend/server/live/internalManagerLive.ts:913-966 | A batch is accepted if and only if no two links with entity data share a key and no two without do |
| `LinkTable.DistinctBatchIsProcessed` | backend/server/live/internalManagerLive.ts:913-966 | What an accepted batch of distinct links does: in either order of the two statements each row comes out the same, one row per input is returned, no other row changes |
| `LinkTable.LinkGivenTwice` | backend/server/live/internalManagerLive.ts:913-966 | One link given with and without entity data: a stored row comes out the same in either order, a new one has its entity and type from the statement that runs first |
| `LinkTable.ProcessedLinksDetectChange` | backend/server/live/internalManagerLive.ts:913-966 | The whole operation reports a link as changed exactly when it is new, or carries entity data and another updatedAt |
| `LinkTable.LinkInColumns` | backend/server/live/internalManagerLive.ts:110-300 | What a batch of distinct links makes of each row, column by column from the input: a new row, a stored one with entity data, and a stored one without |
| `LinkTable.ChangedInNumbers` | backend/server/live/internalManagerLive.ts:85-101 | Reported as changed are all returned rows when forced, and else exactly those processed within a millisecond of the batch |
| `LinkTable.ReturnedRowsAreStored` | backend/server/live/internalManagerLive.ts:941-955 | Every row it returns belongs to an input and is the row the table holds at the end |
| `Merge.DeletionBuries` | backend/server/live/internalManagerLive.ts:313-393 | Deletion tombstones exactly the links of the adapter, the edges that touch the entity and its row, and removes nothing |
| `Merge.DeleteEntityBuries` | backend/server/live/internalManagerLive.ts:412-458 | Deleting by an external id: the links of the linked entity, its edges and its row get the tombstone and nothing else changes; nothing changes without a live link or without a table for the type |
| `Merge.MergeBuriesRemoved` | backend/server/live/internalManagerLive.ts:350-389 | However a merge ends, once the removed id has a live link, each link of the adapter to its entity and the entity's row get the tombstone, and every other link and row and the registry stay; without a table for the type they all stay |
| `Merge.RepointCollisions` | backend/server/live/internalManagerLive.ts:698-712 | Two edges of the removed entity move to one key exactly when they join it to the kept one in both directions under one type |
| `Merge.BatchAcceptedIff` | backend/server/live/internalManagerLive.ts:689-746 | The edge batch of a merge is accepted if and only if the two are not joined both ways by one type and no `merged` self edge would move onto the new edge |
| `Merge.SelfMergeAcceptedIff` | backend/server/live/internalManagerLive.ts:689-746 | The batch of a merge of an entity with itself is refused exactly when it has a `merged` self edge |
| `Merge.SelfMergeOutcomes` | backend/server/live/internalManagerLive.ts:619-757 | How the merge of two external ids of one entity ends: refused exactly on such an edge, undirected exactly on an empty id, else done with one new live self edge on top of the deletion |
| `Merge.SelfMergeBuries` | backend/server/live/internalManagerLive.ts:619-757 | However it ends, when the type has a table it buries the entity: its links, both ids among them, its row, and its edges but for the `merged` one |
| `Merge.OrientedEdgesMerge` | backend/server/live/internalManagerLive.ts:689-746 | With oriented edges and no self edge on the removed entity, the batch has pairwise distinct keys |
| `Merge.MergeOutcomes` | backend/server/live/internalManagerLive.ts:619-746 | The three ways a merge of two live links ends, each under its exact condition; in all of them the links and the row of the removed entity are buried and no other, and in the failing ones its edges are buried where they were and nothing is carried over |
| `Merge.MergeWithoutKeptLink` | backend/server/live/internalManagerLive.ts:668-685 | Without a live link for the kept id the removed entity's links, row and edges are buried where they were, nothing else changes, and none of the edges is carried over |
| `Merge.SecondMergeIsRefused` | backend/server/live/internalManagerLive.ts:619-746 | With all edges oriented a merge carries through, but one chain of two edges of one type makes the next merge of the chain refused |
| `Merge.RefusedMergeIsReached` | backend/server/live/internalManagerLive.ts:619-746 | Such a database and its refused merge are reached from an empty one, for any three ids in the direction order |
| `Merge.MergeCarriesRelationships` | backend/server/live/internalManagerLive.ts:619-746 | A merge that is carried out keeps each relationship of either entity on the kept one, invents none, and leaves edges of third parties as they were; a moved edge has its columns and metadata, with the merge's time and author, and the merged edge names the kept and the removed id and the type |
| `Merge.MergeLiveness` | backend/server/live/internalManagerLive.ts:350-389 | Which edges live afterwards: a moved edge on a free key as before, one on a taken key with the stored tombstone, and of those that touch the removed entity only the `merged` edge or one that comes from a self edge |
| `Merge.MergeKeepsOrientationIff` | backend/server/live/internalManagerLive.ts:689-712 | A merge keeps all edges oriented if and only if each neighbour of the removed entity is on the same side of both |
| `Registry.UpdateAddsClosure` | backend/server/helpers/updateEntityRelationships.ts:6-79 | For tags without a bar the update adds exactly the symmetric closure of its relationships to the org's registry and changes nothing else |
| `Registry.RegistryAcceptedIff` | backend/server/helpers/updateEntityRelationships.ts:22-70 | Its insert never hits a row twice, and fails exactly when the inputs relate nothing, for any tags |
| `Registry.TypesAlwaysRelate` | backend/server/live/internalManagerLive.ts:1040-1065 | The types of a batch of edges always relate something, so their update is carried out |
| `Registry.RelationshipsKeepAgreement` | backend/server/live/internalManagerLive.ts:971-1065 | Processing relationships keeps the registry symmetric and complete for the edge table, and registers each pair of types of an accepted batch |
| `Registry.RunKeepsAgreement` | backend/server/helpers/updateEntityRelationships.ts:22-70 | Over every run of seeding, relating, merging and deleting, the registry stays symmetric, never loses a target, and knows the types of every edge that is not a `merged` one |
| `Registry.RelationshipsAreStored` | backend/server/live/internalManagerLive.ts:971-1045 | Processing stores an edge for each relationship from its source to its target under its type: as given if new, with its metadata and updatedAt if stored; every other edge stays. Two relationships with the same ends and type leave all four tables as they were |
| `EntityTable.MergeSeparatesSources` | backend/server/live/internalManagerLive.ts:845-875 | A merged column has the stored fields of other sources in order and the incoming fields of PCO |
| `EntityTable.MergeForgets` | backend/server/live/internalManagerLive.ts:845-875 | merge(merge(e, a), b) = merge(e, b) |
| `EntityTable.CustomFieldsOverRuns` | backend/server/live/internalManagerLive.ts:832-878 | Over every run the fields of other sources survive in order and the PCO fields are those of the last accepted sync |
| `EntityTable.RunReflectsLastSync` | backend/server/live/internalManagerLive.ts:832-878 | Whatever the run began with, deletions included, a row has the columns and the PCO fields of the last accepted sync that brought it |
| `EntityTable.EntitiesAcceptedIff` | backend/server/live/internalManagerLive.ts:778-878 | Every entity statement is accepted if and only if no two entities have one tag with a table and one id |
| `EntityTable.EntitiesAreWritten` | backend/server/live/internalManagerLive.ts:762-905 | After an accepted call each entity whose type has a table has its row, as given if new, and else with all its columns, the stored type and org, the stored custom fields of other sources and its own of PCO; rows that no entity goes to stay as they were |
| `InternalManager.Manager.Execute` | backend/server/live/internalManagerLive.ts:129-204 | One statement on the tables, and whether it is refused |
| `InternalManager.Manager.ProcessExternalLinks` | backend/server/live/internalManagerLive.ts:913-966 | Leaves the tables and returns the rows as `LinkTable` says, for either order of its statements and when one is refused |
| `InternalManager.Manager.GetExternalLink` | backend/server/live/internalManagerLive.ts:554-599 | Gives some live link of the entity, and nothing only when there is none |
| `InternalManager.Manager.DeleteEntityId` | backend/server/live/internalManagerLive.ts:313-393 | Buries links, edges and row as `Merge` says; a type without a table is left alone |
| `InternalManager.Manager.DeleteEntity` | backend/server/live/internalManagerLive.ts:412-458 | Deletes the entity of the live link, or nothing without one |
| `InternalManager.Manager.SelectEdges` | backend/server/live/internalManagerLive.ts:655-666 | Gives every edge that touches the entity, dead ones too, each once |
| `InternalManager.Manager.MergeEntity` | backend/server/live/internalManagerLive.ts:619-757 | Leaves the tables and reports as `Merge` says, for some order of the edges found; its own contract says too that the removed entity's links and row are buried and no others |
| `InternalManager.Manager.DetectAndMarkDeleted` | backend/server/live/internalManagerLive.ts:462-549 | Returns the stale links as they were and buries them |
| `InternalManager.Manager.ProcessEntities` | backend/server/live/internalManagerLive.ts:762-905 | Upserts entities table by table; succeeds exactly when every statement is accepted, and else has run those that were not interrupted |
| `InternalManager.Manager.UpdateEntityRelationships` | backend/server/helpers/updateEntityRelationships.ts:6-79 | Leaves the registry as `Registry` says, for some order of the hash set; fails exactly when it is given inputs that relate nothing |
| `InternalManager.Manager.ProcessRelationships` | backend/server/live/internalManagerLive.ts:971-1082 | Edges first, the registry only when they were accepted; `Registry.RelationshipsAreStored` says which edges these are |
| `Redelivery.QuietBatch` | backend/server/live/internalManagerLive.ts:913-955 | A batch whose rows would come out as they are leaves every table as it is |
| `Redelivery.BatchAgain` | backend/server/live/internalManagerLive.ts:913-966 | Distinct links processed again, more than a millisecond later: no row changes, and no link is reported as changed, if and only if each carries its updatedAt or no time at all, for every order of the statements |
| `Redelivery.EdgesAgain` | backend/server/live/internalManagerLive.ts:1018-1032 | An edge batch repeated changes nothing |
| `Redelivery.ExpansionIgnoresOrder` | packages/schema/shared/relationshipUtils.ts:21-60 | The pairs of an expansion do not depend on the order of the hash set, with or without bars |
| `Redelivery.RelationshipsAgain` | backend/server/live/internalManagerLive.ts:971-1065 | Processing the same relationships twice, however the hash sets are read, is processing them once |
| `RelationshipExtraction.ScanEntity` | adapters/pco/pcoAdapterManagerLive.ts:1393-1419 | The loop over one entity's annotations extends the worklist by its unlinked, unlisted references |
| `RelationshipExtraction.FindMissing` | adapters/pco/pcoAdapterManagerLive.ts:1377-1422 | The loops over types and entities compute the worklist of the whole response |
| `RelationshipExtraction.MissingIsExact` | adapters/pco/pcoAdapterManagerLive.ts:1377-1422 | The worklist is the duplicate-free set of ids that some entity refers to through an annotated relation and that have no link, each with the type of such a relation |
| `RelationshipExtraction.CompletedIsExact` | adapters/pco/pcoAdapterManagerLive.ts:1425-1441 | The missing links are always accepted; then exactly the known and the missing ids are linked, the known ones as before, the missing ones to the entity their row names |
| `RelationshipExtraction.NothingLostOrInvented` | adapters/pco/pcoAdapterManagerLive.ts:1377-1447 | One edge per annotated relation between linked entities, joining the two with their own tags, oriented, in order; the relations so answered are those of the entities, each as often; and exactly the known and the referenced ids are linked |
| `RelationshipExtraction.RelationIsLostIff` | adapters/pco/pcoAdapterManagerLive.ts:1483-1600 | A relation of a linked entity that the first reader sees gives an edge if and only if the second sees it; one that the second sees, if and only if its target is known or referred to by a relation that the first sees; where both agree none is lost |
| `RelationshipExtraction.CallsAreExact` | adapters/pco/pcoAdapterManagerLive.ts:1577-1608 | Which relations get an edge: those of a linked entity with a schema, annotated, with a linked target |
| `RelationshipExtraction.MissingLinkType` | adapters/pco/pcoAdapterManagerLive.ts:1404-1441 | A missing link gets the type its relation names if and only if its row is new or was stored under that type; a stored one keeps its entity |
| `RelationshipExtraction.EdgeBatchAcceptedIff` | backend/server/live/internalManagerLive.ts:1018-1032 | The edges of a response are accepted if and only if no two relations give one edge |
| `RelationshipExtraction.SameEdgeIff` | adapters/pco/pcoAdapterManagerLive.ts:1608-1652 | Two relations give one edge whenever they join the same two entities under the same tags by keys that show alike; for tags without an underscore only then |
| `RelationshipExtraction.TwoPlainRelationsClash` | adapters/pco/pcoAdapterManagerLive.ts:1608-1652 | Two relations without an underscore from one entity to another, under one target type, give one edge |
| `RelationshipExtraction.MutualRelationsClash` | adapters/pco/pcoAdapterManagerLive.ts:1608-1652 | So do two entities that refer to each other by such relations |
| `RelationshipExtraction.ExtractRelationshipsEnhanced` | adapters/pco/pcoAdapterManagerLive.ts:1354-1448 | The two passes with the store between them return the edges, and leave the tables, that the lemmas above speak of |
| `PageSync.ProcessPcoData` | adapters/pco/pcoAdapterManagerLive.ts:344-416 | Links, changed entities, edges: succeeds exactly when each stage does, and leaves the tables as the stages say |
| `PageSync.SecondSyncChangesNothing` | adapters/pco/pcoAdapterManagerLive.ts:344-416 | A page of distinct entities synced a second time, more than a millisecond after every earlier batch, leaves all four tables exactly as the first sync left them if and only if each entity carries its updatedAt or no time at all; it then always succeeds |
| `PageSync.SyncSucceedsIff` | adapters/pco/pcoAdapterManagerLive.ts:344-416 | A page syncs if and only if no two of its entities with times share an id and no two without, each changed entity decodes, no two of those go to one row, and no two of its relations between linked entities give one edge |
| `PageSync.SharedIdIsNotSynced` | adapters/pco/pcoAdapterManagerLive.ts:344-416 | Two entities with one id, both with times or both without, keep a page from syncing whatever else it holds |
| `PageSync.LinksAgain` | adapters/pco/pcoAdapterManagerLive.ts:364-367 | On the second sync of a settled page no link counts as changed, and the same rows come back |
| `PageSync.SyncedLinks` | adapters/pco/pcoAdapterManagerLive.ts:406-416 | What a sync does after its links leaves the page's own links alone and has every missing link in the table |
| `SyncedPage.ChangedEntitiesAreExact` | adapters/pco/pcoAdapterManagerLive.ts:390-406 | Which entities a page has written: for each changed link, the first entity with its external id in `data` and the first one in `included`, decoded under the link's internal id, and no other; none when one of them does not decode |
| `SyncedPage.SyncedEntitiesAreWritten` | adapters/pco/pcoAdapterManagerLive.ts:390-406 | After a successful sync each of these has its row in the table of its type, column by column, and every row that none of them goes to is as it was |
| `SyncedPage.ChangedEntityIsWritten` | adapters/pco/pcoAdapterManagerLive.ts:364-406 | An entity of the page, in either list, that is new or has another updatedAt than its link, is among them, and its row is written under the id that its link names |
| `SyncedPage.SyncedLinkInColumns` | adapters/pco/pcoAdapterManagerLive.ts:364-367 | After a sync each entity of the page has its link, column by column from the entity |
| `SyncedPage.LinkedOnSync` | adapters/pco/pcoAdapterManagerLive.ts:406-416 | After it exactly the page's ids and the referenced ones are linked, each to the entity that its row names |
| `SyncedPage.SyncedRelationIsStored` | adapters/pco/pcoAdapterManagerLive.ts:1577-1652 | After it each relation between linked entities has its edge in the table: joining the entities the links name, oriented, each tag at its own id, with the spelled type, the relation's metadata and the entity's times; on a page of distinct entities, where the entity has no time, the time its link was processed |
| `SyncedPage.OtherEdgesStay` | adapters/pco/pcoAdapterManagerLive.ts:1577-1652 | And every edge that no relation of the page asks for is as it was before |
| `FullSync.FullSyncBuriesIff` | adapters/adapter-core/chains/syncEngine.chain.ts:9-24 | After any number of pages the detection buries, of the links live before, exactly those stored under the detected type, last processed before the sync, and given no other updatedAt by any page; and no link that the sync inserted |
| `SchemaAst.DefaultIsAcceptedIff` | adapters/pco/transformer/pcoTransformer.ts:40-138 | For types of keywords, nulls, other literals and nested unions, the default is a value of the type if and only if the type has a keyword or admits null; so always with a known base type |
| `SchemaAst.PlainDefaultIsAcceptedIff` | adapters/pco/transformer/pcoTransformer.ts:40-138 | Without other literals, if and only if the type has a value at all |
| `SchemaAst.UnderlyingIsBase` | packages/schema/shared/schema.ts:183-229 | Where decoding knows such a type, defaulting knows the same one |
| `SchemaAst.DefaultInValues` | adapters/pco/transformer/pcoTransformer.ts:40-138 | The default of each form of type in values: "", 0, false or null, a union's by its first member with a base type unless it has null, a transformation's by its input unless a side is nullable |
| `SchemaAst.UnderlyingInTypes` | packages/schema/shared/schema.ts:183-229 | The base type that decoding finds for each form of type: a union's by its first member other than null |
| `PcoTransformer.FinishDecoding` | adapters/pco/transformer/pcoTransformer.ts:295-333 | The assignments that complete a decoded item amount to defaults below the decoded columns, and a normalised gender |
| `PcoTransformer.FinishEncoding` | adapters/pco/transformer/pcoTransformer.ts:450-468 | The last assignment of encoding respells the gender and nothing else |
| `PcoTransformer.DecodedIsComplete` | adapters/pco/transformer/pcoTransformer.ts:295-331 | A decoded entity has its tag, tags, type and status, a gender an entity can have, and every other carried column with its value |
| `PcoTransformer.DefaultsInValues` | adapters/pco/transformer/pcoTransformer.ts:295-331 | A column that no field fills is there only if it is the tag, the tags, the type or the status, and then is the schema's tag, an empty list, "default" or "active" |
| `PcoTransformer.ColumnsInValues` | adapters/pco/transformer/pcoTransformer.ts:233-333 | A filled column has the value of the last field that fills it; a gender of Male or M becomes male, of Female or F female, any other one null, and an absent one stays |
| `PcoTransformer.CustomFieldsInValues` | adapters/pco/transformer/pcoTransformer.ts:233-293 | The custom fields of a decoded entity are those of the item's custom fields that take part, in order, each with its JavaScript type's name, the prefixed key, the source "pco" and its value, null if undefined |
| `PcoTransformer.EncodeCovers` | adapters/pco/transformer/pcoTransformer.ts:335-453 | The keys of an encoded item exactly; every custom field that is not skipped is among them, with the value last stored for it from PCO, or else its default |
| `PcoTransformer.DefaultFitsFieldIff` | adapters/pco/transformer/pcoTransformer.ts:415-441 | A missing custom field of such a type is filled with a value of its type exactly when the type has a keyword or admits null |
| `PcoTransformer.WhatComesBack` | adapters/pco/transformer/pcoTransformer.ts:233-470 | For any schema: a custom field comes back, and a column comes back under each of its keys with the value of the last field that fills it |
| `PcoTransformer.RoundTrip` | adapters/pco/transformer/pcoTransformer.ts:233-470 | encode(decode(x)) agrees with x on every present, named, non-skipped field of known type, standard or custom, up to its normal form |
| `PcoTransformer.SecondTripIff` | adapters/pco/transformer/pcoTransformer.ts:233-470 | encode(decode(encode(decode(x)))) against encode(decode(x)): custom fields never change; a column changes under a key exactly when it holds a gender and exactly one of the column and the key that owns it is called gender, and the key or column is then read in the wrong spelling |
| `PcoTransformer.EncodeReadsOnlyPcoFields` | adapters/pco/transformer/pcoTransformer.ts:391-406 | Rows with the same PCO fields encode alike; other sources never reach the item |
| `PcoTransformer.RoundTripOverRuns` | adapters/pco/transformer/pcoTransformer.ts:391-406 | The round trip survives the entity table: after any run, from any start, whose last accepted sync of the entity brought the decoded item, the stored row, its own columns and custom fields, encodes back to the item |
| `TokenProtocol.StepKeepsInv` | backend/server/live/tokenAuthLive.ts:25-104 | Every step of every fiber keeps the protocol's invariant |
| `TokenProtocol.OneSharedRef` | backend/server/live/tokenAuthLive.ts:25-52 | At every reachable state at most one Ref was ever published, and all fibers work with that one |
| `TokenProtocol.NoTokenIsSpentTwice` | backend/server/live/tokenAuthLive.ts:65-104 | Unless new tokens were lost, a refresh token that the provider took is never sent again |
| `TokenProtocol.NoTokenIsSentTwice` | backend/server/live/tokenAuthLive.ts:65-104 | If besides no call is refused, none is sent twice at all |
| `TokenProtocol.ReturnsInTime` | backend/server/live/tokenAuthLive.ts:54-76 | A fiber goes on to return the token it has read, before the lock or under it, if and only if now plus 60,000 is at most createdAt plus expiresIn times 1000; else it goes on to refresh |
| `TokenProtocol.RefreshesFormAChain` | backend/server/live/tokenAuthLive.ts:65-104 | Each refresh starts from what the one before gave, and only when now plus 60,000 was past createdAt plus expiresIn times 1000 |
| `TokenHistory.StepKeepsTraced` | backend/server/live/tokenAuthLive.ts:25-104 | Every step keeps the trace of where tokens come from and how far the table is ahead, failures and losses included |
| `TokenHistory.TableIsNeverBehind` | backend/server/live/tokenAuthLive.ts:54-104 | At every reachable state the stored row holds the Ref's tokens or what a refresh call that sent exactly these was given; unless tokens were lost, it holds the Ref's tokens whenever the refresh lock is free |
| `TokenHistory.ReturnedTokensAreGood` | backend/server/live/tokenAuthLive.ts:54-104 | A returned token was minted by a call of that same fiber, or belongs to a state that had 60,000 milliseconds left when checked and that was loaded from a row of the org for PCO or issued by a refresh |
| `TokenResends.LossLeadsToResend` | backend/server/live/tokenAuthLive.ts:65-104 | From every state of the invariant, after each step that loses new tokens there is a run in which a token that the provider took is sent again; so the condition of `NoTokenIsSpentTwice` excludes nothing harmless |
| `TokenResends.RefusalLeadsToResend` | backend/server/live/tokenAuthLive.ts:78-86 | After every refused call there is a run in which its token is sent again, with nothing lost |
| `TokenResends.FailedSaveSpendsAgain` | backend/server/live/tokenAuthLive.ts:96-100 | From any state of the invariant, after a failed save a fiber that waits already sends the spent token again |
| `TokenResends.RefusedCallSendsAgain` | backend/server/live/tokenAuthLive.ts:78-86 | After a refused call the next waiting fiber sends the token again, and nothing is lost by it |
| `TokenResends.SpentTokenIsSentAgain` | backend/server/live/tokenAuthLive.ts:25-104 | For every row with less than a minute left there is a run from the start in which its spent token is sent twice |
| `TokenResends.RefusedTokenIsSentAgain` | backend/server/live/tokenAuthLive.ts:25-104 | And one, losing nothing, in which its refused token is |
| `TokenResends.RefreshGoesThrough` | backend/server/live/tokenAuthLive.ts:65-104 | From any state of the invariant, a refresh whose four steps succeed: the call sends the refresh token of the Ref, the answer dated by the clock replaces the Ref's state and its row and no other, the fiber returns the new access token and the lock is free |
| `TokenManager.Manager.LoadTokenState` | backend/server/live/tokenManagerLive.ts:14-44 | Gives the state of some row of the org for PCO, and fails only when there is none |
| `TokenManager.Manager.SaveTokenState` | backend/server/live/tokenManagerLive.ts:45-62 | Changes the one row the state came from and no other |
| `PushEntity.StepKeepsInv` | backend/workers/workflows/externalPushEntityWorkflow.ts:85-93 | Every step of a batch, a retry, another sync, or a burial of a link keeps the invariant |
| `PushEntity.CreatedAtMostOnce` | backend/workers/workflows/externalPushEntityWorkflow.ts:85-93 | Over any interleaving and any number of retries without interference, at most one remote create per internal id, and updates go to an entity that was linked to it |
| `PushEntity.CreatedThenUpdated` | adapters/adapter-core/chains/syncEngine.chain.ts:72-108 | After a retry an operation whose entity was created cannot create again and finds the recorded link |
| `PushEntity.SameIdCreatesTwice` | adapters/adapter-core/chains/syncEngine.chain.ts:72-108 | Wherever two operations on one unlinked id start an attempt, both may create |
| `PushEntity.AtMostOnceIff` | backend/workers/workflows/externalPushEntityWorkflow.ts:85-93 | Every run without interference creates at most once per id if and only if no two operations are on one unlinked id |
| `PushEntity.RetryInWindowCreatesTwice` | adapters/pco/pcoAdapterManagerLive.ts:636-665 | In every state of the invariant with an operation between its create and its link, an attempt that ends there leads to a second create |
| `PushEntity.TakenInWindowCreatesTwice` | adapters/pco/pcoAdapterManagerLive.ts:636-665 | In every such state, so does another sync that records the new entity first |
| `PushEntity.BuriedLinkCreatesTwice` | backend/server/live/internalManagerLive.ts:313-393 | In every state of the invariant, when the link of an entity that an operation created is buried, the next attempt creates another |
| `PushEntity.InterferenceCreatesTwice` | backend/workers/workflows/externalPushEntityWorkflow.ts:85-93 | Each step that counts as interference, a retry, another sync or a burial, can lead to a second create, so the condition excludes nothing harmless |
| `PushEntity.RecordWritesLink` | adapters/pco/pcoAdapterManagerLive.ts:651-665 | The link written after a create names the pushed internal id, unless the table already has the row |
| `PushMutation.PushedDeleteBuriesIff` | adapters/pco/pcoAdapterManagerLive.ts:713-727 | After the local half of a pushed delete a live link is dead if and only if the entity it names is the one that a live link with the internal id as its external id names, and that link's type has a table |
| `PushMutation.Pusher.CreateEntity` | adapters/pco/pcoAdapterManagerLive.ts:598-677 | Takes the protocol's steps as far as its calls succeed, the link written in the table; a link that fails to be written leaves it in the window |
| `PushMutation.Pusher.UpdateEntity` | adapters/pco/pcoAdapterManagerLive.ts:1160-1218 | Takes the protocol's steps as far as its calls succeed; its link is there already and keeps its entity |
| `PushMutation.Pusher.DeleteEntity` | adapters/pco/pcoAdapterManagerLive.ts:679-728 | Deletes remotely; then of all live links exactly those of the entity found under the internal id as an external one are buried, and without that or on a failure none |
| `PushMutation.Pusher.ProcessMutation` | adapters/adapter-core/chains/syncEngine.chain.ts:65-142 | Run alone, whichever of its calls fails: an insert or update takes steps of the protocol and creates exactly when there is no link and the remote call succeeds; a delete without a link is skipped, and one with a link keeps it alive unless the entity is found by its internal id |
| `PushPipeline.ConversionIsAllOrNothing` | backend/workers/helpers/convertCustomMutation.ts:48-218 | A custom mutation yields one operation per item in order, of the kind its operation names, on its table, with its item's id and data, or none; and exactly when |
| `PushPipeline.ContributionIsExact` | backend/workers/workflows/externalPushWorkflow.ts:43-93 | What a mutation contributes: a CRUD one the operations of its first argument in order, each under its table, a custom one what it converts to, or nothing |
| `PushPipeline.PushConservesOperations` | backend/workers/workflows/externalPushWorkflow.ts:43-93 | The groups hold every contributed operation as often as it was given, each in the one group of its table, in its order |
| `Pluralizer.ComesBackIff` | packages/shared/string.ts:17-124 | singularize(pluralize(w)) = w for a lower-case word if and only if it has none of the listed endings and is not "constructor" |
| `Pluralizer.PluralizeIsInjective` | packages/shared/string.ts:17-63 | On the words that come back, pluralize is injective |
| `Pluralizer.IrregularsInLetters` | packages/shared/string.ts:3-15 | The four irregular words and their plurals, both ways |
| `Pluralizer.RulesInLetters` | packages/shared/string.ts:17-63 | The plural of a regular word by its last letters, ending by ending |

## Left out

- HTTP clients, OAuth, email, user interface, routes, environment, rate limiting and webhook signatures: I/O and foreign calls.
- The Effect runtime, the workflow engine, drizzle and Postgres beyond what a statement does to a table.
- Date and JSON text parsing: times are integers, JSON values a datatype; `customFields` given as a JSON string is not parsed.
- Times given as empty strings: an input time is present or absent.
- `getEntityId`: the ids it would draw are inputs of each operation.
- `extractFields` and the search for annotations in `Schema.partial` types: the transformer starts from the annotated fields.
- The filter annotations that should drop bad data: as written they call for nothing beyond the schemas, and the model takes the entities after them.
- The fetching around a page: pagination, webhooks as such and the fallback data of a single entity.
- `RelationshipExtraction.ExtractRelationshipsEnhanced`: an empty internal id, on which the source throws, gives no edge; `NothingLostOrInvented` assumes ids are not empty. An object's integer-like keys, which JavaScript lists first, are taken in their written order.
- `InternalManager.Manager.ProcessRelationships`: the registry's arrays are sets, so their order is not modelled.
- `PageSync.SecondSyncChangesNothing`: pages of distinct entities; when one id comes both with and without times, the order of two concurrent statements decides by which time its edges are dated, and so what a second sync changes.
- `EntityTable.EntitiesAreWritten`: of a row to which entities of two types go, because two types share a table, only the unwritten case is stated; `RunReflectsLastSync` covers any row.
- `PageSync.ProcessPcoData`: says nothing of the tables when the sync fails half-way; what each statement and run keeps holds there too.
- `PushMutation.Pusher.CreateEntity`: of the answer's page only the link of the entity is written; `PageSync` says what a page does besides.
- `PcoTransformer.RoundTripOverRuns`: takes the row's times as decoded; the source turns those among the columns into dates.
- `PcoTransformer.RoundTrip`: assumes no field is named `customFields`, the name of the list itself; a field named like a property of every object is found by the source's `in` and is not modelled.
- `TokenProtocol.StepKeepsInv`: one `TokenAuth`; another process that writes the same row is not modelled.
- `PushEntity.CreatedAtMostOnce`: batches of inserts, updates and upserts; of a delete it has only what it does to the links, as the step `Bury`. Remote ids are taken never to be given out again.
- `Pluralizer.ComesBackIff`: lower-case ASCII words; other letters and mixed case go through the case mapping only for ASCII.
- The `syncing` column, `getWebhooks` and logging.
