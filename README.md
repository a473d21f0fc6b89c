# Content transfer engine of strapi-plugin-content-transfer

The plugin copies entities of a Strapi collection from the local instance to
a remote ("target") Strapi instance over its REST API. This project models
the engine behind that copy and proves properties of the model:

- **Preparing the payload.** `prepareEntityData` walks a local entity and
  strips ids and `localizations`. It swaps media objects for the target's
  copy of the file, and swaps values at relation paths for the target's copy
  of the related entity.
- **Reading the schema.** `getRelationFields` maps dotted attribute paths to
  relation descriptors. `getCollectionPopulateSchema` builds the populate
  plan for the local store.
- **Collecting.** `getAllEntityMedia` collects the media an entity uses.
  `getEntitiesRelationValues` collects, per related content type, the
  entities a batch points at.
- **Locales.**
  - `getConnectedLocalizations` finds the remote translations that match
    local ones.
  - `prepareEntitiesByDefaultLocale` picks, for each translation group, the
    entity sent in the target's default locale.
  - `getDefaultLocales` reads the target's locale settings, falling back to
    the local default.
- **The write helpers.** `updateEntity`, `createEntity` and
  `createEntityLocalization` each send at most one request, and so does
  `createParentRelation`. `getCreateLocaleParent` sends at most two: its
  lookup on the target of the target's copy of the default-locale parent,
  and then `createParentRelation`'s write.
  Together they decide how a relation's default-locale parent is found or
  made.
- **Services.**
  - `uploadMedia`: the files the target already has are reused, the others
    are downloaded and uploaded.
  - `getCreateRelations`: relations are split by locale and resolved in two
    loops.
  - `createUpdateEntityLocalizations`: the loop that writes an entity's
    translations, linking each new one to the ones known before it.
  - The lookups `getNewMediaFile` and `getNewRelation`, and the checks that
    `createUpdateEntities` makes before its write loop.

**Values.** JavaScript values are a `Value` datatype (module `Values`).
Objects are association lists in insertion order, because the engine's
reductions and `_.uniqBy` depend on that order.

**The target instance.** The instance is an oracle `Server` (module
`Remote`). It answers the n-th request of a run with a body or a rejection.
Every operation that talks to the instance returns its value together with
the requests it sent, in order.

**State.** The two loops of `getCreateRelations` and the loop of
`createUpdateEntityLocalizations` are methods with loop invariants. Each is
proved equal to a fold over the loop body, and the properties are lemmas
about that fold.

## Model

| member | source | states |
|---|---|---|
| Values.SetFieldGet | server/services/helpers/entities.ts:23 | after `{...o, k: x}` the key `k` reads `x` and every other key reads as in `o` |
| Values.RemoveKeysGet | server/utils/data.ts:16-18 | deleting keys leaves every other key present and reading the same value |
| Collections.UniqBy | server/utils/data.ts:106 | `_.uniqBy` returns only elements of its input and never more of them |
| Collections.UniqByUnique | server/utils/data.ts:106 | no two elements `_.uniqBy` keeps share a key |
| Collections.UniqByKeys | server/utils/data.ts:106 | a key is represented in the result if and only if some input element has it |
| Collections.UniqByFirst | server/utils/data.ts:106 | the element kept for a key is the first one that has it |
| Collections.UniqByIdentity | server/utils/data.ts:111 | input whose keys are already distinct comes back unchanged |
| Collections.Uniq | server/services/entitiesService.ts:446 | `_.uniq` keeps only values of its input |
| Collections.Compact | server/services/entitiesService.ts:407 | `_.compact` keeps exactly the truthy elements |
| Collections.CompactUnique | server/services/entitiesService.ts:131 | dropping falsy elements keeps the ids distinct |
| Collections.FindAt | server/services/entitiesService.ts:349 | `_.find` by a property path gives the first element whose value at the path matches: it is in the list, it matches, no earlier element does, and undefined comes back exactly when none matches |
| Collections.Without | server/utils/data.ts:308 | `_.without` keeps exactly the elements other than the given one |
| Collections.Difference | server/services/entitiesService.ts:225 | `_.difference` keeps exactly the elements of the first list not in the second |
| Collections.IdsOf | server/services/entitiesService.ts:425 | the i-th entry is the i-th element's `id` |
| Remote.GetErrorDetails | server/utils/data.ts:221-252 | the details are empty exactly when the error has no response; otherwise they are the generic item, the request-error item with the server's message or the error text, or the server's `details.errors`; only in the last case can there be more than one item |
| Schema.RelationFieldsSound | server/utils/data.ts:57-88 | every entry of the relation field map is a relation the schema declares at that dotted path, with the descriptor's `repeatable` and `dynamicZone` flags of the enclosing component or zone |
| Schema.RelationFieldsComplete | server/utils/data.ts:57-88 | every relation declared at any depth of components and dynamic zones has an entry at its path |
| Schema.RelationFields | server/utils/data.ts:57-88 | under a parent path and the enclosing flags, every entry is a relation declared at its path with those flags, and every declared relation has an entry |
| Schema.CollectionRelationFields | server/utils/data.ts:57-88 | from the collection, the map's keys are exactly the declared relation paths and each entry is the declared descriptor |
| Schema.ZoneRelationFieldsSound | server/utils/data.ts:75-84 | an entry contributed by a dynamic zone comes from one of its components, under `<zone>.<component uid>` |
| Schema.ZoneRelationFieldsComplete | server/utils/data.ts:75-84 | every relation of every zone component is in the zone's part of the map |
| Schema.PlanUpToShape | server/utils/data.ts:150-182 | a component's plan is empty or a single `populate` object |
| Schema.PlanStep | server/utils/data.ts:153-204 | a populated attribute sets its own entry and leaves every other entry as it was |
| Schema.PopulatePlan | server/utils/data.ts:145-205 | the plan is an object with an entry exactly for the populated attributes (under `populate` for a component), each the directive of the last attribute of that name |
| Schema.PlanCovers | server/utils/data.ts:145-205 | the plan has an entry exactly for the component, relation, media and dynamic-zone attributes (under `populate` for a component), and the last attribute of a name gives that entry's directive |
| Schema.ZonePlanHas | server/utils/data.ts:193-202 | a zone's `on` object has a key exactly for each of its components |
| Schema.ZonePlanGet | server/utils/data.ts:193-202 | each zone component's key holds that component's own plan |
| Prepare.PrepareEntityData | server/utils/data.ts:13-55 | for an entity with distinct keys, a key is in the payload exactly when it is not `localizations` and the entry is kept (media, a relation, or any key but `id`), and its value is the rewrite at that key's path |
| Prepare.PrepareValue | server/utils/data.ts:15-52 | objects become objects and arrays become arrays of the same length |
| Prepare.PrepareFieldsEntries | server/utils/data.ts:20-51 | the reduction writes exactly the kept entries, each with its rewritten value, and leaves the accumulator's other keys alone |
| Prepare.PrepareObjectEntries | server/utils/data.ts:15-52 | a key is in the output exactly when it is not `localizations` and the entry is kept; its value is the rewrite for its path |
| Prepare.PrepareDropsKeys | server/utils/data.ts:16-41 | no output object has `localizations`; `id` survives only when it holds media or sits at a relation path |
| Prepare.PrepareCopiesScalars | server/utils/data.ts:46-48 | every scalar other than `id` is copied unchanged |
| Prepare.PrepareSwapsMedia | server/utils/data.ts:23-28 | a media object becomes the lookup's file, or else itself with `id` undefined and every other key kept |
| Prepare.PrepareSwapsRelations | server/utils/data.ts:30-37 | a non-scalar at a relation path becomes the relation lookup's value for that path's descriptor |
| Prepare.PrepareDescends | server/utils/data.ts:43-45 | any other non-scalar is walked in turn at its path, extended by its `__component` when it has one |
| Prepare.PrepareItemsAt | server/utils/data.ts:21 | array items are rewritten one by one at the array's own path |
| Prepare.PrepareIdentity | server/utils/data.ts:13-55 | with no relation paths, a tree without media, ids, `localizations` or repeated keys is returned unchanged |
| Prepare.PrepareLocalizationFree | server/utils/data.ts:16-18 | when the lookups give values without `localizations`, the payload has none at any depth |
| Prepare.ConsumedKeys | server/utils/data.ts:16-18 | the input entity itself loses `localizations` and keeps every other key |
| Prepare.ConsumedIdentity | server/utils/data.ts:16-18 | an entity that is not itself media and has no `localizations` at any depth is not changed by the walk |
| Collect.AllMedia | server/utils/data.ts:90-107 | the collected media never share an id |
| Collect.AllMediaSound | server/utils/data.ts:90-107 | everything collected is a media object reached through non-media containers |
| Collect.AllMediaComplete | server/utils/data.ts:90-107 | every media object of the entity is represented by one with its id |
| Collect.AllMediaExact | server/utils/data.ts:90-107 | the collected media are exactly the entity's media objects, one per id |
| Collect.Merge | server/utils/data.ts:110-112 | merging covers the keys of both maps |
| Collect.Upsert | server/utils/data.ts:122-124 | the written key is added and no other key appears |
| Collect.MergeKeyIn | server/utils/data.ts:110-112 | a merged list holds an id exactly when either side's list did |
| Collect.UpsertKeyIn | server/utils/data.ts:122-124 | after the write, a target's list holds an id exactly when it did before or the new values hold it |
| Collect.RelationEntryRefers | server/utils/data.ts:118-131 | one entry adds exactly the references it holds: itself at a relation path, otherwise those nested in it |
| Collect.WalkValueRefers | server/utils/data.ts:114-135 | the inner walk finds exactly the references inside the value |
| Collect.EntitiesRelationValuesRefers | server/utils/data.ts:109-143 | a target's list holds an id exactly when some entity, or a localization at any depth, refers to it |
| Collect.EntitiesRelationValues | server/utils/data.ts:109-143 | no collected list holds two entities with the same id |
| Query.FilterQuery | server/utils/data.ts:207-218 | the query is the `filters[..][$in][i]=..` clauses joined by `&` in entity order, then the fixed paging suffix |
| Query.FilterQueryEmpty | server/utils/data.ts:207-218 | with no entities the query is only the suffix, starting with `&` |
| Query.RemoteFilteredEntities | server/services/entitiesService.ts:67-83 | no entities send nothing; otherwise one GET with the filter, `populate[localizations]=true` and the extra queries; a rejection gives no entities, an answer gives its `data` |
| Locales.FindTranslation | server/utils/data.ts:257 | the first local translation with the remote's locale and main field (no earlier one matches), and undefined when none matches |
| Locales.ConnectedIds | server/utils/data.ts:254-272 | exactly the ids of remote entities that a local translation matches |
| Locales.FirstOfferSpec | server/utils/data.ts:264-267 | the first connected remote entity with a main-locale localization is found, and none is found only when none has one |
| Locales.ConnectedFromKeeps | server/utils/data.ts:264-267 | once a parent is found, the rest of the reduction keeps it |
| Locales.ConnectedFromParent | server/utils/data.ts:255-271 | the parent is truthy exactly when some connected remote offers one, and is then the first such remote's main-locale localization |
| Locales.GetConnectedLocalizations | server/utils/data.ts:254-272 | `localizations` are the connected ids in order; the parent is the main-locale localization of the first connected remote that has one, and a parent implies a connected id |
| Locales.FilterAvailable | server/utils/data.ts:288 | keeps exactly the translations in one of the target's locales |
| Locales.PrepareEntitiesByDefaultLocale | server/utils/data.ts:277-322 | equal default locales keep every entity in order with every key except `localizations`, and everything when the target lists no locales; different ones send at most one entity per input, exactly one each when all are promotable; every entity without a locale is sent as it is, every localized entity with a default-locale translation is sent as its promotion (`PromotedFrom`), nothing else is sent, and when all are promotable the i-th entity sent stands for the i-th input |
| Locales.SameDefaultLocaleFilters | server/utils/data.ts:283-290 | a localized entity keeps exactly its translations in the target's locales |
| Locales.PromoteAllCount | server/utils/data.ts:293-322 | different default locales give at most one entity per input, and exactly one for every input when all of them are promotable |
| Locales.PromoteAllLocale | server/utils/data.ts:293-322 | every entity sent has no locale or is in the target's default locale |
| Locales.PromoteKeepsOriginal | server/utils/data.ts:300-320 | the promoted translation lists the original entity, unlinked, among its localizations |
| Locales.PromoteExact | server/utils/data.ts:293-320 | an entity without a locale is sent as it is; a localized one without a translation in the target's default locale is dropped; otherwise that translation, which is among its localizations and in the target's default locale, is sent with every field but `localizations`, and its localizations are exactly the other translations and the original unlinked, limited to the target's locales when those are known |
| Locales.PromoteAllCovers | server/utils/data.ts:293-322 | every entity without a locale is sent, and every localized entity with a default-locale translation is sent as its promotion |
| Locales.PromoteAllSound | server/utils/data.ts:293-322 | everything sent is an input without a locale or the promotion of a localized input |
| Locales.PromoteAllInOrder | server/utils/data.ts:293-322 | when every entity is promotable, the i-th entity sent is the i-th input or its promotion |
| Locales.PromoteAllAt | server/utils/data.ts:293-322 | when every entity is promotable, the i-th entity sent is the one entity the i-th input becomes |
| Locales.FlaggedDefault | server/services/entitiesService.ts:161 | the first locale flagged `isDefault` (no earlier one is), and undefined when none is |
| Locales.GetDefaultLocales | server/services/entitiesService.ts:153-175 | one request for the target's locales; the local default is kept as given |
| Locales.DefaultLocalesFallback | server/services/entitiesService.ts:167-174 | when the locale list cannot be fetched, both defaults are the local one, no locale is available, and the entities pass through unchanged |
| Locales.DefaultLocalesFound | server/services/entitiesService.ts:159-166 | the available locales are the listed codes; with no flagged locale the local default is used; otherwise the remote default is the code of the first flagged locale, or the local default when that code is null or undefined |
| Crud.Record | server/services/helpers/entities.ts:24-31 | a saved record carries `modelId`, the remote `id` and the local `oldId`, and otherwise the attributes |
| Crud.UnidentifiedFields | server/services/helpers/entities.ts:23 | the update payload never carries the local id, and every other field is sent as it is |
| Crud.LinkedFields | server/services/helpers/entities.ts:62-68 | the create payload drops the id and links the other locales' ids |
| Crud.SavedShape | server/services/helpers/entities.ts:22-41 | a readable answer gives the saved record with no error; anything else gives null data and exactly one error whose details come from what was thrown |
| Crud.UpdateEntity | server/services/helpers/entities.ts:5-42 | nothing is sent when missing relations may not be created; otherwise one PUT to `/<remote id>`, giving the saved record or the "Failed to update" error |
| Crud.CreateEntity | server/services/helpers/entities.ts:44-88 | the same guard; one POST linking the other locales, giving the saved record or the "Failed to create" error |
| Crud.CreateEntityLocalization | server/services/helpers/entities.ts:90-144 | the same guard; a falsy parent id is one error with nothing sent; otherwise one POST under the parent, the answer body being the record |
| Crud.HelpersSendAtMostOne | server/services/helpers/entities.ts:5-144 | each helper sends at most one request, and an update reports no error exactly when its answer was readable |
| Parents.Decide | server/services/helpers/relations.ts:21-57 | update exactly when there is a main-locale parent; attach exactly when there is none but some connected id, under the first one; otherwise create linked to nothing |
| Parents.DecideExact | server/services/helpers/relations.ts:10-58 | the decision in terms of the remote translations: update the first connected offer's parent, else attach to the first connected id, else create |
| Parents.Perform | server/services/helpers/relations.ts:25-57 | the chosen helper sends at most one request, the PUT, localization POST or create POST the action names (nothing for a falsy parent id, which is one error), and ends with either data or a single error |
| Parents.CreateParentRelation | server/services/helpers/relations.ts:10-58 | carries out the decided action, sending at most one request |
| Parents.CreateParentRelationRequests | server/services/helpers/relations.ts:25-57 | the request sent for each of the three cases |
| Parents.Flattened | server/services/helpers/relations.ts:84-91 | the flattened remote parent has the remote `id`, the remote `localizations.data`, and the attributes otherwise |
| Parents.GetCreateLocaleParent | server/services/helpers/relations.ts:72-77 | an existing parent is returned as is, with nothing sent |
| Parents.LocaleParentResolution | server/services/helpers/relations.ts:79-107 | otherwise the lookup goes first; a rejection propagates; a found parent is returned flattened with no error; only when none is found is `createParentRelation` consulted, its data and errors returned as they are |
| Upload.FindSameFile | server/services/entitiesService.ts:98 | the first target file with the same name, width and height (no earlier one has them), and undefined when there is none |
| Upload.ToUpload | server/services/entitiesService.ts:92-94 | exactly the media files the target has no file like |
| Upload.ReusedAll | server/services/entitiesService.ts:97-104 | each known file is mapped in place |
| Upload.Reused | server/services/entitiesService.ts:97-104 | a known file becomes the target's file, and an unknown one the local file with `id` undefined; either way every other key is kept and `localId` is the local id |
| Upload.UploadStep | server/services/entitiesService.ts:107-125 | one file adds at most one error, and keeps the earlier results and errors |
| Upload.UploadAll | server/services/entitiesService.ts:107-127 | the uploads keep earlier results and errors and add at most one error per file |
| Upload.UploadStepEffect | server/services/entitiesService.ts:107-125 | the download goes first; a rejected download stops the batch with nothing else changed; an empty download records undefined and sends nothing more; otherwise the upload follows, and a rejected upload or an answer without a body records null and one "Failed to upload file" error with the error details, while an answer with a body adds no error |
| Upload.UploadAllResults | server/services/entitiesService.ts:107-127 | without a rejected download every file has its result, and a truthy result is tagged with that file's local id |
| Upload.FaultedUploads | server/services/entitiesService.ts:127 | after a rejected download nothing more is sent |
| Upload.UploadedTagged | server/services/entitiesService.ts:114-116 | a truthy upload result comes from a downloaded file and an upload answer with a body; it carries the file's local id as `localId`, and every other key reads as in the answer's first file |
| Upload.MediaPartition | server/services/entitiesService.ts:92-104 | the upload list and the reused list partition the media by whether the target has a like file, and every reused file carries its local id |
| Upload.UploadMedia | server/services/entitiesService.ts:85-151 | the file library is fetched first; an unreadable library gives no media and one "Failed to fetch files" error; with uploading off or nothing to upload, only the listing is sent and the reused files come back with no error |
| Upload.MediaUploadGate | server/services/entitiesService.ts:106-139 | with uploading off, or every file known, only the listing is sent and the reused files come back with no error |
| Upload.MediaUploaded | server/services/entitiesService.ts:127-133 | uploading gives at most one error per file to upload, plus one; when files were uploaded and no download was rejected, the media are truthy with distinct ids, each an upload result or a reused file, every truthy file that is the first with its id among the upload results and reused files is kept, and the errors are those of the uploads; a rejected download gives no media and the upload errors followed by "Failed to fetch files" |
| Translations.LocalizeStep | server/services/entitiesService.ts:429-458 | each translation sends one request and adds exactly one result or one error, keeping what came before |
| Translations.LocalizeUpTo | server/services/entitiesService.ts:425-459 | after n translations there are n requests and n results and errors together, with the parent first among the created ids |
| Translations.CreateUpdateEntityLocalizations | server/services/entitiesService.ts:415-465 | the method returns the fold's results, errors and requests, starting from the compacted ids of the translations |
| Translations.SendLocalizations | server/services/entitiesService.ts:428-459 | the loop computes the fold over the translations |
| Translations.SendLocalization | server/services/entitiesService.ts:429-458 | the loop body computes one step of the fold |
| Translations.UniqMembers | server/services/entitiesService.ts:446 | `_.uniq` keeps every value it is given, and only those |
| Translations.LinksCover | server/services/entitiesService.ts:444-447 | a link list holds exactly the known remote ids and the translations created so far |
| Translations.LocalizeStepRequest | server/services/entitiesService.ts:430-447 | a translation with an id is updated under it; one without is created under the parent, linked to every known id and every translation created before it |
| Translations.LocalizeStepOutcome | server/services/entitiesService.ts:438-457 | a step ends in an error exactly when its answer was unreadable, and the error names the translation; a created translation is added to the links of the next |
| Translations.LocalizeUpToRequest | server/services/entitiesService.ts:425-459 | across the loop the i-th request belongs to the i-th translation, and every translation created links the parent and every known remote id |
| Resolve.KeepTransferable | server/services/entitiesService.ts:220-222 | keeps exactly the relations the target can take |
| Resolve.KeepDefaultLang | server/services/entitiesService.ts:224 | keeps exactly the relations in the target's default locale or without locale |
| Resolve.SplitRelations | server/services/entitiesService.ts:220-225 | every relation the target can take goes to exactly one of the two loops; with no target locales nothing is filtered out |
| Resolve.KeepAllTransferable | server/services/entitiesService.ts:221 | with no target locales every relation is transferable |
| Resolve.RemoteRecordFields | server/services/entitiesService.ts:244-249 | a remote record maps the remote id to the local `oldId` of collection `modelId`, and otherwise the remote attributes |
| Resolve.FindRemoteTranslation | server/services/entitiesService.ts:241 | the first remote translation with the relation's main field and locale (no earlier one matches), and undefined when none matches |
| Resolve.ExistingParent | server/services/entitiesService.ts:279-289 | a parent created earlier with the same main field wins; else the remote default-locale entity with that main field, flattened with its remote id; else none |
| Resolve.Translate | server/services/entitiesService.ts:304-337 | a translation the parent lists in its locale is updated under that localization's remote id; otherwise it is posted as a localization of the parent, linking the parent's localizations; at most one request, and either data or a single error |
| Resolve.Attach | server/services/entitiesService.ts:302-342 | keeps the earlier errors, requests and new relations, adding at most one new relation |
| Resolve.LocalizedStep | server/services/entitiesService.ts:240-343 | one iteration adds at most one new relation, keeps what came before, and does nothing once something was thrown |
| Resolve.LocalizedUpTo | server/services/entitiesService.ts:240-343 | the translation loop adds at most one new relation per translation and keeps what came before |
| Resolve.ResolveLocalized | server/services/entitiesService.ts:240-343 | the loop computes the fold over the translations |
| Resolve.LocalizedFound | server/services/entitiesService.ts:241-251 | a translation the target already has is recorded under its remote id and local `oldId`, with nothing sent |
| Resolve.LocalizedOrphan | server/services/entitiesService.ts:264-277 | a translation with no default-locale translation locally is one error, with nothing sent |
| Resolve.LocalizedReusesParent | server/services/entitiesService.ts:279-300 | a parent created or found earlier for the same entity is reused with no lookup, and the translation is written under it |
| Resolve.LocalizedWriteErrorsDropped | server/services/entitiesService.ts:302-342 | the errors of the parent's resolution are kept and those of writing the translation are not; a throw stops the loop; a missing parent adds one error |
| Resolve.LocalizedFaultStops | server/services/entitiesService.ts:291-300 | once something was thrown, the rest of the loop does nothing |
| Resolve.DefaultStep | server/services/entitiesService.ts:347-394 | one iteration adds at most one new relation, keeps what came before, never throws, and leaves the created parents alone |
| Resolve.CreateDefault | server/services/entitiesService.ts:368-393 | looking up the translations and creating the parent adds at most one new relation and keeps what came before |
| Resolve.DefaultUpTo | server/services/entitiesService.ts:347-394 | the default-locale loop adds at most one new relation per relation and keeps what came before |
| Resolve.ResolveDefaults | server/services/entitiesService.ts:347-394 | the loop computes the fold over the default-locale relations |
| Resolve.DefaultOrder | server/services/entitiesService.ts:349-366 | a parent created for a translation is reused first; else a remote entity with the same main field is recorded under the local id; else `createParentRelation` |
| Resolve.CreateDefaultOutcome | server/services/entitiesService.ts:368-393 | the parent's errors are kept, its data recorded when truthy, and at most two requests sent |
| Resolve.Opening | server/services/entitiesService.ts:232-238 | at most two lookups; the translations are looked up only when locales are transferred |
| Resolve.ResolveRelationKey | server/services/entitiesService.ts:208-404 | the callback runs the translation loop, then the default-locale loop unless something was thrown |
| Resolve.ResolveKeyWithoutLocales | server/services/entitiesService.ts:231-237 | without transferring locales only the default-locale lookup and loop run |
| Resolve.ResolveKey | server/services/entitiesService.ts:208-404 | the callback's value is null or an array; without transferring locales it is an array; null comes with "Failed to fetch relation" as the last error; an array holds at most one entry per relation split off as localized or default |
| Resolve.ResolveGroups | server/services/entitiesService.ts:208-213 | no collections give nothing; collections none of which has stored settings send nothing, report nothing, and give one null each |
| Resolve.GetCreateRelations | server/services/entitiesService.ts:189-413 | the target's locales are fetched first, and only truthy new relations are returned |
| Resolve.UnsetCollectionSkipped | server/services/entitiesService.ts:209-213 | a collection without stored settings sends nothing and adds no error or relation |
| Transfer.FindByProp | server/services/entitiesService.ts:482 | `_.find` by a property gives the first matching file, and undefined exactly when none matches |
| Transfer.GetNewMediaFile | server/services/entitiesService.ts:481-488 | the file recorded for the local id, else a file with the same name, else undefined |
| Transfer.FindRelation | server/services/entitiesService.ts:495 | the first new relation recorded for the value's id in the descriptor's collection (no earlier one is), and undefined when there is none |
| Transfer.Stripped | server/services/entitiesService.ts:501 | a resolved relation has no `oldId` or `modelId` and keeps every other key |
| Transfer.ResolveValues | server/services/entitiesService.ts:494-504 | at most one result per value |
| Transfer.ResolveValuesHas | server/services/entitiesService.ts:494-504 | the stripped relation of every value that has one is among the results, whether or not the other values resolve |
| Transfer.ResolveValuesSound | server/services/entitiesService.ts:494-504 | every result is a stripped new relation of the descriptor's collection that stands for one of the values |
| Transfer.ResolveValuesComplete | server/services/entitiesService.ts:494-504 | when every value has a new relation, the i-th result is the i-th value's relation |
| Transfer.ResolveValuesAppend | server/services/entitiesService.ts:494-504 | the reduction maps in order: `xs + ys` gives the results of `xs` followed by those of `ys` |
| Transfer.ResolveValuesSingle | server/services/entitiesService.ts:494-504 | a single value gives its stripped relation, or nothing when it has none |
| Transfer.GetNewRelation | server/services/entitiesService.ts:490-511 | a list gives a list of resolved relations that contains the stripped relation of every value that has one; a single value gives its own relation, or null exactly when it has none |
| Transfer.GetNewRelationComplete | server/services/entitiesService.ts:490-511 | a list whose values all resolve is resolved in full, in order |
| Transfer.GetNewRelationAppend | server/services/entitiesService.ts:490-511 | a list resolves to the in-order concatenation of the resolutions of its parts |
| Transfer.MediaSwapUploaded | server/utils/data.ts:23-28 | a media object whose local id was recorded is replaced by a recorded file for that id; with nothing recorded under its id or name it keeps its fields with `id` cleared |
| Transfer.StartTransfer | server/services/entitiesService.ts:513-537 | the target's locales are the only request before the write loop |
| Transfer.StartTransferChecks | server/services/entitiesService.ts:515-537 | the transfer goes on exactly when the reconciled batch is not empty; stopping gives no data and one error; a mismatch is reported, with both sizes, exactly when the batch changed size |
| Transfer.StartTransferWhole | server/services/entitiesService.ts:513-537 | with equal default locales, or no locale list, a non-empty batch proceeds whole with no mismatch |
| Transfer.StartTransferPromoted | server/services/entitiesService.ts:513-537 | with different default locales a transfer that goes on reports the mismatch exactly when some entity has a locale but no translation in the target's default, and a non-empty input is stopped only when some entity is such |

## Left out

- I/O is not modelled as real I/O:
  - HTTP goes through the `Server` oracle.
  - The local store's `findOne`, the core-store settings and the i18n
    plugin store's default locale are parameters.
  - `encodeURIComponent` is a parameter.
  - `console.error` is dropped.
- Concurrency: `Promise.all` over the upload requests and over the relation
  collections runs one callback after the other. A request's time is its
  position in that order, and errors are pushed in that order.
- A rejected file download in `uploadMedia` rejects the whole batch in the
  source. The model stops sending at that download, which is what the
  sequential reading gives.
- Blob and FormData construction is reduced to an upload request that
  carries the downloaded body, the file name and the MIME type.
- `===` on objects compares references in the source. The model compares
  structure, in `_.difference`, `_.without`, `_.uniq` and the `_.find`
  matchers.
- `_.map`, `_.find` and `_.reduce` over a plain object iterate its values.
  Lodash's treatment of array-likes, of strings, and of `_.includes` as a
  substring test on a string is not modelled.
- `prepareEntityData` changes its input in place (`delete value.localizations`).
  The model returns the payload and, separately, the entity after the call
  (`Prepare.Consumed`). Aliasing between the two is not captured.
- A property read on null or undefined throws in the source. The model reads
  undefined, except where the source catches the throw locally:
  - in the write helpers;
  - in `getRemoteFilteredEntities`;
  - in the translation loop;
  - in `getCreateLocaleParent`.
- Some reads throw in the source, and an enclosing `try` turns that throw
  into an error.
  - They are `mediaFile.name` and `existingFile.name` in `uploadMedia`
    (server/services/entitiesService.ts:93 and 98). They throw on a null
    entry, and the `catch` at line 140 gives "Failed to fetch files".
  - They are `el.attributes[mainField]` and `er.attributes[mainField]` in
    the relation callback (lines 241, 280 and 356). They throw on a remote
    entity without `attributes`, and the `catch` at line 397 gives "Failed
    to fetch relation".
  - They are `l.isDefault` and `l.code` in `getDefaultLocales`
    (server/services/entitiesService.ts:161 and 165). They throw on a null or
    undefined entry of the target's locale list, and the `catch` at line 167
    falls back to the local default with no target locales.
    `Locales.GetDefaultLocales` reads undefined there instead, so its codes
    can include undefined and its default can come from a later flagged
    entry.
  - The model reads undefined there and carries on, so it does not produce
    these errors or this fallback for such inputs.
- `prepareEntitiesByDefaultLocale` assigns `entity.localizations` in place
  (server/utils/data.ts:288). `Locales.KeepAvailable` returns a new entity
  instead, so the change is not visible through other references to it.
  Aliasing and update in place are not captured.
- A throw from `findOne` is not modelled.
- The text of a thrown error (`${err}`) is `Fault.text`, given by the oracle.
- The per-entity upsert loop of `createUpdateEntities`
  (server/services/entitiesService.ts:541-630) is not part of this model. Its
  payload preparation is modelled by `prepareEntityData` and the two lookups.
- `getCollections`, `getEntitiesByCollection`, the controllers, the routes
  and the HTTP client are not part of this model.
- The main field read from the collection settings is taken to be a string.
- Numbers are `Num(int)`, not IEEE doubles. The engine only compares and
  copies numbers (ids, widths, heights), so fractions, NaN and rounding are
  not modelled.
- Transfer.MediaSwapUploaded: when a file is recorded for the local id, the
  contract says only that the result is a recorded file matching that id,
  not which one. When no file is recorded for the id but one matches the
  name, it says nothing; `Transfer.GetNewMediaFile` states that case.
- Locales.FirstOffer has no contract of its own. Its properties are stated
  by `Locales.FirstOfferSpec`.
