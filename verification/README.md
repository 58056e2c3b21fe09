# uSync core logic in Dafny

A model of four pieces of uSync's sequential logic, with proofs about them:

- **The data type serializer.** `DeserializeCore` diffs a data type file against a live data type. It visits the fields in a fixed order: Name, Key, EditorAlias, DatabaseType, Config, then Folder. It emits one change record per real mismatch and changes the item only on a mismatch. Around it sit four pieces:
  - the config-exclusion policy, driven by the NoConfigEditors and NoConfigNames settings;
  - compact-JSON equality for configurations;
  - `SerializeCore`, which writes a data type to its file node;
  - `CreateItem` and `SaveItem`.
- **The dictionary handler.** It covers:
  - the one-way policy, and the short-circuits Import and ReportElement build on it;
  - the recursive pre-order export of the dictionary tree, with its per-level progress callback;
  - the child lookup the base handler walks;
  - the folder path built from an item's chain of parents.
- **The data type handler.** It covers the post-import step, which re-imports each flagged file, runs the second pass for each success and cleans the folders last. It also covers the name of a data type's file.
- **The mutex service.** This is the pause flag that stops uSync from reacting to the save events its own imports raise.

Files, one module each:

| file | module |
|---|---|
| `wrappers.dfy` | `Wrappers`: `Option` and `Result` |
| `sync_core.dfy` | `SyncCore`: Guids and `ChangeType` |
| `text.dfy` | `Text`: blank strings, case-insensitive equality and containment, joining |
| `data_type_serializer.dfy` | `DataTypeSerializer` |
| `data_type_serializer_proofs.dfy` | `DataTypeSerializerProofs` |
| `dictionary_handler.dfy` | `DictionaryHandler` |
| `dictionary_handler_proofs.dfy` | `DictionaryHandlerProofs` |
| `data_type_handler.dfy` | `DataTypeHandler` |
| `data_type_handler_proofs.dfy` | `DataTypeHandlerProofs` |
| `mutex_service.dfy` | `MutexService` |
| `mutex_service_proofs.dfy` | `MutexServiceProofs` |

## How the model is built

The data type and the parsed file are immutable records:
- a missing `Info` child element is `None`;
- the element readers supply the defaults the source uses: the empty string, and `Nvarchar` for DatabaseType.

A null configuration object is `None`; the configuration type itself is a type parameter `C`. The host's collaborators are fields of a `Host` value:
- the data editor and property editor registries, in registry order;
- the configuration-serializer registry;
- indented and compact JSON;
- folder lookup;
- the Folder element writer.

Each step of the diff is a pure function from an item to a new item and its change records. `DeserializeCore` returns `Failure` where the source throws:
- when the item can neither be found nor created;
- when a Config text is present but the item's configuration is null, where the source dereferences a null.

The localization service is a finite forest of dictionary items, listed in service order. Finding an item by id or key takes the first match in pre-order. Building the path recurses on parents. Its termination is witnessed by a ghost `rank` on keys that every found parent ranks below: the source recurses without bound.

`ProcessPostImport` records the calls it makes into the base handler as a trace. The base handler's Import, ImportSecondPass and CleanFolders are parameters. The export of one dictionary item works the same way: it is a parameter, and the progress callback is the list of calls it would receive.

The pause flag is a one-field record. Code running against it is a list of operations: pause, unpause, fail, or run a body inside an import pause.

Behaviour of the code that the model keeps as written:
- **ProcessPostImport** re-imports each action's file, runs the second pass only when that re-import succeeds, and then calls `CleanFolders(folder, -1)`.
- **The pause flag** is a single boolean. Nested import pauses therefore unpause when the inner one ends (`NestedScopeClearsOuter`).
- **The NoConfigEditors and NoConfigNames settings** are each matched as one case-insensitive substring. The comment's example value "Approved Colour,My Colour Picker" thus also excludes a data type named "colour" (`SubstringOverMatch`).
- **Deserializing the same file twice** can record a change the second time. The editor lookup ignores case but the comparison before it does not. A file alias that differs from the registered alias only in case is therefore recorded again on every import (`ReimportRepeatsCaseOnlyAlias`). Idempotence is proved for files whose alias is spelled as registered (`Idempotent`).
- **Import without settings** throws: the one-way test reads the settings without a null check, while ReportElement checks for null first (`ImportReportAgree`).

## Model

Source paths:
- S = `uSync8.Core/Serialization/Serializers/DataTypeSerializer.cs`
- D = `uSync8.ContentEdition/Handlers/DictionaryHandler.cs`
- H = `uSync8.BackOffice/SyncHandlers/Handlers/DataTypeHandler.cs`
- M = `uSync.BackOffice/Services/uSyncMutexService.cs`

| member | source | states |
|---|---|---|
| DataTypeSerializer.FirstEditor | uSync8.Core/Serialization/Serializers/DataTypeSerializer.cs:67 | The registered editor chosen for a file alias is the first, in registry order, equal to it ignoring case. There is none exactly when no registered alias matches. |
| DataTypeSerializer.DeserializeConfiguration | uSync8.Core/Serialization/Serializers/DataTypeSerializer.cs:117-151 | A blank Config text succeeds, records nothing and leaves the item as it was. Otherwise it fails exactly when the current configuration is null. When it succeeds, it records a Config change exactly when the compact JSON of the old and the read configuration differ. That change is the single record `Update(Config, "Configuration", old, new)`, where new is the text read with the codec of the item's editor and becomes the configuration. Nothing else changes. |
| DataTypeSerializer.SetFolderFromElement | uSync8.Core/Serialization/Serializers/DataTypeSerializer.cs:98-114 | One Folder record and a reparent happen exactly when the Folder element is non-blank, resolves to a container, and that container's id differs from the parent id. Otherwise the item is unchanged. |
| DataTypeSerializer.DeserializeCore | uSync8.Core/Serialization/Serializers/DataTypeSerializer.cs:37-96 | A find-or-create failure is passed on. Otherwise it fails exactly when the policy admits a non-blank Config and the configuration is null. Success is summarised by FaithfulDiff. Every field holds the file's value and is recorded exactly when it differed. Config and Folder are recorded exactly when the policy and the lookups call for a change. Every record has the path, old value and new value the source writes. Records are in field order, at most one per field, and no records means the item is unchanged. |
| DataTypeSerializer.DeserializeScalarsFaithful | uSync8.Core/Serialization/Serializers/DataTypeSerializer.cs:37-84 | Name, Key and DatabaseType (missing means Nvarchar) each take the file's value and are recorded exactly when they differed. The editor switches exactly when the alias differs and a registered editor matches it ignoring case; otherwise it is kept and nothing fails. Each record names its path ("Name", "Key", "EditorAlias", "DatabaseType"), the item's old value and the file's value; the EditorAlias record carries the file's spelling of the alias. |
| DataTypeSerializer.DeserializeConfigFaithful | uSync8.Core/Serialization/Serializers/DataTypeSerializer.cs:86-90 | The configuration changes exactly when a Config record is emitted. That happens exactly when the policy admits the file, its Config text is not blank, the configuration is not null, and the text read with the codec of the resulting editor differs from the configuration in compact JSON. The record holds the old and the new configuration under path "Configuration". |
| DataTypeSerializer.DeserializeFolderFaithful | uSync8.Core/Serialization/Serializers/DataTypeSerializer.cs:92-114 | The parent changes exactly when a Folder record is emitted. That happens exactly when the Folder element resolves to a container whose id differs from the parent id. The record has path "" and holds the container id first and the old parent id second. |
| DataTypeSerializer.DeserializeOrderFaithful | uSync8.Core/Serialization/Serializers/DataTypeSerializer.cs:47-94 | The records follow the visiting order with each field at most once. An empty record list means the item is unchanged. |
| DataTypeSerializer.SerializeConfiguration | uSync8.Core/Serialization/Serializers/DataTypeSerializer.cs:197-218 | A Config text exists exactly when the configuration is not null. It is written by the editor's registered serializer, or by JSON when there is none. |
| DataTypeSerializer.SerializeCore | uSync8.Core/Serialization/Serializers/DataTypeSerializer.cs:168-192 | The file carries the item's key, name and level. Info holds the name, editor alias and storage type. Below level 1, Info carries the folder element the item's containers give, and at level 1 it carries none. A Config element appears exactly when the configuration is not null, and it holds the text the editor's codec writes. |
| DataTypeSerializer.CreateItem | uSync8.Core/Serialization/Serializers/DataTypeSerializer.cs:221-239 | Creation succeeds exactly when a property editor has exactly that alias; otherwise it fails with the "(Missing Package?) DataEditor … is not installed" message. A new item has the requested name and editor, the given key, and the parent folder when one is given. |
| DataTypeSerializerProofs.CreateThenDeserialize | uSync8.Core/Serialization/Serializers/DataTypeSerializer.cs:221-236 | A data type created with the file's editor alias as its type, under any name, always succeeds when that editor is installed. Deserialized from the file, it then carries the file's name, key, editor alias and database type, and no EditorAlias record. |
| DataTypeSerializer.SaveItem | uSync8.Core/Serialization/Serializers/DataTypeSerializer.cs:259-263 | An item is handed to the service exactly when it is dirty, that is, when it differs from the stored one. |
| DataTypeSerializerProofs.RoundTrip | uSync8.Core/Serialization/Serializers/DataTypeSerializer.cs:170-189 | Writing an item and deserializing the file onto the same item succeeds, records nothing and leaves the item as it was, under any settings. This holds when the codec reads back what it writes, up to compact JSON, and the written folder resolves to the current parent. |
| DataTypeSerializerProofs.SerializedScalarsMatch | uSync8.Core/Serialization/Serializers/DataTypeSerializer.cs:172-175 | Re-deserializing a written file onto the same item records no Name, Key, EditorAlias or DatabaseType change, and keeps those fields, with no assumption on codecs or folders. |
| DataTypeSerializerProofs.Idempotent | uSync8.Core/Serialization/Serializers/DataTypeSerializer.cs:51-114 | Deserializing the same file onto the result of a successful deserialization succeeds and records nothing. This holds when the file's alias is spelled as the registered editor it matches. |
| DataTypeSerializerProofs.ReimportRepeatsCaseOnlyAlias | uSync8.Core/Serialization/Serializers/DataTypeSerializer.cs:63-73 | A file alias "Umbraco.Textbox" against the registered "Umbraco.TextBox" records an EditorAlias change and leaves the item as it was, so every re-import records it again. |
| DataTypeSerializerProofs.ExcludedConfigUntouched | uSync8.Core/Serialization/Serializers/DataTypeSerializer.cs:87-90 | When the policy excludes the file, deserialization always succeeds, records no Config change and keeps the configuration. |
| DataTypeSerializerProofs.ConfigDecisionThroughJson | uSync8.Core/Serialization/Serializers/DataTypeSerializer.cs:124-163 | The Config step sees the current configuration only through its compact JSON: two JSON-equal configurations both succeed, record a change in the same cases, and end with the same new configuration. |
| DataTypeSerializerProofs.JsonEqualConfigKept | uSync8.Core/Serialization/Serializers/DataTypeSerializer.cs:125-146 | A Config text that reads back JSON-equal to the current configuration succeeds, records nothing and keeps the item. |
| DataTypeSerializerProofs.LongerSettingExcludesMore | uSync8.Core/Serialization/Serializers/DataTypeSerializer.cs:299-310 | Appending text to the NoConfigEditors or NoConfigNames setting never re-admits a file whose Config element the setting already excluded. |
| DataTypeSerializerProofs.PolicyIgnoresCase | uSync8.Core/Serialization/Serializers/DataTypeSerializer.cs:299-310 | Whether the Config element is deserialized does not depend on the case of the file's name or editor alias. |
| DataTypeSerializerProofs.ListedEditorExcluded | uSync8.Core/Serialization/Serializers/DataTypeSerializer.cs:301-303 | A non-blank NoConfigEditors setting that lists the file's editor alias (any case) excludes the configuration. |
| DataTypeSerializerProofs.ListedNameExcluded | uSync8.Core/Serialization/Serializers/DataTypeSerializer.cs:305-307 | A non-blank NoConfigNames setting that lists the file's name (any case) excludes the configuration. |
| DataTypeSerializerProofs.SubstringOverMatch | uSync8.Core/Serialization/Serializers/DataTypeSerializer.cs:305-307 | NoConfigNames "Approved Colour" also excludes a data type named "colour": the match is a substring match. |
| DataTypeSerializerProofs.NoSettingsImportAll | uSync8.Core/Serialization/Serializers/DataTypeSerializer.cs:299-310 | With neither setting present, every configuration is deserialized. |
| DataTypeSerializerProofs.SaveFollowsRecords | uSync8.Core/Serialization/Serializers/DataTypeSerializer.cs:259-263 | After deserializing, nothing is saved when nothing was recorded. The item is saved when a Name, Key, DatabaseType, Config or Folder change was recorded. |
| DictionaryHandlerProofs.OneWayExactly | uSync8.ContentEdition/Handlers/DictionaryHandler.cs:218-221 | One-way mode is on exactly when the "OneWay" setting is present and is one of the sixteen case spellings of "true". |
| DictionaryHandler.Import | uSync8.ContentEdition/Handlers/DictionaryHandler.cs:64-85 | Without settings the import throws. With settings in one-way mode, when the file's item exists, the import answers with exactly one successful NoChange action for that item's ItemKey. In every other case it hands over to the base import. |
| DictionaryHandler.ReportElement | uSync8.ContentEdition/Handlers/DictionaryHandler.cs:201-216 | With settings in one-way mode, when the item exists, the report is one non-updating action with "Existing Item will not be overwritten". Otherwise, including with no settings, it hands over. |
| DictionaryHandlerProofs.ImportReportAgree | uSync8.ContentEdition/Handlers/DictionaryHandler.cs:201-216 | Import and ReportElement with the same settings short-circuit in the same cases and name the same item. Without settings they differ: Import throws, the report hands over. |
| DictionaryHandlerProofs.NewItemsAlwaysImported | uSync8.ContentEdition/Handlers/DictionaryHandler.cs:76-83 | With settings, Import hands an item that does not exist yet to the base handler; ReportElement does so with or without settings. |
| DictionaryHandler.GetChildItems | uSync8.ContentEdition/Handlers/DictionaryHandler.cs:138-154 | Parent -1 gives the root items. An id no item has gives nothing. Otherwise the result is the children of the key of the first item found with that id. |
| DictionaryHandlerProofs.ChildItemsMatchExport | uSync8.ContentEdition/Handlers/DictionaryHandler.cs:107-154 | In a well-formed store, the items walked under -1 are the roots the export starts from, and those walked under an item's id are its children, the level the export walks below it. |
| DictionaryHandlerProofs.KeyFindsItself | uSync8.ContentEdition/Handlers/DictionaryHandler.cs:148-150 | With unique keys, looking up an item's key finds that item. |
| DictionaryHandler.ExportLevel | uSync8.ContentEdition/Handlers/DictionaryHandler.cs:122-133 | Exporting a list of items yields each item's export followed by its descendants', in pre-order. The progress calls are produced in the same order, each counted within its own sibling list. |
| DictionaryHandler.ExportAllFrom | uSync8.ContentEdition/Handlers/DictionaryHandler.cs:107-120 | The export from the empty key covers the root items; from any other key it covers that item's children. The callback receives the calls only when one is given. |
| DictionaryHandler.ExportAll | uSync8.ContentEdition/Handlers/DictionaryHandler.cs:98-102 | The first effect is cleaning the given folder. It is followed by exactly the export actions of the whole forest, in pre-order from the empty key, and nothing else. |
| DictionaryHandlerProofs.PreOrderSplit | uSync8.ContentEdition/Handlers/DictionaryHandler.cs:123-130 | In the export order, each tree comes after the trees before it, right before all of its descendants, and its whole subtree comes before its next sibling. |
| DictionaryHandlerProofs.VisitsFollowPreOrder | uSync8.ContentEdition/Handlers/DictionaryHandler.cs:122-126 | The callback is called once per exported item, with that item's ItemKey, in export order. Each count lies between 1 and its total. |
| DictionaryHandlerProofs.SiblingCounts | uSync8.ContentEdition/Handlers/DictionaryHandler.cs:122-126 | The k-th tree of a list is counted k + 1 of the list's length. Its children's calls follow right after it, starting again at 1 of the number of children. |
| DictionaryHandlerProofs.KidFindsParent | uSync8.ContentEdition/Handlers/DictionaryHandler.cs:179-183 | In a well-formed store, the parent the path lookup finds for a child is the item the export walk lists it under. |
| DictionaryHandler.Ancestry | uSync8.ContentEdition/Handlers/DictionaryHandler.cs:177-187 | An item's chain of ancestors ends with the item. Each element is the found parent of the next, and the first has no parent the service can find. |
| DictionaryHandler.GetItemPath | uSync8.ContentEdition/Handlers/DictionaryHandler.cs:171-175 | In flat mode the path is the item's safe name. Otherwise it is the safe names of its ancestry, root first, joined by the separator. |
| DictionaryHandler.PathIsJoinedAncestry | uSync8.ContentEdition/Handlers/DictionaryHandler.cs:177-187 | The folder path of an item is the safe names of its ancestry, root first, joined by the separator. |
| DictionaryHandlerProofs.MissingParentTruncates | uSync8.ContentEdition/Handlers/DictionaryHandler.cs:179-186 | An item with no parent, or whose parent is not found, has only itself as ancestry and its own safe name as path. |
| DataTypeHandler.ProcessPostImport | uSync8.BackOffice/SyncHandlers/Handlers/DataTypeHandler.cs:53-68 | A missing or empty action list returns nothing and makes no calls. Otherwise it makes one round per action in order, then one folder cleaning from -1, whose result is returned. |
| DataTypeHandlerProofs.EachFileImportedOnce | uSync8.BackOffice/SyncHandlers/Handlers/DataTypeHandler.cs:58-60 | The files imported are exactly the actions' files, each once, in list order. |
| DataTypeHandlerProofs.SecondPassOnlyAfterSuccess | uSync8.BackOffice/SyncHandlers/Handlers/DataTypeHandler.cs:61-64 | Every second pass directly follows the successful import of its file and receives the item that import produced. Every successful import is directly followed by its second pass. Failed imports get none. |
| DataTypeHandlerProofs.CleanupLast | uSync8.BackOffice/SyncHandlers/Handlers/DataTypeHandler.cs:67 | Folder cleaning is the last call and the only one, rooted at -1. |
| DataTypeHandlerProofs.ImportedItemFileName | uSync8.BackOffice/SyncHandlers/Handlers/DataTypeHandler.cs:47-48 | After a file is deserialized, the item's file name is the safe form of the file's Name element: an import that renames a data type moves its file. |
| DataTypeHandlerProofs.SerializedFileName | uSync8.BackOffice/SyncHandlers/Handlers/DataTypeHandler.cs:47-48 | An item's file name is the safe form of the Name its serialized file carries. |
| MutexServiceProofs.OnlyCallsMoveTheFlag | uSync.BackOffice/Services/uSyncMutexService.cs:14-25 | Only calls move the flag. A new service is not paused, Pause sets the flag and UnPause clears it. A run of failures leaves the state as it was, and any run that changes the state contains an operation that is not a failure. |
| MutexService.Pause | uSync.BackOffice/Services/uSyncMutexService.cs:20 | After Pause the service is paused, whatever it was before. |
| MutexService.UnPause | uSync.BackOffice/Services/uSyncMutexService.cs:25 | After UnPause the service is not paused, whatever it was before. |
| MutexService.ImportPause | uSync.BackOffice/Services/uSyncMutexService.cs:27-35 | An import pause always ends with the service not paused. |
| MutexServiceProofs.PauseIdempotent | uSync.BackOffice/Services/uSyncMutexService.cs:14-25 | Pause and UnPause are each idempotent. |
| MutexServiceProofs.LastCallWins | uSync.BackOffice/Services/uSyncMutexService.cs:14-25 | A run of Pause and UnPause calls never fails. It leaves the state the last call sets, or the starting state when there are none. |
| MutexServiceProofs.NotCounted | uSync.BackOffice/Services/uSyncMutexService.cs:14-25 | Pause, Pause, UnPause leaves the service not paused. |
| MutexServiceProofs.ScopedPause | uSync.BackOffice/Services/uSyncMutexService.cs:27-35 | Inside an import pause the service stays paused while the body does not unpause. On exit it is unpaused whether the body completed or failed, and a failure is passed on. |
| MutexServiceProofs.NestedScopeClearsOuter | uSync.BackOffice/Services/uSyncMutexService.cs:27-35 | When an import pause nested in another ends, the service is no longer paused, although the outer pause is still open. |

## Left out

- DataTypeHandler.ProcessPostImport: the base handler's Import is a pure function of the file name, so two actions naming the same file import alike. The real Import reads and writes the database and may answer differently the second time; no property here depends on that.
- XML parsing and writing, CDATA, and `ValueOrDefault`: the file is a parsed record whose missing elements are `None`.
- Newtonsoft JSON and the configuration serializers are abstract codec functions. `JsonConvert.DeserializeObject` reading into the runtime type of the current configuration is modelled as the codec's read.
- Umbraco services are abstract lookups: the data type service, the localization service, the editor registries and container lookup and creation. The base handler's `FindOrCreate`, `InitializeBaseNode`, `GetFolderNode`, `Import`, `ImportSecondPass`, `CleanFolders` and `Export` are parameters too. `FindOrCreate` is given as its result, and `GetExistingItem` as an optional item.
- `ToSafeFileName` and the directory separator are parameters.
- File I/O, event registration and removal, logging and the dependency-injection constructors are left out.
- `Save(IEnumerable)` (DataTypeSerializer.cs:265-269) is left out; it applies `SaveItem`'s dirty test to each item.
- `uSyncImportPause` is not part of this model. The import pause is modelled as Pause on entry and UnPause on every exit, as its documentation describes.
- Thread safety of the shared pause flag is left out.
- Case-insensitive comparison is ASCII case folding, not .NET's culture-invariant folding. Whitespace for blank strings is a fixed character set.
- DeserializeCore: `item.Editor = newEditor` is modelled as setting the editor alias only; the configuration the editor setter may remap is kept. `SetParent` is modelled as changing the parent id only; level and path are not modelled.
- SetFolderFromElement: the Folder record passes the container id first and the old parent id second, exactly as the call is written. The signature of `uSyncChange.Update` is not part of this model, so which is "old" and which is "new" is not claimed.
- DataTypeSerializer.SaveItem: `IsDirty()` is modelled as "differs from the stored item". Changes that are set and then undone are not modelled.
- DataTypeSerializerProofs.Idempotent: holds only for files whose editor alias is spelled as registered. `ReimportRepeatsCaseOnlyAlias` shows the general promise fails.
- DataTypeSerializerProofs.RoundTrip: assumes the codec reads back what it writes, up to compact JSON, and that the written Folder element resolves to the current parent. The JSON library and `GetFolderNode` are not part of this model.
- DictionaryHandler.GetChildItems, DictionaryHandler.ExportLevel, DictionaryHandler.ExportAllFrom: `GetDictionaryItemChildren(key)` is modelled as the children in the forest of the first item with that key, not as a query on ParentId. The two agree in a well-formed store (`WellFormed`: unique non-empty keys, ParentId matching the listing), which is what `ChildItemsMatchExport` and `KidFindsParent` assume; the export itself does not require it.
- DataTypeSerializer.DeserializeConfiguration: the codec's read is total. A malformed Config text, on which `JsonConvert.DeserializeObject` or a configuration serializer throws (DataTypeSerializer.cs:128, 138), is not modelled as a failure. Neither is a file without an `Info` element, on which DeserializeCore throws (DataTypeSerializer.cs:39-40): the parsed node always has an `Info` record.
- DictionaryHandler.GetItemPath: the chain of parents must be finite, witnessed by `rank`. The source would recurse forever on a cycle, and cycles are not modelled.
- DictionaryHandler.ReportElement: the first argument of `ReportAction` is kept as passed, `false`. What the helper does with it is not part of this model.
