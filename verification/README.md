# Manga reader data layer in Dafny

This project models the client-side data layer of the manga reader app (`src/lib`). It covers:

- **Keyed collection store** (`Storage`). It holds an in-memory collection and an index record `{lastId, collection}`, mirrors both to a key-value store, and calls registered listeners on every change.
- **Gallery operations.** Upserting a gallery merges its chapters by name. Chapters can be marked read or deleted. There are queries for the last read chapter, the chapter number and the detail text.
- **Download pipeline.** Pages are downloaded in batches of three, with three attempts per batch. Downloading a manga creates the gallery and chapter directories, builds the transfer list, and removes the chapter directories again on failure.
- **Background download queue.** A small state machine over a `running` flag and a FIFO queue that is refilled from a fetch.
- **Helpers:** `slugify`/`camelCaseToSlug`, `groupBy` and `resolvePath`, plus the JavaScript built-ins they rely on (`Number#toString`, `parseInt` on digits, `split`, `join`, `replaceAll`).

## How the model is built

Files and modules: `wrappers.dfy` (`Option`), `js_string.dfy` (`JsString`), `slugify.dfy` (`Slugify`), `resolve_path.dfy` (`JsonPath`), `group_by.dfy` (`GroupBy`), `storage.dfy` (`Storage`), `file_system.dfy` (`FileSystem`), `gallery.dfy` (`Gallery`), `download.dfy` (`Download`) and `download_queue.dfy` (`DownloadQueue`).

**The store is a class with a pure twin.**
- `Storage.Storage<T>` has the fields of the source class: `indexer`, `collection` and `listeners`. It adds two more: `kv`, the persisted key-value store, and `log`, every listener call made so far.
- Each method changes those fields step by step. Its `ensures` ties the new state to a pure transition on a `State` value (`AddStep`, `RemoveStep`, `UpdateStep`, …).
- The lemmas about those transitions state what the source promises.
- `Valid()` says every registered listener was last handed the current collection. Every method keeps it.

**The download queue follows the same pattern.** `DownloadQueue.Queue` has fields `running`, `queue` and a log of the transfers it started. Its transitions are `StartStep`, `ConsumeStep` and `RefillStep`.

**The filesystem is a set of directory paths.** `FileSystem.Disk` models the expo-file-system calls the core makes: `getInfoAsync(...).exists`, `makeDirectoryAsync` and `deleteAsync`. A path is normalised by dropping one trailing `/`.

**Everything the core gets from outside is a parameter.** This covers:
- the success or failure of each key-value write (a boolean);
- the status of every batch attempt (an oracle `nat -> Attempt`);
- `JSON.stringify`/`JSON.parse` (a `Codec` of two functions; parsing may fail);
- `encodeURIComponent` (a function);
- the current time (an opaque string);
- the rows returned by the download-queue query.

**Numbers are integers.** `parseInt` is modelled on decimal digits, and its `NaN` is `None`.

## Model

| member | source | states |
|---|---|---|
| `JsString.NumberToStringInjective` | src/lib/storage.ts:95-97 | distinct ids have distinct `toString()` forms, so the record keys and index entries of different items never coincide |
| `JsString.DigitsValueOfNatToString` | src/lib/gallery.ts:27 | `parseInt` of the decimal form of a natural number gives that number back |
| `JsString.ParseDigits` | src/lib/gallery.ts:27 | `parseInt` of a digit string is `NaN` exactly when the string is empty |
| `JsString.SplitPartsLackSeparator` | src/lib/resolve-path.ts:2 | no part produced by `split(sep)` contains `sep` |
| `JsString.JoinSplit` | src/lib/resolve-path.ts:2 | joining the parts of `split(sep)` with `sep` gives back the original string |
| `JsString.SplitWithoutSeparator` | src/lib/resolve-path.ts:2 | a string without the separator splits into itself alone |
| `JsString.SplitAtFirstSeparator` | src/lib/resolve-path.ts:2 | `p + sep + q`, with no `sep` in `p`, splits into `p` followed by the parts of `q` |
| `JsString.BeforeFirst` | src/lib/gallery.ts:27 | `split(sep)[0]` is the longest prefix free of `sep`; it is followed by `sep` when it is not the whole string |
| `JsString.ReplaceAllWithoutOccurrence` | src/lib/gallery.ts:42-44 | `replaceAll` leaves a string without the pattern unchanged |
| `JsString.ReplaceAllRemovesPattern` | src/lib/gallery.ts:42-44 | when the replacement shares no character with the pattern, the pattern does not occur in the result |
| `JsString.OccurrenceInOutputWasInInput` | src/lib/gallery.ts:42-44 | an occurrence, in the output of `replaceAll`, of a string sharing no character with the replacement already occurred in the input |
| `Slugify.CamelCaseToSlug` | src/lib/slugify.ts:1-2 | no ASCII capital remains, and the result is one character longer per capital of the input; also specified by `Slugify.CamelCaseToSlugAppend` and `Slugify.CamelCaseToSlugNoUpper` |
| `Slugify.Slugify` | src/lib/slugify.ts:4-7 | none — specified by `Slugify.SlugifyEmpty`, `Slugify.SlugifyShape`, `Slugify.SlugifyLength`, `Slugify.SlugifyCons` and `Slugify.SlugifyIdempotent` |
| `Slugify.CamelCaseToSlugAppend` | src/lib/slugify.ts:1-2 | `camelCaseToSlug` acts character by character: it distributes over concatenation |
| `Slugify.CamelCaseToSlugNoUpper` | src/lib/slugify.ts:1-2 | a string with no ASCII capital is unchanged |
| `Slugify.CamelCaseToSlugOfAllowed` | src/lib/slugify.ts:1-2 | on allowed characters, every output character is a digit, a lower-case letter, `-`, `.`, `(` or `)` |
| `Slugify.KeepAllowedOfAllowed` | src/lib/slugify.ts:6 | the character filter keeps a string of allowed characters whole |
| `Slugify.KeepAllowedAppend` | src/lib/slugify.ts:6 | the character filter distributes over concatenation |
| `Slugify.KeepAllowedDropsOne` | src/lib/slugify.ts:6 | a disallowed character between allowed ones is dropped and nothing else changes |
| `Slugify.KeepAllowedOfSlugChars` | src/lib/slugify.ts:6 | slug characters all pass the filter |
| `Slugify.SlugifyEmpty` | src/lib/slugify.ts:4-7 | the empty path gives `"undefined"` |
| `Slugify.SlugifyShape` | src/lib/slugify.ts:4-7 | a slug has no ASCII capitals; its first character is the input's first character lower-cased, whatever it is; every later character is in `[0-9a-z-.()]` |
| `Slugify.SlugifyLength` | src/lib/slugify.ts:4-7 | slug length is 1 + the kept characters + one dash per kept capital |
| `Slugify.SlugifyCons` | src/lib/slugify.ts:4-7 | the slug of `c + rest` is `camelCaseToSlug` of `c` lower-cased followed by the filtered `rest` |
| `Slugify.SlugifyIdempotent` | src/lib/slugify.ts:4-7 | `slugify(slugify(p)) == slugify(p)` for every path |
| `Slugify.SlugifyExample` | src/lib/slugify.ts:4-7 | `"One Piece"` gives `"one-piece"`, which is its own slug |
| `JsonPath.ResolvePath` | src/lib/resolve-path.ts:1-2 | none — specified by `JsonPath.ResolvePathTruthyOrDefault`, `JsonPath.ResolveSingleSegment`, `JsonPath.ResolveFirstSegmentThenRest` and `JsonPath.NullDefaultThenLookupThrows` |
| `JsonPath.Get` | src/lib/resolve-path.ts:2 | `o[p]` throws exactly when `o` is `null` or `undefined` |
| `JsonPath.ArrayIndex` | src/lib/resolve-path.ts:2 | a property key that names an index is the numeral of that index |
| `JsonPath.ArrayIndexOfNatToString` | src/lib/resolve-path.ts:2 | every numeral without leading zeros names its index |
| `JsonPath.Own` | src/lib/resolve-path.ts:2 | none — specified by `JsonPath.StringProperties` and `JsonPath.ResolveSingleSegment` |
| `JsonPath.StringProperties` | src/lib/resolve-path.ts:2 | `o[p]` on a string gives its `length`, the one-character string at an index below the length, and `undefined` past the end |
| `JsonPath.StringLengthExample` | src/lib/resolve-path.ts:1-2 | `resolvePath({t: 'abc'}, 't.length', null)` is `3` |
| `JsonPath.Step` | src/lib/resolve-path.ts:2 | one step yields a truthy value or the default |
| `JsonPath.ResolvePathTruthyOrDefault` | src/lib/resolve-path.ts:2 | a resolved value is truthy or the default: falsy values never come through |
| `JsonPath.ResolveSingleSegment` | src/lib/resolve-path.ts:2 | a one-segment path gives the own property `object[path]` (an object's field, a string's `length` or character) when truthy, else the default |
| `JsonPath.ResolveFirstSegmentThenRest` | src/lib/resolve-path.ts:2 | segments are followed left to right: `p.q` is `q` looked up on the result of `p` |
| `JsonPath.NullDefaultThenLookupThrows` | src/lib/resolve-path.ts:2 | once a segment is falsy and the default is `null`, the next lookup throws |
| `GroupBy.GroupByResolved` | src/lib/group-by.ts:8-14 | none — specified by `GroupBy.GroupByKeys`, `GroupBy.GroupByLastWins`, `GroupBy.GroupBySize` and `GroupBy.GroupByContents` |
| `GroupBy.GroupBy` | src/lib/group-by.ts:3-14 | none — specified by `GroupBy.GroupByThrows`, `GroupBy.GroupByStoresItem` and `GroupBy.FalsyKeySkipped` |
| `GroupBy.GroupByKeys` | src/lib/group-by.ts:8-14 | when no key lookup throws, the record's keys are exactly the string/number keys the items resolve to |
| `GroupBy.GroupByLastWins` | src/lib/group-by.ts:10-11 | an item's value is stored under its key unless a later item has the same key |
| `GroupBy.GroupBySize` | src/lib/group-by.ts:8-14 | the record has no more keys than there are items |
| `GroupBy.GroupByContents` | src/lib/group-by.ts:8-14 | the three facts above together |
| `GroupBy.GroupByThrows` | src/lib/group-by.ts:9 | if the key lookup throws for any item, `groupBy` throws |
| `GroupBy.GroupByStoresItem` | src/lib/group-by.ts:9-11 | with a top-level key and no `valueFn`, an object whose key is a non-empty string or a non-zero number is found under it, the last such object winning |
| `GroupBy.FalsyKeySkipped` | src/lib/group-by.ts:9-10 | an item whose key is `0` or `''` is skipped |
| `Storage.ItemKeyInjective` | src/lib/storage.ts:95 | distinct ids are persisted under distinct keys |
| `Storage.ItemKeyIsNotIndexKey` | src/lib/storage.ts:25 | no item record key is the index record's key |
| `Storage.Broadcast` | src/lib/storage.ts:147-149 | `emit` calls every listener, in registration order, with the current collection |
| `Storage.FindIndexById` | src/lib/storage.ts:109 | `findIndex` finds the first item with the id, or reports none |
| `Storage.RemoveAll` | src/lib/storage.ts:114 | `filter(it => it !== x)` removes every copy of `x` and keeps everything else with its multiplicity |
| `Storage.LoadedAsWritten` | src/lib/storage.ts:52-58 | none — specified by `Storage.LoadedAsWrittenKeepsUndefined` |
| `Storage.Loaded` | src/lib/storage.ts:47-61 | none — specified by `Storage.LoadedContents` |
| `Storage.SetupStep` | src/lib/storage.ts:30-61 | none — specified by `Storage.SetupKeepsSynced` and `Storage.LoadedContents` |
| `Storage.AddStep` | src/lib/storage.ts:91-106 | none — specified by `Storage.AddStepSpec`, `Storage.ApplyLastId` and `Storage.IdsStrictlyIncrease` |
| `Storage.RemoveStep` | src/lib/storage.ts:108-122 | none — specified by `Storage.RemoveStepSpec` |
| `Storage.UpdateStep` | src/lib/storage.ts:124-136 | none — specified by `Storage.UpdateStepSpec` |
| `Storage.SetCollectionStep` | src/lib/storage.ts:86-89 | none — specified by `Storage.ApplyKeepsSynced` and `Storage.ApplyLastId` |
| `Storage.OnStep` | src/lib/storage.ts:138-141 | none — specified by `Storage.OnKeepsSynced` |
| `Storage.OffStep` | src/lib/storage.ts:143-145 | none — specified by `Storage.ApplyKeepsSynced` and `Storage.ApplyLastId` |
| `Storage.LoadedAsWrittenKeepsUndefined` | src/lib/storage.ts:52-58 | as written, an indexed id without a stored record yields an `undefined` entry, where the intended loader yields none |
| `Storage.SomesContents` | src/lib/storage.ts:52-58 | dropping absent entries keeps exactly the present values, in order |
| `Storage.LoadedContents` | src/lib/storage.ts:47-61 | the loaded collection holds exactly the parsable records of the indexed ids; when all are present and parse, it is one per id in index order |
| `Storage.IdLookupKey` | src/lib/storage.ts:82-84 | `getCollectionById` files an item under its id as a string, and skips id 0 |
| `Storage.IdLookupResolves` | src/lib/storage.ts:82-84 | the id lookup never throws |
| `Storage.CollectionByIdKeys` | src/lib/storage.ts:82-84 | the lookup's keys are exactly the string forms of the non-zero ids, and there are no more keys than items |
| `Storage.CollectionByIdStores` | src/lib/storage.ts:82-84 | with distinct ids, each item with a non-zero id is stored under its id |
| `Storage.SaveAllKeys` | src/lib/storage.ts:63-70 | `saveCollection` writes the key of every item and no other new key |
| `Storage.SaveAllStoresItem` | src/lib/storage.ts:63-70 | the last item with an id is the record stored under that id's key |
| `Storage.SaveAllKeepsOthers` | src/lib/storage.ts:63-70 | keys of no item keep their stored values |
| `Storage.LastSnapshotAfterBroadcast` | src/lib/storage.ts:147-149 | after an emit, each registered listener's latest call carries the new collection, and no other listener's changes |
| `Storage.BroadcastSyncs` | src/lib/storage.ts:147-149 | emitting the new collection leaves every listener synchronised with it |
| `Storage.OnKeepsSynced` | src/lib/storage.ts:138-141 | `on` replays the current collection to the new listener, so all stay synchronised |
| `Storage.SetupKeepsSynced` | src/lib/storage.ts:30-34 | after `setup` every listener has been handed the loaded collection |
| `Storage.ApplyKeepsSynced` | src/lib/storage.ts:86-149 | every operation, failed or not, keeps every listener synchronised with the collection |
| `Storage.RunKeepsSynced` | src/lib/storage.ts:86-149 | the same holds over any sequence of operations |
| `Storage.ApplyLastId` | src/lib/storage.ts:92-98 | `lastId` grows by one on a successful add and is unchanged by every other operation |
| `Storage.IdsStrictlyIncrease` | src/lib/storage.ts:91-115 | over any sequence of operations, the ids handed out strictly increase and lie above the starting `lastId`, so ids are never reused |
| `Storage.AddStepSpec` | src/lib/storage.ts:91-106 | `addItem` succeeds iff the record write succeeds. On failure the state is unchanged. On success the item `withId(value, lastId + 1)` is appended, its id string is appended to the index, and the store differs from before in exactly two keys: the item's record and the index record. Listeners are called with the new collection |
| `Storage.RemoveStepSpec` | src/lib/storage.ts:108-122 | `removeItem` succeeds iff an item has the id and the write succeeds. On failure nothing changes. On success the first such item is removed, the index collection becomes the `filter` that drops every copy of the id string, `lastId` is kept, and the store loses the item's record and gets the new index record, with every other key kept. Listeners are called |
| `Storage.UpdateStepSpec` | src/lib/storage.ts:124-136 | `updateItem` succeeds iff an item has the value's id and the write succeeds. On failure nothing changes. On success the first such item is replaced, every other position and the index are kept, the store differs only in the item's record, and listeners are called |
| `Storage.Storage.constructor` | src/lib/storage.ts:17-28 | a new store has an empty index and collection and no listeners |
| `Storage.Storage.Emit` | src/lib/storage.ts:147-149 | appends one call per listener with the current collection |
| `Storage.Storage.SaveIndexer` | src/lib/storage.ts:72-76 | writes the encoded index record under the index key |
| `Storage.Storage.Setup` | src/lib/storage.ts:30-61 | performs the `setup` transition |
| `Storage.Storage.SaveCollection` | src/lib/storage.ts:63-70 | writes every item's record, or nothing when `multiSet` fails |
| `Storage.Storage.GetCollectionById` | src/lib/storage.ts:82-84 | the id lookup has no more entries than the collection has items |
| `Storage.Storage.SetCollection` | src/lib/storage.ts:86-89 | replaces the collection and notifies every listener |
| `Storage.Storage.AddItem` | src/lib/storage.ts:91-106 | performs the `addItem` transition and keeps the listeners synchronised |
| `Storage.Storage.RemoveItem` | src/lib/storage.ts:108-122 | performs the `removeItem` transition and keeps the listeners synchronised |
| `Storage.Storage.UpdateItem` | src/lib/storage.ts:124-136 | performs the `updateItem` transition and keeps the listeners synchronised |
| `Storage.Storage.On` | src/lib/storage.ts:138-141 | registers the listener and calls it once with the current collection |
| `Storage.Storage.Off` | src/lib/storage.ts:143-145 | removes every registration of the listener |
| `FileSystem.Normalize` | src/lib/download.ts:108 | a path with a trailing `/` names the same directory as the path without it |
| `FileSystem.RemoveTree` | src/lib/download.ts:108 | deleting a directory removes it and what lies under it, and keeps every other directory |
| `FileSystem.DeleteEachRemoves` | src/lib/gallery.ts:85-87 | after deleting each path in turn, none of them remains and nothing is added |
| `FileSystem.Disk.Exists` | src/lib/download.ts:18 | `getInfoAsync(path).exists` is membership of the path |
| `FileSystem.Disk.MakeDirectory` | src/lib/download.ts:19 | `makeDirectoryAsync` adds the directory |
| `FileSystem.Disk.Delete` | src/lib/download.ts:108 | `deleteAsync` fails on a missing path and otherwise removes the directory tree |
| `Gallery.Names` | src/lib/gallery.ts:54 | the chapter names, position by position |
| `Gallery.FindByName` | src/lib/gallery.ts:52 | `find` by name gives the first gallery with that name, or none |
| `Gallery.NewChapters` | src/lib/gallery.ts:60 | the incoming chapters kept are exactly those whose names are not known |
| `Gallery.NewChaptersAppend` | src/lib/gallery.ts:60 | the filter distributes over concatenation, so order is kept |
| `Gallery.NewChaptersOfKnown` | src/lib/gallery.ts:60 | incoming chapters that are all known add nothing |
| `Gallery.NewChaptersDistinct` | src/lib/gallery.ts:60 | filtering keeps names distinct |
| `Gallery.MergeChapters` | src/lib/gallery.ts:58-61 | none — specified by `Gallery.MergeChaptersShape`, `Gallery.MergeChaptersIdempotent` and `Gallery.MergeChaptersDistinct` |
| `Gallery.MergeChaptersShape` | src/lib/gallery.ts:58-61 | merged chapters are the stored chapters unchanged, followed by exactly the incoming chapters with new names |
| `Gallery.MergeChaptersIdempotent` | src/lib/gallery.ts:58-61 | merging the same incoming chapters twice is merging once |
| `Gallery.MergeChaptersDistinct` | src/lib/gallery.ts:58-61 | distinct stored and distinct incoming names give distinct merged names |
| `Gallery.MergeKeepsIncomingDuplicates` | src/lib/gallery.ts:60 | duplicates inside the incoming list are not filtered |
| `Gallery.MergeGallery` | src/lib/gallery.ts:55-62 | none — specified by `Gallery.MergeGalleryKeepsStored` |
| `Gallery.UpsertStep` | src/lib/gallery.ts:50-66 | none — specified by `Gallery.UpsertOfNewNameAdds` and `Gallery.UpsertOfKnownNameUpdates` |
| `Gallery.MergeGalleryKeepsStored` | src/lib/gallery.ts:55-62 | the merged gallery takes every field from the stored gallery except the chapters; an absent optional field falls back to the incoming one |
| `Gallery.UpsertGallery` | src/lib/gallery.ts:50-66 | performs the upsert transition on the gallery store and keeps the listeners synchronised |
| `Gallery.UpsertOfNewNameAdds` | src/lib/gallery.ts:50-66 | with no gallery of that name, upsert is `addItem` of the input |
| `Gallery.UpsertOfKnownNameUpdates` | src/lib/gallery.ts:52-63 | with a gallery of that name, upsert succeeds iff the write does, and replaces that gallery with the merge |
| `Gallery.ReadChapterGallery` | src/lib/gallery.ts:16-19 | none — specified by `Gallery.ReadChapterSpec` and `Gallery.ReadChapterIsMarkAsRead` |
| `Gallery.MarkChapters` | src/lib/gallery.ts:73-77 | none — specified by `Gallery.MarkAsReadSpec` and `Gallery.MarkAsReadIdempotent` |
| `Gallery.ReadChapterSpec` | src/lib/gallery.ts:16-19 | the same chapter count; the chapter at the index is read and otherwise unchanged; every other chapter and field is kept; `lastReadAt` is set |
| `Gallery.MarkAsReadSpec` | src/lib/gallery.ts:73-77 | a chapter is read afterwards iff it was read or its name is listed; nothing else about any chapter changes; `lastReadAt` is set |
| `Gallery.MarkAsReadIdempotent` | src/lib/gallery.ts:73-77 | marking the same names twice is marking once |
| `Gallery.ReadChapterIsMarkAsRead` | src/lib/gallery.ts:16-19 | with distinct names, reading a chapter equals marking its name as read |
| `Gallery.Kept` | src/lib/gallery.ts:82 | the chapters kept are exactly those not listed |
| `Gallery.WithNames` | src/lib/gallery.ts:84 | the items selected are exactly those whose name is listed |
| `Gallery.WithNamesAppend` | src/lib/gallery.ts:84 | selection distributes over concatenation, so the original order is kept |
| `Gallery.Removed` | src/lib/gallery.ts:84 | none — the chapters selected by `Gallery.WithNames`; specified by its contract and `Gallery.KeptAndRemovedPartition` |
| `Gallery.DeleteChaptersGallery` | src/lib/gallery.ts:82-83 | none — specified by `Gallery.Kept`, `Gallery.KeptAppend` and `Gallery.BulkChapterDelete` |
| `Gallery.KeptAndRemovedPartition` | src/lib/gallery.ts:82-84 | kept and removed chapters together are the original chapters, as a multiset |
| `Gallery.KeptAppend` | src/lib/gallery.ts:82 | the kept chapters keep their original order |
| `Gallery.DeletePaths` | src/lib/gallery.ts:85-87 | one directory delete per removed chapter |
| `Gallery.BulkChapterDelete` | src/lib/gallery.ts:81-89 | deletes the removed chapters' directories and stores the gallery with only the kept chapters |
| `Gallery.ReadChapter` | src/lib/gallery.ts:16-21 | stores the gallery with the chapter read |
| `Gallery.BulkChapterMarkAsRead` | src/lib/gallery.ts:73-79 | stores the gallery with the listed chapters read |
| `Gallery.UpdateLastReadAt` | src/lib/gallery.ts:68-71 | stores the gallery with the new `lastReadAt` |
| `Gallery.FirstUnread` | src/lib/gallery.ts:24 | the index of the first unread chapter, or none when all are read |
| `Gallery.LastReadChapter` | src/lib/gallery.ts:23-24 | the first unread chapter, else the first chapter, else nothing for an empty list |
| `Gallery.ReadingFirstUnreadAdvances` | src/lib/gallery.ts:16-24 | reading the first unread chapter moves the first unread chapter forward |
| `Gallery.DigitsOnly` | src/lib/gallery.ts:27 | the digits filter leaves only digits |
| `Gallery.DigitsOnlyOfDigits` | src/lib/gallery.ts:27 | the digits filter keeps a digit string whole |
| `Gallery.ChapterNumber` | src/lib/gallery.ts:26-27 | none — specified by `Gallery.ChapterNumberOfNumberedName` and `Gallery.ChapterNumberNeedsLeadingDigits` |
| `Gallery.ChapterNumberOfNumberedName` | src/lib/gallery.ts:26-27 | a name `n-rest` gives chapter number `n` |
| `Gallery.ChapterNumberNeedsLeadingDigits` | src/lib/gallery.ts:26-27 | `Chapter-1` gives `NaN`: only the text before the first `-` counts |
| `Gallery.Sanitize` | src/lib/gallery.ts:42-44 | none — specified by `Gallery.SanitizeRemovesBreaks` |
| `Gallery.DetailLines` | src/lib/gallery.ts:29-48 | none — specified by `Gallery.DetailLinesSpec` |
| `Gallery.SanitizeRemovesBreaks` | src/lib/gallery.ts:42-44 | the description contains neither `<br>` nor `<br/>` afterwards |
| `Gallery.GalleryDetail` | src/lib/gallery.ts:29-48 | builds the detail text line by line: the lines joined by newlines |
| `Gallery.DetailLinesSpec` | src/lib/gallery.ts:29-48 | no manga gives the empty text. Otherwise there is one line per truthy field among favorites, status, score and description, in that order: `Favorites: n`, `Status: label` and `Average Score: n` at their positions; a score of 0 gives no score line; the description comes last, with its breaks replaced |
| `Download.Batches` | src/lib/download.ts:35 | `ceil(n / 3)` |
| `Download.BatchesCover` | src/lib/download.ts:44-45 | each batch holds 1 to 3 downloads, and the batches from `cur` on are the downloads from `3 * cur` on |
| `Download.BatchesCoverAll` | src/lib/download.ts:44-45 | the batches, in order, are exactly the download list |
| `Download.SentOf` | src/lib/download.ts:44-46 | one slice per attempt: attempt `i` on a batch inside the list sends that batch, `downloads.slice(3 * tried[i], 3 * tried[i] + 3)` |
| `Download.DownloadPages` | src/lib/download.ts:30-62 | the loop returns the result, the progress calls and the batches tried by the batch/retry specification, and the slices its attempts sent (`Download.SentOf`); `ok` holds exactly when every batch had an attempt whose transfers all answered 200 |
| `Download.ProgressCalls` | src/lib/download.ts:58-59 | after each completed batch, the callback gets `cur = batches done * 3` and `total = n` |
| `Download.PagesFrom` | src/lib/download.ts:36-61 | none — specified by `Download.PagesFromEnds`, `Download.PagesFromProgress`, `Download.PagesFromOrder`, `Download.PagesFromCovers`, `Download.PagesFromRetries` and `Download.PagesFromOutcomes` |
| `Download.PagesFromEnds` | src/lib/download.ts:38-61 | the loop stops within the batch range, and reports success iff every batch is done |
| `Download.PagesFromProgress` | src/lib/download.ts:56-59 | progress is reported once per completed batch, and only with a callback |
| `Download.PagesFromOrder` | src/lib/download.ts:38-56 | batches are tried in non-decreasing order, never past the last batch done |
| `Download.PagesFromCovers` | src/lib/download.ts:38-56 | every completed batch was tried |
| `Download.PagesFromRetries` | src/lib/download.ts:36-57 | no batch is tried more than three times, and a failure means the stuck batch used all three attempts |
| `Download.PagesFromOutcomes` | src/lib/download.ts:38-61 | every batch passed had an attempt whose transfers all answered 200, and such an attempt always moved the run past its batch |
| `Download.DownloadPagesSpecShape` | src/lib/download.ts:30-62 | at most three attempts per batch; success iff every batch completed, and iff every batch had an attempt whose transfers all answered 200; progress is one call per completed batch; every completed batch was tried; on failure the stuck batch had three attempts, all of them failed, and no later batch was tried |
| `Download.DownloadPagesOutcomes` | src/lib/download.ts:38-61 | the download succeeds iff every batch got an attempt whose transfers all answered 200; on failure the batch it stopped at had three attempts and every one of them failed |
| `Download.DownloadPagesSends` | src/lib/download.ts:38-46 | every attempt of the run is on a batch inside the download list, and sends exactly that batch's slice |
| `Download.DownloadNothing` | src/lib/download.ts:34-61 | an empty list succeeds with no attempt and no callback |
| `Download.DownloadAlwaysFailing` | src/lib/download.ts:38-55 | when every attempt fails, the first batch is tried three times and the download fails |
| `Download.SevenPagesProgress` | src/lib/download.ts:58-59 | seven pages report 3, 6 and 9 of 7: the last `cur` exceeds `total` |
| `Download.SelectNamed` | src/lib/download.ts:75 | none — the files selected by `Gallery.WithNames`: exactly those whose name is listed; also specified by `Download.SelectNamedAppend` and `Download.SelectNamedFileCount` |
| `Download.SelectNamedAppend` | src/lib/download.ts:75 | selection keeps the original order |
| `Download.SelectNamedFileCount` | src/lib/download.ts:72-75 | selection never adds pages |
| `Download.GalleryShape` | src/lib/download.ts:72-89 | none — specified by `Download.GalleryShapeSpec` and `Download.PageCountOfShape` |
| `Download.PageCountOfShape` | src/lib/download.ts:72-88 | the shaped chapters have as many pages as the source files |
| `Download.GalleryShapeSpec` | src/lib/download.ts:72-89 | `dirsCount` is the selected count, `filesCount` sums all source files, the selected pages are at most `filesCount` (equal without a filter), the path is the slug of `fullPath`, and each chapter has its slug, its pages, `read = false` and `currentPage = 0` |
| `Download.TransfersOf` | src/lib/download.ts:94-99 | none — specified by `Download.TransfersAt` and `Download.TransfersCount` |
| `Download.TransfersAt` | src/lib/download.ts:94-99 | one transfer per page, in chapter-then-page order: page `p` of chapter `c` has the encoded URL and the file `galleryDir/chapter.path/page` |
| `Download.TransfersCount` | src/lib/download.ts:94-99 | the transfer list has one entry per selected page |
| `Download.WantedDirs` | src/lib/download.ts:16-27 | the gallery directory, then one directory per chapter |
| `Download.DirsOfSnoc` | src/lib/download.ts:22-26 | wanting one more path wants one more directory |
| `Download.Missing` | src/lib/download.ts:16-28 | none — specified by `Download.MissingSpec`, `Download.MissingSnoc` and `Download.SetupIdempotent` |
| `Download.MissingSpec` | src/lib/download.ts:16-28 | the directories created are exactly the wanted ones that were absent, each once |
| `Download.MissingSnoc` | src/lib/download.ts:22-26 | a further path creates its directory iff neither the disk nor an earlier path has it |
| `Download.SetupIdempotent` | src/lib/download.ts:16-28 | a second setup over the same disk creates nothing |
| `Download.SetupGalleryDirs` | src/lib/download.ts:16-28 | the disk afterwards holds the old directories plus every wanted one, and the directories made are exactly the missing ones |
| `Download.CleanupPaths` | src/lib/download.ts:107-108 | one path per chapter |
| `Download.Cleanup` | src/lib/download.ts:105-113 | none — specified by `Download.CleanupSpec` and `Download.CleanupStopsAtRepeatedPath` |
| `Download.CleanupSpec` | src/lib/download.ts:105-113 | cleanup only removes directories; when no path lies inside an earlier one and all exist, every chapter directory is gone |
| `Download.CleanupStopsAtRepeatedPath` | src/lib/download.ts:106-111 | a delete that fails ends the cleanup: a repeated chapter path leaves the later chapters in place |
| `Download.RemoveChapterDirs` | src/lib/download.ts:106-112 | the loop leaves the disk as the cleanup specification says |
| `Download.DownloadManga` | src/lib/download.ts:64-115 | the progress is that of the transfer list. Success iff every batch completed and the upsert succeeded. The store changes (by the upsert) only when every batch completed. The disk has the gallery directories, minus the chapter directories when it failed |
| `DownloadQueue.ToItem` | src/lib/download_queue.ts:36-43 | copies path, page id and URL; `error` is true iff the row's error is present and non-zero |
| `DownloadQueue.ToItems` | src/lib/download_queue.ts:36-43 | one item per row, in order |
| `DownloadQueue.TransfersAppend` | src/lib/download_queue.ts:23-26 | transfers of consecutive items are consecutive |
| `DownloadQueue.RefillStep` | src/lib/download_queue.ts:44-48 | none — specified by `DownloadQueue.RefillSpec` |
| `DownloadQueue.ConsumeStep` | src/lib/download_queue.ts:20-30 | none — specified by `DownloadQueue.ConsumeSpec` and `DownloadQueue.ConsumeConserves` |
| `DownloadQueue.StartStep` | src/lib/download_queue.ts:12-18 | none — specified by `DownloadQueue.StartSpec` and `DownloadQueue.StartedSends` |
| `DownloadQueue.RefillSpec` | src/lib/download_queue.ts:44-48 | refill appends the fetched items after the queue; it stops iff both are empty |
| `DownloadQueue.ConsumeSpec` | src/lib/download_queue.ts:20-30 | a stopped queue is untouched. A non-empty queue loses one item and logs one transfer. An empty queue refills and stops iff nothing was fetched |
| `DownloadQueue.ConsumeConserves` | src/lib/download_queue.ts:20-30 | items are consumed FIFO: transfers made plus transfers pending never change, except that fetched items join at the end |
| `DownloadQueue.StepsKeepQuiet` | src/lib/download_queue.ts:12-48 | a stopped queue stays empty under every step |
| `DownloadQueue.StartConsumeNeverFetches` | src/lib/download_queue.ts:12-17 | the consume that `start` runs never needs a second fetch |
| `DownloadQueue.StartSpec` | src/lib/download_queue.ts:12-18 | `start` is a no-op when running. Otherwise it fetches, stops again if nothing came, and else sends the first item and queues the rest |
| `DownloadQueue.RunDrains` | src/lib/download_queue.ts:20-31 | a running queue of `n` items is drained by `n` rescheduled steps, its items transferred in order |
| `DownloadQueue.RunAppend` | src/lib/download_queue.ts:20-31 | running steps in two stretches is running them in one |
| `DownloadQueue.StepOutcome` | src/lib/download_queue.ts:20-30 | none — specified by `DownloadQueue.RejectStalls` and `DownloadQueue.RunChainResolved` |
| `DownloadQueue.RunChain` | src/lib/download_queue.ts:20-31 | none — specified by `DownloadQueue.RunChainResolved`, `DownloadQueue.RunChainStopsAtReject` and `DownloadQueue.RejectStalls` |
| `DownloadQueue.RunChainResolved` | src/lib/download_queue.ts:20-31 | when no awaited download or table read rejects, every call reschedules the next: the chain is one consume per table read |
| `DownloadQueue.RunChainStopsAtReject` | src/lib/download_queue.ts:20-31 | the first call whose awaited download or table read rejects never reaches `setTimeout`: the state it leaves is final |
| `DownloadQueue.RejectStalls` | src/lib/download_queue.ts:12-31 | a rejected call on a running queue leaves it running, with only its front item gone (after a rejected download) or nothing changed (after a rejected read), and every later `start` is a no-op |
| `DownloadQueue.AfterStartAsWritten` | src/lib/download_queue.ts:31 | as written, nothing happens after `start`, since the rescheduled call fails; a running queue stays as it is |
| `DownloadQueue.StartStallsAsWritten` | src/lib/download_queue.ts:12-31 | as written, starting on two or more rows sends one item and then stays running with the rest queued, and every later `start` is a no-op |
| `DownloadQueue.AfterStart` | src/lib/download_queue.ts:20-31 | none — `start` followed by the chain of bound calls, which a rejected call ends; specified by `DownloadQueue.StartDrainsQueue`, `DownloadQueue.StartThenRejectStalls` and `DownloadQueue.RunChainResolved` |
| `DownloadQueue.StartDrainsQueue` | src/lib/download_queue.ts:12-48 | with the rescheduling working, starting on `n` rows followed by `n` steps whose last fetch is empty sends every row's transfer in order and stops |
| `DownloadQueue.StartThenRejectStalls` | src/lib/download_queue.ts:12-31 | even with the calls bound, a download that rejects on the second of two or more rows leaves the queue running with the rest queued, and every later `start` is a no-op |
| `DownloadQueue.StartedSends` | src/lib/download_queue.ts:12-18 | after `start` on non-empty rows the queue runs, and sent plus pending transfers are all the rows' transfers |
| `DownloadQueue.Queue.constructor` | src/lib/download_queue.ts:8-10 | a new queue is stopped and empty |
| `DownloadQueue.Queue.Start` | src/lib/download_queue.ts:12-18 | performs the `start` transition |
| `DownloadQueue.Queue.ConsumeQueue` | src/lib/download_queue.ts:20-32 | performs the `consumeQueue` transition |
| `DownloadQueue.Queue.GetNewQueueItems` | src/lib/download_queue.ts:34-49 | performs the `getNewQueueItems` transition |

## Left out

- **Characters.** Case mapping covers ASCII only. `toLocaleLowerCase` on other characters is the identity here.
- Slugify.Slugify: strings are sequences of Unicode scalar values, whereas `at(0)` and `slice(1)` work on UTF-16 code units. For a first character outside the Basic Multilingual Plane the source keeps only its high surrogate and the filter then drops the low one; the model keeps the whole character.
- **Values outside the `Json` type.** JavaScript prototype properties (such as an `id` lookup that hits `toString`) are not modelled. Numbers are integers, so `NaN`, `Infinity` and fractional ids do not arise.
- JsonPath.Own: a string's own `length` and index properties are modelled, but counted in characters rather than UTF-16 code units. Booleans and numbers have no own properties, so every lookup on them is `undefined` here; only prototype properties are missing.
- **Listener exceptions.** A listener that throws would abort `emit`; that is not modelled.
- **Concurrency.**
  - `Promise.all` over one batch is one atomic batch outcome.
  - Two `addItem` calls racing on `lastId` are not modelled.
  - The constructor's unawaited `setup` is modelled as an explicit `Setup` call.
- **`saveIndexer`** does not await its write and swallows errors, so it is modelled as an infallible write.
- **The index record.** A stored index record that parses to `null` or a non-object is treated as not parsing.
- Storage.Storage.SaveCollection: the model writes all items or none, never only some of them.
- Storage.Storage.Setup: loads the collection with the corrected loader `Storage.Loaded` from the Findings row on src/lib/storage.ts:52-58, which skips a missing or unparsable record where the source keeps an `undefined` entry. The as-written loader is `Storage.LoadedAsWritten`.
- Storage.SetupStep: the same corrected loader as `Storage.Storage.Setup`.
- Storage.SetupKeepsSynced: states synchronisation for the corrected loader.
- **Aliasing.**
  - `getCollection` returns the live array. Here the collection is a value, so later in-place changes by the caller are not modelled.
  - `updateLastReadAt` mutates its argument. The model stores the updated copy.
- Gallery.ReadChapterGallery: requires an index inside the chapter list. The source would store a chapter built from `undefined`.
- Gallery.ReadChapter: the same index requirement as `Gallery.ReadChapterGallery`.
- Gallery.ReadChapterSpec: the same index requirement as `Gallery.ReadChapterGallery`.
- **Manga fields the core never reads** are left out: cover and banner images, genres, synonyms, title, site URL and `idMal`.
- **Foreign functions.** `encodeURIComponent` is a parameter that is never interpreted. `JSON.stringify`/`JSON.parse` are a `Codec` of two functions.
- **Timestamps** (`new Date().toString()`) are opaque strings passed in.
- **Filesystem.**
  - The filesystem is a set of directory paths. Page file contents are not modelled.
  - In `downloadManga`, a failing `getInfoAsync` or `makeDirectoryAsync`, and so the `try`/`catch` around setup, is not modelled.
  - `bulkChapterDelete`'s unawaited `deleteAsync` calls are modelled as completed in order. Their failures are ignored, as in the source.
- Download.DownloadManga: the gallery directory itself is never removed on failure, as in the source.
- **The download queue.**
  - A download's status code is ignored, as in the source. A download or table read that rejects ends the chain of rescheduled calls (`DownloadQueue.RunChain`). The queue logs each transfer it starts.
  - `row.error` is `null` or a number.
  - The database query is the `rows` parameter of each step.
- DownloadQueue.StartStep: the table read that `start` awaits (src/lib/download_queue.ts:15) is taken to resolve. If it rejects, `running` stays set with nothing queued and no consume is made, so the queue stalls; only the reads of later calls are modelled as rejecting.
- DownloadQueue.Queue.ConsumeQueue: models a call whose awaited download or table read resolves; the state a rejected call leaves is `DownloadQueue.StepOutcome`.
- DownloadQueue.ToItem: reads a `path` from each row. The queue query `SELECT * FROM download_queue WHERE error=0` (src/lib/constants.ts:94) reads a table whose columns are `id`, `error`, `page_id` and `api_url` (src/lib/constants.ts:59-65), so in the source `it.path` is `undefined` and the transfer is built from the text `undefined`. The model takes the path a row carries as given; it does not model the missing column.


## Findings

| source | as written | input that shows it | evidently intended | confidence | as-written member | corrected member |
|---|---|---|---|---|---|---|
| src/lib/storage.ts:52-58 | The `flatMap` callback returns nothing for a missing or unparsable record, and `flatMap` keeps that `undefined` as an entry of the collection | index `["1"]` with no record stored under `galleries-1` | skip missing and unparsable records, so the collection holds only items | not executed | `Storage.LoadedAsWritten` (shown by `Storage.LoadedAsWrittenKeepsUndefined`) | `Storage.Loaded` (proved by `Storage.LoadedContents`) |
| src/lib/download_queue.ts:31 | `setTimeout(this.consumeQueue, 100)` passes the method unbound, so the rescheduled call has no `this` and throws. The queue stays `running` with items left, and every later `start` is a no-op | `start` with two or more queued rows | keep consuming until the queue is drained and the fetch comes back empty | not executed | `DownloadQueue.AfterStartAsWritten` (shown by `DownloadQueue.StartStallsAsWritten`) | `DownloadQueue.AfterStart` (proved by `DownloadQueue.StartDrainsQueue`) |
