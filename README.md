# gitdb storage layer in Dafny

gitdb is a small document database that keeps each collection as a
directory of JSON files inside a git work tree. Every document is a record
with a string `id`, stored as `<id>.json` in its collection's directory.
When auto-commit is on, every change is staged and committed.

This project models the storage layer:

- the in-memory cache (`MemoryStrategy`), which has two identical copies in
  the repository;
- the three file stores: the live one in `src/CollectionStrategies/`, the
  stand-alone one in `src/FileStrategy/`, and the oldest one in
  `src/FileStrategy.ts`;
- the `Collection`, which routes reads to the cache or the files, sends each
  write to both, and works out which paths to stage;
- the `GitDB` registry of collections, with its git staging and commit calls.

Modules:

- `Records`: documents, filters and modifiers. `Select` is
  `Array.prototype.filter`. `Modify` is the `map` that rebuilds each matched
  document as `{ ...modifier(document), id: document.id }`.
- `Paths`: `path.resolve` as joining with `/`, `<id>.json` file names, and
  `path.relative`.
- `Directory`: a collection directory as the sequence of its files, in the
  order `readDocuments` lists them. Listing order is not promised, so the
  laws about newly created files are stated as multisets and sets. It provides the writes, removals, update
  and delete passes the file stores perform, and their lookup laws.
- `MemoryStrategy`, `FileStrategy`, `StandaloneFileStrategy` and
  `LegacyFileStrategy`: one class per store. Each has a field for the state it
  changes, and methods that state the whole new state.
- `Staging`: the git calls as a log of effects, plus the pure rules that pick
  them (relative paths, the default commit message, the auto-commit step).
- `Database`: the `Collection` and `GitDB` classes. They refer to each other
  and share the effect log.

The update and delete loops of the file stores are proved against the pure
passes in `Directory`, one file per iteration. The cache and the files are
related by the `Mirrored` predicate: the cache holds the same documents as
the directory, each as often, in any order.

- an insert of a fresh id keeps the cache mirrored;
- a delete keeps it mirrored;
- an update keeps it mirrored exactly when every document matched, because
  the cache's update keeps only the matched documents.

## Model

| member | source | states |
|---|---|---|
| MemoryStrategy.MemoryStore.constructor | src/CollectionStrategies/MemoryStrategy.ts:11-13 | the cache starts as the given list, or empty when none is given |
| MemoryStrategy.MemoryStore.GetAll | src/MemoryStrategy.ts:11-13 | answers with a list equal to the cache; being a value, it cannot alias it |
| MemoryStrategy.MemoryStore.GetData | src/CollectionStrategies/MemoryStrategy.ts:19-21 | answers with the cached documents that pass the callback, in order |
| MemoryStrategy.MemoryStore.Insert | src/MemoryStrategy.ts:19-22 | the cache gains the document at its end, and the document is handed back |
| MemoryStrategy.MemoryStore.Update | src/CollectionStrategies/MemoryStrategy.ts:28-38 | the cache becomes the matched documents only, each rebuilt from the modifier's output with its own id |
| MemoryStrategy.MemoryStore.Delete | src/MemoryStrategy.ts:36-44 | the cache becomes the documents the filter rejects, in their old order, and the answer is always true |
| MemoryStrategy.UpdateShape | src/MemoryStrategy.ts:24-34 | after an update there is one document per match, each with the matched document's id and the modifier's fields |
| MemoryStrategy.UpdateKeepsOnlyMatches | src/CollectionStrategies/MemoryStrategy.ts:32-37 | with unique ids, after an update no document carries the id of a document the filter rejected |
| MemoryStrategy.UpdateWithoutMatches | src/MemoryStrategy.ts:28-33 | an update with no match, including on an empty cache, leaves the cache empty |
| MemoryStrategy.UpdateIgnoresModifierId | src/CollectionStrategies/MemoryStrategy.ts:33-35 | an id the modifier returns never reaches the cache |
| Records.SelectMember | src/CollectionStrategies/MemoryStrategy.ts:19-21 | a document is in the filtered list if and only if it is in the input and passes |
| Records.SelectAppend | src/CollectionStrategies/MemoryStrategy.ts:19-21 | filtering distributes over concatenation, so the input order is kept |
| Records.SelectPartition | src/CollectionStrategies/MemoryStrategy.ts:40-46 | the kept and the rejected documents together number the whole input |
| Records.SelectEmptyIff | src/CollectionStrategies/FileStrategy.ts:63 | the filtered list is empty if and only if no document passes |
| Records.SelectAllIff | src/GitDB/GitDB.ts:89 | the filtered list is the whole input if and only if every document passes |
| Records.ModifyAt | src/CollectionStrategies/FileStrategy.ts:43-46 | the i-th rebuilt document has the i-th input's id and the modifier's fields for it |
| Records.ModifyKeepsIds | src/CollectionStrategies/FileStrategy.ts:44-45 | rebuilding keeps the list of ids exactly |
| Records.ModifyIgnoresReturnedId | src/CollectionStrategies/FileStrategy.ts:45 | two modifiers that return the same fields rebuild the same documents, whatever ids they return |
| Records.SelectPermutation | src/Collection/Collection.ts:87-99 | filtering two lists that hold the same documents, in any order, gives lists that hold the same documents |
| Records.ModifyPermutation | src/CollectionStrategies/MemoryStrategy.ts:28-38 | rebuilding two lists that hold the same documents, in any order, gives lists that hold the same documents |
| Paths.FileNameInjective | src/CollectionStrategies/FileStrategy.ts:29 | two ids with the same file name are the same id |
| Paths.ResolveInjective | src/CollectionStrategies/FileStrategy.ts:47 | within one directory, the resolved path determines the file name |
| Paths.RelativeOfResolve | src/GitDB/GitDB.ts:98 | a path resolved under the git root, made relative to that root, gives back the name |
| Paths.StagedDocumentPath | src/GitDB/GitDB.ts:96-106 | a document of a collection below the git root is staged under its path from the root: the database directory's part below the root, the collection name and `<id>.json` |
| Directory.PathsOf | src/CollectionStrategies/FileStrategy.ts:64-66 | one path per document, in order, each `collectionPath/<id>.json` |
| Directory.PathsOfDetermineIds | src/CollectionStrategies/FileStrategy.ts:47-48 | two staged paths of one collection are equal if and only if their documents' ids are equal |
| Directory.LookupFound | src/CollectionStrategies/FileStrategy.ts:17-19 | a name reads a document if and only if some file carries it, and that file's document is what it reads |
| Directory.LookupById | src/CollectionStrategies/FileStrategy.ts:26-34 | in the one-file-per-id layout, `<id>.json` exists if and only if some stored document has that id, and it holds a document with that id |
| Directory.LookupAt | src/CollectionStrategies/FileStrategy.ts:17-19 | with unique names, each file's name reads that file's document |
| Directory.WriteLookup | src/CollectionStrategies/FileStrategy.ts:26-34 | after `outputJson`, the written name reads the new content and every other name reads what it read before |
| Directory.WriteTwice | src/FileStrategy.ts:55-58 | a second write to one file replaces the first |
| Directory.WriteAt | src/CollectionStrategies/FileStrategy.ts:31 | writing an existing file replaces it where it stands |
| Directory.WriteNew | src/CollectionStrategies/FileStrategy.ts:31 | writing a file under a name not yet used adds that one file and keeps every other file |
| Directory.WriteNames | src/CollectionStrategies/FileStrategy.ts:31 | after a write the names are the old names plus the written one; the directory grows by one file exactly when that name was new |
| Directory.WriteWellFormed | src/CollectionStrategies/FileStrategy.ts:26-34 | writing a document under its own file name keeps the one-file-per-id layout |
| Directory.RemoveFileLookup | src/CollectionStrategies/FileStrategy.ts:67 | after `remove`, the removed name reads nothing and every other name reads what it read before |
| Directory.RemoveFileIdempotent | src/CollectionStrategies/FileStrategy.ts:67 | removing a file twice is removing it once |
| Directory.UpdateFilesLookup | src/CollectionStrategies/FileStrategy.ts:43-50 | after an update pass, a matched document reads back rebuilt with its own id, every other file reads back unchanged, and absent names stay absent |
| Directory.RemoveMatchingLookup | src/CollectionStrategies/FileStrategy.ts:63-69 | after a delete pass, a matched document's name reads nothing and every other name reads what it read before |
| Directory.UpdateFilesNames | src/CollectionStrategies/FileStrategy.ts:47-49 | an update pass keeps every file's name and position |
| Directory.ContentsOfRemoveMatching | src/CollectionStrategies/FileStrategy.ts:61-69 | the documents left after a delete pass are the read documents the filter rejects, in order |
| Directory.NoMatchUnchanged | src/CollectionStrategies/FileStrategy.ts:42-63 | with no match, neither an update pass nor a delete pass changes the directory |
| Directory.WriteNewContents | src/Collection/Collection.ts:56-64 | writing a file under a new name adds its document to what the directory reads and keeps every other document |
| Directory.RemoveMatchingWellFormed | src/CollectionStrategies/FileStrategy.ts:57-72 | a delete pass keeps the one-file-per-id layout |
| Directory.RemoveMatchingOrder | src/CollectionStrategies/FileStrategy.ts:63 | two positions of a delete pass's result come, in the same order, from two distinct positions of the input |
| Directory.UpdateFilesWellFormed | src/CollectionStrategies/FileStrategy.ts:36-55 | an update pass keeps the one-file-per-id layout |
| FileStrategy.FileStore.constructor | src/CollectionStrategies/FileStrategy.ts:13-15 | a store over `collectionPath` and its files |
| FileStrategy.FileStore.GetAll | src/CollectionStrategies/FileStrategy.ts:17-19 | answers with exactly the documents in the directory, in listing order |
| FileStrategy.FileStore.GetData | src/CollectionStrategies/FileStrategy.ts:21-24 | answers with the read documents that pass the callback, in order |
| FileStrategy.FileStore.Insert | src/CollectionStrategies/FileStrategy.ts:26-34 | writes the document to `<id>.json`, replacing any file of that name, answers with `collectionPath/<id>.json`, and keeps the layout |
| FileStrategy.FileStore.Update | src/CollectionStrategies/FileStrategy.ts:36-55 | rewrites each matched document in its own file, with its id kept, and leaves every other file alone; answers with one path per match in listing order; calls the modifier on exactly the matches; keeps the layout |
| FileStrategy.FileStore.Delete | src/CollectionStrategies/FileStrategy.ts:57-72 | removes exactly the matched documents' files, answers with their paths in listing order, and keeps the layout |
| FileStrategy.NoMatchesTouchNothing | src/CollectionStrategies/FileStrategy.ts:40-71 | with no match, update and delete leave the directory unchanged and answer with no paths |
| StandaloneFileStrategy.FileStore.constructor | src/FileStrategy/FileStrategy.ts:9-11 | a store over `collectionPath` and its files |
| StandaloneFileStrategy.FileStore.GetAll | src/FileStrategy/FileStrategy.ts:13-15 | answers with exactly the documents in the directory |
| StandaloneFileStrategy.FileStore.GetData | src/FileStrategy/FileStrategy.ts:17-20 | answers with the read documents that pass the callback, in order |
| StandaloneFileStrategy.FileStore.Insert | src/FileStrategy/FileStrategy.ts:22-30 | writes the document to `<id>.json` and answers with that path |
| StandaloneFileStrategy.FileStore.Update | src/FileStrategy/FileStrategy.ts:32-51 | rewrites each matched document in its own file like the live store, calls the modifier on exactly the matches, and always answers with an empty path list |
| StandaloneFileStrategy.FileStore.Delete | src/FileStrategy/FileStrategy.ts:53-68 | removes exactly the matched documents' files and answers with their paths in listing order |
| LegacyFileStrategy.FileStore.constructor | src/FileStrategy.ts:19-22 | a store over `dbDir/name` and its files, with no layout assumed |
| LegacyFileStrategy.FileStore.PathOf | src/FileStrategy.ts:34 | the path is `${dbDir}/${name}/${id}.json` |
| LegacyFileStrategy.FileStore.GetAll | src/FileStrategy.ts:24-26 | answers with exactly the documents in the directory |
| LegacyFileStrategy.FileStore.GetData | src/FileStrategy.ts:28-31 | answers with the read documents that pass the callback, in order |
| LegacyFileStrategy.FileStore.Insert | src/FileStrategy.ts:33-38 | writes the document to `<id>.json` and answers with `dbDir/name/<id>.json` |
| LegacyFileStrategy.FileStore.Update | src/FileStrategy.ts:40-64 | `updated` if and only if something matched; one `undefined.json` path per match; the modifier is called on exactly the matches; the only file written is `undefined.json`, which holds the last match, rebuilt |
| LegacyFileStrategy.FileStore.Delete | src/FileStrategy.ts:66-89 | `deleted` if and only if something matched; the paths are the matches' files in listing order; exactly the files named after the matches are removed |
| LegacyFileStrategy.WrittenToUndefinedSnoc | src/FileStrategy.ts:55-58 | each write to `undefined.json` replaces the previous one, so the last match wins |
| LegacyFileStrategy.RemoveNamedMore | src/FileStrategy.ts:75-78 | removing one more file name after a set of names have been removed is removing the enlarged set |
| LegacyFileStrategy.UpdatedDirTouchesOnlyUndefined | src/FileStrategy.ts:55-58 | the update leaves every file other than `undefined.json` as it was, matched documents' own files included |
| LegacyFileStrategy.UpdatedDirMissesMatchedFile | src/FileStrategy.ts:55 | one matched document `1`: after the update as written, `1.json` still holds the old document, where the live store's update rewrites it |
| LegacyFileStrategy.RemoveNamedIsRemoveMatching | src/FileStrategy.ts:73-86 | removing by names is removing the matches when a file's name is in the set exactly when its document matches |
| LegacyFileStrategy.DeleteAgreesOnWellFormed | src/FileStrategy.ts:66-89 | on a directory in the one-file-per-id layout, the legacy delete leaves exactly what the live store's delete leaves |
| Staging.AddEffects | src/GitDB/GitDB.ts:96-106 | one `git add` per path, in order, each relative to the git root |
| Staging.RemoveEffects | src/GitDB/GitDB.ts:108-118 | one `git remove` per path, in order, each relative to the git root |
| Staging.CommitMessage | src/GitDB/GitDB.ts:120-126 | a non-empty message is used as given; an absent or empty one becomes `Commit files: `; the message is never empty |
| Staging.AutoCommitShape | src/Collection/Collection.ts:101-115 | with auto-commit off, nothing is staged or committed; with it on, one staging call per path, then exactly one commit with the default message, last |
| Staging.StagingIsInverted | src/Collection/Collection.ts:101-110 | the `add` status (enum value 0) unstages with `git remove`, and the `remove` status (value 1) stages with `git add` |
| Staging.StagedPathRoundTrip | src/GitDB/GitDB.ts:96-106 | a staged path, resolved against the git root, is the path that was given |
| Database.Collection.constructor | src/Collection/Collection.ts:28-38 | holds the database, the name and the two stores |
| Database.Collection.GetAll | src/Collection/Collection.ts:40-45 | reads the cache when there is one, otherwise the files |
| Database.Collection.GetData | src/Collection/Collection.ts:47-53 | the same routing, with the same filter |
| Database.Collection.CheckForAutoCommit | src/Collection/Collection.ts:101-115 | answers whether auto-commit is on, and logs exactly the effects `AutoCommitEffects` picks |
| Database.Collection.Insert | src/Collection/Collection.ts:55-69 | the new document is `{ id: freshId, ...documentData }`; it is written to the files, then appended to the cache; its path `dbDir/name/<id>.json` is staged with the `add` status; a cache holding the directory's documents still does when the id is new |
| Database.Collection.Update | src/Collection/Collection.ts:71-85 | the answer is the rebuilt matches; the files and the cache each get their own update; the staged paths are the rewritten files' paths, with the `add` status; a mirrored cache stays mirrored if and only if every document matched |
| Database.Collection.Delete | src/Collection/Collection.ts:87-99 | the answer is the matches; both stores drop them; their paths are staged with the `remove` status; a mirrored cache stays mirrored |
| Database.UpdateAgreesIff | src/Collection/Collection.ts:75-79 | the cache's update result equals the files' update result if and only if every document matched |
| Database.MirroredUpdateIff | src/Collection/Collection.ts:71-85 | from a cache that holds the directory's documents in any order, the two stores hold the same documents after an update if and only if every document matched |
| Database.PathsOfModify | src/Collection/Collection.ts:80-82 | the paths derived from the updated documents are the paths of the files the update rewrote |
| Database.RemoveEverything | src/GitDB/GitDB.ts:89 | deleting with `() => true` empties the directory |
| Database.GitDB.constructor | src/GitDB/GitDB.ts:28-33 | the database directory must lie below the git root, which `findGitRoot` finds by walking up from it; no collection is registered, nothing is logged, and the registry is valid |
| Database.GitDB.Get | src/GitDB/GitDB.ts:49-51 | finds a collection if and only if the name is registered, and then it is that collection |
| Database.GitDB.List | src/GitDB/GitDB.ts:80-82 | answers with every registered name exactly once and nothing else |
| Database.GitDB.InitCollection | src/GitDB/GitDB.ts:62-79 | registers a new collection over `dbDir/name` and the given files, overwriting that name only; its file store and cache are new objects, shared with no other collection; it has a cache if and only if caching is on, seeded with the files' documents; answers with the name |
| Database.GitDB.LoadCollection | src/GitDB/GitDB.ts:58-60 | every guarantee of `initCollection`, unchanged |
| Database.GitDB.Init | src/GitDB/GitDB.ts:39-47 | every listed directory gets a registered collection over its files, with a cache exactly when caching is on that holds those files' documents; no other name is added, and a registered name that is not listed keeps its collection |
| Database.GitDB.Delete | src/GitDB/GitDB.ts:84-94 | an unregistered name fails with `Collection doesn't exist` and changes nothing; a registered one empties its files and cache, stages the removals as any delete does, removes the directory, unregisters only that name, and answers with the name; every other collection's files and cache are left as they were |
| Database.GitDB.Add | src/GitDB/GitDB.ts:96-106 | logs one `git add` per path, relative to the git root |
| Database.GitDB.Remove | src/GitDB/GitDB.ts:108-118 | logs one `git remove` per path, relative to the git root |
| Database.GitDB.Commit | src/GitDB/GitDB.ts:120-134 | commits with `CommitMessage` of the given message and answers with the message, not the commit id |

## Left out

- File-system and git I/O are not modelled. This covers `readDocuments`, `outputJson`, `remove`, `readdir`, `fse.remove`, isomorphic-git and `findGitRoot`. A directory is the sequence of its parsed files. Git calls and directory removals are entries in an effect log. `readdir`'s listing and each directory's files are parameters of `GitDB.Init`. The git root is a constructor parameter.
- `createCollection` is not modelled: it is a `mkdir` followed by `initCollection`, which is modelled. `reset` does nothing and is not modelled.
- The generated uuid is the `freshId` parameter of `Collection.Insert`.
- Promise ordering and concurrency are not modelled; every call runs to completion in program order. This covers `Promise.all`, the un-awaited `loadCollection`, the un-awaited `collection.delete` in `GitDB.delete`, the fire-and-forget `outputJson` in `insert`, and the un-awaited cache calls. The file stores' passes handle matches in listing order.
- `path.resolve` is joining with `/`: no normalisation and no absolute segments. `path.relative` strips a leading `root/`.
- Database.Collection.Insert: `documentData` has the type `Fields`, which cannot hold an `id`. So the case where a caller-supplied `id` overrides the fresh one is not modelled.
- Directory.Write: a file created by a write is placed last in the listing. `readdir` promises no order, so this is a choice of the model; every property that relates the cache to the files compares them as multisets.
- Database.Collection.Insert: the staged path is built from `document.id`, where `document` is what the file store's `insert` answers (src/Collection/Collection.ts:57-62). The strategy interface in src/CollectionStrategies/CollectionStrategy.ts:4-13 answers with the document, and the model follows it, staging `dbDir/name/<freshId>.json`. The concrete live store answers with its path (src/CollectionStrategies/FileStrategy.ts:26-34), on which `.id` reads `undefined`, so the source as combined stages `dbDir/name/undefined.json`.
- MemoryStrategy.MemoryStore.GetAll: documents are values in the model, so it does not capture that the cache hands out its own document objects. `[...this.data]` copies the list, not the documents; `insert` stores the caller's object and `Collection.insert` returns that same object. A caller who mutates a document returned by `GetAll`, `GetData`, `MemoryStore.Insert` or `Database.Collection.Insert` changes the cached copy but not its file, which the note in src/Collection/Collection.ts:19-21 anticipates; the expectation in tests/MemoryStrategy.test.ts:13-22 that the cache is unaffected holds in the model only because of this.
- Database.Collection.Update: the collection is written against the strategy interface in src/CollectionStrategies/CollectionStrategy.ts:4-13, whose `update` and `delete` answer with documents. The concrete live store answers with paths. It is modelled as also handing out the documents it computes and then drops. The source's combination, where `document.id` on a path string reads `undefined`, is not modelled.
- Database.Collection.Delete: the same interface choice as for `Update`.
- FileStrategy.FileStore.constructor: requires the directory to be in the one-file-per-id layout. Files named otherwise are not modelled for the live and stand-alone stores. The legacy store assumes no layout.
- StandaloneFileStrategy.FileStore.constructor: the same layout requirement as the live store.
- Database.GitDB.InitCollection: requires the collection's files to be in the one-file-per-id layout, because it builds a live store over them. Database.GitDB.LoadCollection and Database.GitDB.Init inherit the same requirement through it.
- Database.GitDB.List: the order in which `Object.keys` lists the names is not stated, only which names it lists.
- An absent `autoCommit` in the configuration is read as `false`.
- Filters and modifiers are pure functions. A callback that mutates its argument or throws is not modelled. Field values are JSON values; numbers are mathematical reals, not IEEE doubles.
- The example in src/FileStrategy/FileStrategy.test.ts, where ids compare numerically, is an instance of `GetData`'s general contract and has no lemma of its own.
- src/collection.ts, src/record.ts and src/gitdb.ts are not part of this model; they are an abandoned prototype and stubs.
- LegacyFileStrategy.FileStore.GetAll: the legacy store calls `this.db.readDocuments` (src/FileStrategy.ts:25, :29, :47, :71) and reads `this.db.config.dbDir`, but the `GitDB` it imports from src/gitdb.ts has neither: as written every read throws a `TypeError` and every path starts with `undefined`. The model gives the legacy store its directory's files and `dbDir` as constructor arguments and reads the directory; the same holds for its `GetData`, `Update` and `Delete`.
- Database.GitDB.Get: `collections` is a plain object, so names that are members of `Object.prototype` (`toString`, `constructor`, `__proto__`) are found by `get` and `delete` before any collection is registered under them, and assigning `__proto__` in `initCollection` does not register a key. The model's registry is a map with no such names; the same holds for `Delete`, `InitCollection` and `List`.

## Findings

| source | as written | input that shows it | evidently intended | confidence | as-written member | corrected member |
|---|---|---|---|---|---|---|
| src/FileStrategy.ts:55 | the update builds each path from `documentId.id`, but `documentId` is already the id string; every rewritten document goes to `undefined.json`, the last one wins, and the matched documents' own files keep their old content | one document `1` in `1.json`, matched by the filter | write each rebuilt document to `${documentId}.json`, as the two later stores do | high, not executed | LegacyFileStrategy.UpdatedDirMissesMatchedFile | FileStrategy.FileStore.Update |
