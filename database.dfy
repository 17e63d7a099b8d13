/** The database: a registry of collections (`GitDB`) and the collection
    that fans every mutation out to its file store and, when caching is on,
    to its in-memory cache (`Collection`). The two refer to each other, so
    they share this module. Git and file-system calls are appended to the
    database's effect log. */
module Database {
  import opened Records
  import opened Paths
  import opened Directory
  import opened Staging
  import opened MemoryStrategy
  import opened FileStrategy

  /** A call that either answers or throws `{ msg }`. */
  datatype Result<T> = Success(value: T) | Failure(msg: string)

  /** The database configuration; an absent `autoCommit` is read as false. */
  datatype Config = Config(autoCommit: bool, cache: bool, dbDir: string)

  /** The message `delete` throws for a name that is not registered. */
  const CollectionMissing := "Collection doesn't exist"

  /** The filter `() => true`. */
  function MatchAll(): Filter
  {
    (r: Record) => true
  }

  class Collection {
    const db: GitDB
    const name: string
    const fileStrategy: FileStore
    const memoryStrategy: MemoryStore?

    /** The file store serves `dbDir/name` and keeps its layout. */
    ghost predicate Valid()
      reads fileStrategy
    {
      && fileStrategy.Valid()
      && fileStrategy.collectionPath == Resolve(db.config.dbDir, name)
    }

    /** The cache, when there is one, holds what the directory holds; the
        order of a directory listing is not fixed, so only the documents and
        how often each occurs are compared. */
    ghost predicate Mirrored()
      reads fileStrategy, memoryStrategy
    {
      memoryStrategy != null ==> multiset(memoryStrategy.data) == multiset(Contents(fileStrategy.dir))
    }

    constructor(gitDb: GitDB, name: string, fileStrategy: FileStore, memoryStrategy: MemoryStore?)
      ensures db == gitDb && this.name == name
      ensures this.fileStrategy == fileStrategy && this.memoryStrategy == memoryStrategy
    {
      db := gitDb;
      this.name := name;
      this.fileStrategy := fileStrategy;
      this.memoryStrategy := memoryStrategy;
    }

    /** `path.resolve(dbDir, name, `${id}.json`)`. */
    function DocumentPathOf(id: string): string
    {
      DocumentPath(Resolve(db.config.dbDir, name), id)
    }

    /** Reads from the cache when there is one, otherwise from the files. */
    method GetAll() returns (documents: seq<Record>)
      ensures memoryStrategy != null ==> documents == memoryStrategy.data
      ensures memoryStrategy == null ==> documents == Contents(fileStrategy.dir)
    {
      if memoryStrategy != null {
        documents := memoryStrategy.GetAll();
      } else {
        documents := fileStrategy.GetAll();
      }
    }

    /** The same routing, with the filter passed on unchanged. */
    method GetData(callback: Filter) returns (documents: seq<Record>)
      ensures memoryStrategy != null ==> documents == Select(memoryStrategy.data, callback)
      ensures memoryStrategy == null ==> documents == Select(Contents(fileStrategy.dir), callback)
    {
      if memoryStrategy != null {
        documents := memoryStrategy.GetData(callback);
      } else {
        documents := fileStrategy.GetData(callback);
      }
    }

    /** `checkForAutoCommit`: the effects `AutoCommitEffects` describes, and
        whether it committed. */
    method CheckForAutoCommit(filePaths: seq<string>, addFile: StagingStatus) returns (committed: bool)
      modifies db`log
      ensures committed == db.config.autoCommit
      ensures db.log == old(db.log) + AutoCommitEffects(db.config.autoCommit, db.gitRoot, filePaths, addFile)
    {
      if db.config.autoCommit {
        if Ordinal(addFile) != 0 {
          db.Add(filePaths);
        } else {
          db.Remove(filePaths);
        }
        var _ := db.Commit(None);
        return true;
      }
      return false;
    }

    /** Stores `{ id: freshId, ...documentData }` in the files and then in the
        cache, and stages its path with the `add` status. `freshId` stands for
        the generated uuid. */
    method Insert(documentData: Fields, freshId: string) returns (newDocument: Record)
      requires Valid()
      modifies fileStrategy, memoryStrategy, db`log
      ensures newDocument == Record(freshId, documentData)
      ensures fileStrategy.dir == Write(old(fileStrategy.dir), FileName(freshId), newDocument)
      ensures memoryStrategy != null ==> memoryStrategy.data == old(memoryStrategy.data) + [newDocument]
      ensures db.log == old(db.log) + AutoCommitEffects(db.config.autoCommit, db.gitRoot, [DocumentPathOf(freshId)], Add)
      ensures Valid()
      ensures old(Mirrored()) && FileName(freshId) !in Names(old(fileStrategy.dir)) ==> Mirrored()
    {
      newDocument := Record(freshId, documentData);
      var _ := fileStrategy.Insert(newDocument);
      var filePath := DocumentPathOf(newDocument.id);
      if memoryStrategy != null {
        var _ := memoryStrategy.Insert(newDocument);
      }
      var _ := CheckForAutoCommit([filePath], Add);
      if FileName(freshId) !in Names(old(fileStrategy.dir)) {
        WriteNewContents(old(fileStrategy.dir), FileName(freshId), newDocument);
        if memoryStrategy != null && old(Mirrored()) {
          assert multiset(memoryStrategy.data) == multiset(old(memoryStrategy.data)) + multiset{newDocument};
        }
      }
    }

    /** Updates the files, then the cache, and stages the updated documents'
        paths with the `add` status. Because the cache keeps only the matches,
        a mirrored cache stays mirrored exactly when every document matched. */
    method Update(filter: Filter, modifier: Modifier) returns (documents: seq<Record>)
      requires Valid()
      modifies fileStrategy, memoryStrategy, db`log
      ensures documents == Modify(Select(Contents(old(fileStrategy.dir)), filter), modifier)
      ensures fileStrategy.dir == UpdateFiles(old(fileStrategy.dir), filter, modifier)
      ensures memoryStrategy != null ==>
                memoryStrategy.data == Modify(Select(old(memoryStrategy.data), filter), modifier)
      ensures db.log == old(db.log) + AutoCommitEffects(db.config.autoCommit, db.gitRoot,
                                        PathsOf(fileStrategy.collectionPath, Select(Contents(old(fileStrategy.dir)), filter)), Add)
      ensures Valid()
      ensures old(Mirrored()) && memoryStrategy != null ==>
                (Mirrored() <==> forall x :: x in Contents(old(fileStrategy.dir)) ==> filter(x))
    {
      ghost var before := fileStrategy.dir;
      var touched, updated, _ := fileStrategy.Update(filter, modifier);
      documents := updated;
      if memoryStrategy != null {
        memoryStrategy.Update(filter, modifier);
      }
      var filePaths := PathsOf(Resolve(db.config.dbDir, name), documents);
      PathsOfModify(Resolve(db.config.dbDir, name), Select(Contents(before), filter), modifier);
      var _ := CheckForAutoCommit(filePaths, Add);
      if old(Mirrored()) && memoryStrategy != null {
        MirroredUpdateIff(old(memoryStrategy.data), before, filter, modifier);
      }
    }

    /** Deletes from the files, then from the cache, and stages the deleted
        documents' paths with the `remove` status. A mirrored cache stays
        mirrored. */
    method Delete(filter: Filter) returns (documents: seq<Record>)
      requires Valid()
      modifies fileStrategy, memoryStrategy, db`log
      ensures documents == Select(Contents(old(fileStrategy.dir)), filter)
      ensures fileStrategy.dir == RemoveMatching(old(fileStrategy.dir), filter)
      ensures memoryStrategy != null ==> memoryStrategy.data == Select(old(memoryStrategy.data), Not(filter))
      ensures db.log == old(db.log) + AutoCommitEffects(db.config.autoCommit, db.gitRoot,
                                        PathsOf(fileStrategy.collectionPath, documents), StagingStatus.Remove)
      ensures Valid()
      ensures old(Mirrored()) ==> Mirrored()
    {
      ghost var before := fileStrategy.dir;
      var _, removed := fileStrategy.Delete(filter);
      documents := removed;
      if memoryStrategy != null {
        var _ := memoryStrategy.Delete(filter);
      }
      var filePaths := PathsOf(Resolve(db.config.dbDir, name), documents);
      var _ := CheckForAutoCommit(filePaths, StagingStatus.Remove);
      ContentsOfRemoveMatching(before, filter);
      if old(Mirrored()) && memoryStrategy != null {
        SelectPermutation(old(memoryStrategy.data), Contents(before), Not(filter));
      }
    }
  }

  class GitDB {
    const config: Config
    const gitRoot: string
    var collections: map<string, Collection>
    var log: seq<Effect>

    /** `gitRoot` is the directory above the `.git` found by walking up from
        `dbDir`, so `dbDir` lies below it. */
    constructor(config: Config, gitRoot: string)
      requires Under(gitRoot, config.dbDir)
      ensures this.config == config && this.gitRoot == gitRoot
      ensures collections == map[] && log == []
      ensures Valid()
    {
      this.config := config;
      this.gitRoot := gitRoot;
      collections := map[];
      log := [];
    }

    ghost function FileStores(): set<FileStore>
      reads this
    {
      set n | n in collections :: collections[n].fileStrategy
    }

    ghost function MemoryStores(): set<MemoryStore>
      reads this
    {
      set n | n in collections && collections[n].memoryStrategy != null :: collections[n].memoryStrategy
    }

    /** The database directory lies below the repository root; every
        registered collection belongs to this database, under its own name,
        and is valid; no two collections share a file store or a cache. */
    ghost predicate Valid()
      reads this, FileStores()
    {
      && Under(gitRoot, config.dbDir)
      && (forall n :: n in collections ==>
            && collections[n].db == this
            && collections[n].name == n
            && collections[n].Valid())
      && (forall a, b :: a in collections && b in collections && a != b ==>
            && collections[a].fileStrategy != collections[b].fileStrategy
            && (collections[a].memoryStrategy != null ==>
                  collections[a].memoryStrategy != collections[b].memoryStrategy))
    }

    /** The registered collection, or nothing. */
    function Get(collectionName: string): (found: Option<Collection>)
      reads this
      ensures found.Some? <==> collectionName in collections
      ensures found.Some? ==> found.value == collections[collectionName]
    {
      if collectionName in collections then Some(collections[collectionName]) else None
    }

    /** `Object.keys(this.collections)`: every registered name once. The
        order in which the keys come out is not modelled. */
    method List() returns (names: seq<string>)
      ensures forall n :: n in names <==> n in collections
      ensures forall i, j :: 0 <= i < j < |names| ==> names[i] != names[j]
    {
      names := [];
      var rest := collections.Keys;
      while rest != {}
        invariant rest <= collections.Keys
        invariant forall n :: n in names <==> n in collections && n !in rest
        invariant forall i, j :: 0 <= i < j < |names| ==> names[i] != names[j]
        decreases rest
      {
        var n :| n in rest;
        names := names + [n];
        rest := rest - {n};
      }
    }

    /** Registers a collection over `dbDir/collectionName`, whose files are
        `existing`; with caching on, its cache starts as what the files
        hold. */
    method InitCollection(collectionName: string, existing: seq<File>) returns (registered: string)
      requires Valid() && WellFormed(existing)
      modifies this`collections
      ensures Valid()
      ensures registered == collectionName
      ensures collectionName in collections
      ensures collections == old(collections)[collectionName := collections[collectionName]]
      ensures var c := collections[collectionName];
              && fresh(c) && fresh(c.fileStrategy)
              && c.fileStrategy.collectionPath == Resolve(config.dbDir, collectionName)
              && c.fileStrategy.dir == existing
              && (config.cache <==> c.memoryStrategy != null)
              && (c.memoryStrategy != null ==> fresh(c.memoryStrategy))
              && c.Mirrored()
    {
      var fileStrategy := new FileStore(Resolve(config.dbDir, collectionName), existing);
      var memoryStrategy: MemoryStore? := null;
      if config.cache {
        var data := fileStrategy.GetAll();
        memoryStrategy := new MemoryStore(Some(data));
      }
      var c := new Collection(this, collectionName, fileStrategy, memoryStrategy);
      collections := collections[collectionName := c];
      registered := collectionName;
    }

    /** `loadCollection`: the same as `initCollection`. */
    method LoadCollection(collectionName: string, existing: seq<File>) returns (registered: string)
      requires Valid() && WellFormed(existing)
      modifies this`collections
      ensures Valid()
      ensures registered == collectionName
      ensures collectionName in collections
      ensures collections == old(collections)[collectionName := collections[collectionName]]
      ensures var c := collections[collectionName];
              && fresh(c) && fresh(c.fileStrategy)
              && c.fileStrategy.collectionPath == Resolve(config.dbDir, collectionName)
              && c.fileStrategy.dir == existing
              && (config.cache <==> c.memoryStrategy != null)
              && (c.memoryStrategy != null ==> fresh(c.memoryStrategy))
              && c.Mirrored()
    {
      registered := InitCollection(collectionName, existing);
    }

    /** `collectionName` is registered over the files `existing`, with a
        cache exactly when caching is configured, and a cache that holds
        those files' documents. */
    ghost predicate Loaded(collectionName: string, existing: seq<File>)
      reads this, FileStores(), MemoryStores()
    {
      && collectionName in collections
      && collections[collectionName].fileStrategy.dir == existing
      && (config.cache <==> collections[collectionName].memoryStrategy != null)
      && collections[collectionName].Mirrored()
    }

    /** `init`: loads every directory `readdir(dbDir)` lists; `names` is that
        listing and `disk` the files of each listed directory. */
    method Init(names: seq<string>, disk: map<string, seq<File>>)
      requires Valid()
      requires forall n :: n in names ==> n in disk && WellFormed(disk[n])
      modifies this`collections
      ensures Valid()
      ensures collections.Keys == old(collections).Keys + (set n | n in names)
      ensures forall n :: n in names ==> Loaded(n, disk[n])
      ensures forall n :: n in old(collections) && n !in names ==> collections[n] == old(collections)[n]
    {
      var i := 0;
      while i < |names|
        invariant 0 <= i <= |names|
        invariant Valid()
        invariant collections.Keys == old(collections).Keys + (set k | 0 <= k < i :: names[k])
        invariant forall k :: 0 <= k < i ==> Loaded(names[k], disk[names[k]])
        invariant forall n :: n in old(collections) && n !in names[..i] ==> collections[n] == old(collections)[n]
      {
        ghost var previous := collections;
        var _ := LoadCollection(names[i], disk[names[i]]);
        forall k | 0 <= k < i + 1 ensures Loaded(names[k], disk[names[k]]) {
          if names[k] != names[i] {
            assert collections[names[k]] == previous[names[k]];
          }
        }
        assert names[..i + 1] == names[..i] + [names[i]];
        i := i + 1;
      }
      assert (set k | 0 <= k < |names| :: names[k]) == (set n | n in names);
      assert names[..|names|] == names;
    }

    /** Deletes every document of the collection (staging as any delete
        does), removes its directory and unregisters it; a name that is not
        registered fails with `Collection doesn't exist` and changes
        nothing. */
    method Delete(collectionName: string) returns (result: Result<string>)
      requires Valid()
      modifies this, FileStores(), MemoryStores()
      ensures collectionName !in old(collections) ==>
                && result == Failure(CollectionMissing)
                && collections == old(collections) && log == old(log)
      ensures collectionName in old(collections) ==>
                var c := old(collections)[collectionName];
                && result == Success(collectionName)
                && collections == old(collections) - {collectionName}
                && c.fileStrategy.dir == []
                && (c.memoryStrategy != null ==> c.memoryStrategy.data == [])
                && log == old(log)
                          + AutoCommitEffects(config.autoCommit, gitRoot,
                                              PathsOf(c.fileStrategy.collectionPath, Contents(old(c.fileStrategy.dir))), StagingStatus.Remove)
                          + [RemoveDir(Resolve(config.dbDir, collectionName))]
      ensures forall n :: n in old(collections) && n != collectionName ==>
                var other := old(collections)[n];
                && other.fileStrategy.dir == old(other.fileStrategy.dir)
                && (other.memoryStrategy != null ==> other.memoryStrategy.data == old(other.memoryStrategy.data))
      ensures Valid()
    {
      if collectionName !in collections {
        return Failure(CollectionMissing);
      }
      var collection := collections[collectionName];
      ghost var before := collection.fileStrategy.dir;
      ghost var others := collections - {collectionName};
      forall n | n in others
        ensures others[n].fileStrategy != collection.fileStrategy
        ensures others[n].memoryStrategy != null ==> others[n].memoryStrategy != collection.memoryStrategy
      {
        assert n in collections && n != collectionName;
      }
      var _ := collection.Delete(MatchAll());
      assert forall n :: n in others ==> others[n].fileStrategy.dir == old(others[n].fileStrategy.dir);
      SelectAllIff(Contents(before), MatchAll());
      RemoveEverything(before);
      if collection.memoryStrategy != null {
        SelectEmptyIff(old(collection.memoryStrategy.data), Not(MatchAll()));
      }
      log := log + [RemoveDir(Resolve(config.dbDir, collectionName))];
      collections := collections - {collectionName};
      result := Success(collectionName);
    }

    /** `add(filePaths)`. */
    method Add(filePaths: seq<string>)
      modifies this`log
      ensures log == old(log) + AddEffects(gitRoot, filePaths)
    {
      log := log + AddEffects(gitRoot, filePaths);
    }

    /** `remove(filePaths)`. */
    method Remove(filePaths: seq<string>)
      modifies this`log
      ensures log == old(log) + RemoveEffects(gitRoot, filePaths)
    {
      log := log + RemoveEffects(gitRoot, filePaths);
    }

    /** `commit(userMessage)`: commits with `CommitMessage` and answers with
        the message. */
    method Commit(userMessage: Option<string>) returns (message: string)
      modifies this`log
      ensures message == CommitMessage(userMessage)
      ensures log == old(log) + [GitCommit(message)]
    {
      message := CommitMessage(userMessage);
      log := log + [GitCommit(message)];
    }
  }

  // ---- The cache against the files ----

  /** Updating in both stores: the cache (which keeps only the matches) lists
      what the rewritten directory holds exactly when every document
      matched. */
  lemma UpdateAgreesIff(d: seq<File>, filter: Filter, modifier: Modifier)
    ensures Modify(Select(Contents(d), filter), modifier) == Contents(UpdateFiles(d, filter, modifier))
            <==> forall x :: x in Contents(d) ==> filter(x)
  {
    var docs := Contents(d);
    var cached := Modify(Select(docs, filter), modifier);
    var stored := Contents(UpdateFiles(d, filter, modifier));
    ModifyAt(Select(docs, filter), modifier);
    if forall x :: x in docs ==> filter(x) {
      SelectAllIff(docs, filter);
      forall k | 0 <= k < |d| ensures cached[k] == stored[k] {
        assert docs[k] == d[k].content;
      }
    } else {
      SelectPartition(docs, filter);
      SelectEmptyIff(docs, Not(filter));
      assert |cached| < |stored|;
    }
  }

  /** Updating both stores from a cache that holds what the directory holds:
      afterwards they hold the same documents exactly when every document
      matched. */
  lemma MirroredUpdateIff(cache: seq<Record>, d: seq<File>, filter: Filter, modifier: Modifier)
    requires multiset(cache) == multiset(Contents(d))
    ensures multiset(Modify(Select(cache, filter), modifier)) == multiset(Contents(UpdateFiles(d, filter, modifier)))
            <==> forall x :: x in Contents(d) ==> filter(x)
  {
    var docs := Contents(d);
    var cached := Modify(Select(docs, filter), modifier);
    var stored := Contents(UpdateFiles(d, filter, modifier));
    SelectPermutation(cache, docs, filter);
    ModifyPermutation(Select(cache, filter), Select(docs, filter), modifier);
    assert multiset(Modify(Select(cache, filter), modifier)) == multiset(cached);
    UpdateAgreesIff(d, filter, modifier);
    if !(forall x :: x in docs ==> filter(x)) {
      ModifyAt(Select(docs, filter), modifier);
      SelectPartition(docs, filter);
      SelectEmptyIff(docs, Not(filter));
      UpdateFilesNames(d, filter, modifier);
      assert |cached| < |stored|;
      assert |multiset(cached)| < |multiset(stored)|;
    }
  }

  /** The paths staged after an update, taken from the updated documents,
      are the paths of the files the update rewrote. */
  lemma PathsOfModify(collectionPath: string, docs: seq<Record>, modifier: Modifier)
    ensures PathsOf(collectionPath, Modify(docs, modifier)) == PathsOf(collectionPath, docs)
  {
    ModifyAt(docs, modifier);
  }

  /** Deleting with `() => true` empties a directory. */
  lemma {:induction false} RemoveEverything(d: seq<File>)
    ensures RemoveMatching(d, MatchAll()) == []
  {
    if d != [] {
      RemoveEverything(d[1..]);
    }
  }
}
