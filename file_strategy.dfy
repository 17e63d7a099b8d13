/** The file store the live collection uses: one directory per collection,
    one `<id>.json` file per document under `collectionPath`. `update` and
    `delete` answer with the paths of the files they touched; they also hand
    out the documents they wrote or matched, which the source computes (the
    list awaited by `Promise.all`, the list returned by `filter`) and then
    drops, because the collection is written against a strategy that answers
    with documents. */
module FileStrategy {
  import opened Records
  import opened Paths
  import opened Directory

  class FileStore {
    const collectionPath: string
    var dir: seq<File>

    /** The directory keeps the one-file-per-id layout. */
    ghost predicate Valid()
      reads this
    {
      WellFormed(dir)
    }

    /** A store over the directory `collectionPath`, whose files on disk are
        `existing`. */
    constructor(collectionPath: string, existing: seq<File>)
      requires WellFormed(existing)
      ensures this.collectionPath == collectionPath && dir == existing
      ensures Valid()
    {
      this.collectionPath := collectionPath;
      dir := existing;
    }

    /** `readDocuments(collectionPath)`. */
    method GetAll() returns (documents: seq<Record>)
      ensures documents == Contents(dir)
    {
      documents := Contents(dir);
    }

    /** The read documents filtered by `callback`. */
    method GetData(callback: Filter) returns (documents: seq<Record>)
      ensures documents == Select(Contents(dir), callback)
    {
      var all := Contents(dir);
      documents := Select(all, callback);
    }

    /** Writes the document to its own file, replacing any file of that name,
        and answers with the file's path. */
    method Insert(documentData: Record) returns (filePath: string)
      requires Valid()
      modifies this`dir
      ensures dir == Write(old(dir), FileName(documentData.id), documentData)
      ensures filePath == DocumentPath(collectionPath, documentData.id)
      ensures Valid()
    {
      filePath := DocumentPath(collectionPath, documentData.id);
      WriteWellFormed(dir, documentData);
      dir := Write(dir, FileName(documentData.id), documentData);
    }

    /** Rewrites every matching document's file as the modifier's output with
        the document's own id, in the order the directory lists them.
        `modifierCalls` records the documents the modifier was called on. */
    method Update(filter: Filter, modifier: Modifier)
      returns (filePaths: seq<string>, newDocuments: seq<Record>, ghost modifierCalls: seq<Record>)
      requires Valid()
      modifies this`dir
      ensures dir == UpdateFiles(old(dir), filter, modifier)
      ensures filePaths == PathsOf(collectionPath, Select(Contents(old(dir)), filter))
      ensures newDocuments == Modify(Select(Contents(old(dir)), filter), modifier)
      ensures modifierCalls == Select(Contents(old(dir)), filter)
      ensures Valid()
    {
      ghost var start := dir;
      var documents := Contents(dir);
      filePaths, newDocuments, modifierCalls := [], [], [];
      var i := 0;
      while i < |documents|
        invariant 0 <= i <= |documents|
        invariant dir == UpdateFiles(start[..i], filter, modifier) + start[i..]
        invariant filePaths == PathsOf(collectionPath, Select(documents[..i], filter))
        invariant newDocuments == Modify(Select(documents[..i], filter), modifier)
        invariant modifierCalls == Select(documents[..i], filter)
      {
        var document := documents[i];
        SelectSnoc(documents, i, filter);
        UpdateScanStep(start, filter, modifier, i);
        if filter(document) {
          modifierCalls := modifierCalls + [document];
          var documentId := document.id;
          var newDocument := WithId(modifier(document), documentId);
          var filePath := DocumentPath(collectionPath, documentId);
          filePaths := filePaths + [filePath];
          dir := Write(dir, FileName(documentId), newDocument);
          ModifyAppend(Select(documents[..i], filter), [document], modifier);
          assert Modify([document], modifier) == [newDocument];
          newDocuments := newDocuments + [newDocument];
        } else {
          assert Select(documents[..i + 1], filter) == Select(documents[..i], filter);
        }
        i := i + 1;
      }
      ScanComplete(start, filter, modifier);
      assert documents[..i] == documents;
      UpdateFilesWellFormed(start, filter, modifier);
    }

    /** Removes the file of every matching document, in the order the
        directory lists them, and answers with their paths; `removed` is the
        list of matched documents. */
    method Delete(filter: Filter) returns (filePaths: seq<string>, removed: seq<Record>)
      requires Valid()
      modifies this`dir
      ensures dir == RemoveMatching(old(dir), filter)
      ensures filePaths == PathsOf(collectionPath, Select(Contents(old(dir)), filter))
      ensures removed == Select(Contents(old(dir)), filter)
      ensures Valid()
    {
      ghost var start := dir;
      var documents := Contents(dir);
      filePaths, removed := [], [];
      var i := 0;
      while i < |documents|
        invariant 0 <= i <= |documents|
        invariant dir == RemoveMatching(start[..i], filter) + start[i..]
        invariant filePaths == PathsOf(collectionPath, Select(documents[..i], filter))
        invariant removed == Select(documents[..i], filter)
      {
        var document := documents[i];
        assert document == start[i].content && FileName(document.id) == start[i].name;
        SelectSnoc(documents, i, filter);
        RemoveScanStep(start, filter, i);
        if filter(document) {
          var filePath := DocumentPath(collectionPath, document.id);
          PathsOfSnoc(collectionPath, Select(documents[..i], filter), document);
          filePaths := filePaths + [filePath];
          dir := RemoveFile(dir, FileName(document.id));
          removed := removed + [document];
        }
        i := i + 1;
      }
      ScanComplete(start, filter, r => r);
      assert documents[..i] == documents;
      RemoveMatchingWellFormed(start, filter);
    }
  }

  /** With no match, an update and a delete leave the directory as it was
      and answer with no path. */
  lemma NoMatchesTouchNothing(d: seq<File>, collectionPath: string, filter: Filter, modifier: Modifier)
    requires forall k :: 0 <= k < |d| ==> !filter(d[k].content)
    ensures UpdateFiles(d, filter, modifier) == d
    ensures RemoveMatching(d, filter) == d
    ensures PathsOf(collectionPath, Select(Contents(d), filter)) == []
  {
    NoMatchUnchanged(d, filter, modifier);
    SelectEmptyIff(Contents(d), filter);
  }
}
