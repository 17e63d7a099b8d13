/** The second file store of the repository (`src/FileStrategy/`): the same
    directory layout and the same changes to it as the live one, except that
    `update` declares a path list and never appends to it, so it always
    answers with an empty list. */
module StandaloneFileStrategy {
  import opened Records
  import opened Paths
  import opened Directory

  class FileStore {
    const collectionPath: string
    var dir: seq<File>

    ghost predicate Valid()
      reads this
    {
      WellFormed(dir)
    }

    constructor(collectionPath: string, existing: seq<File>)
      requires WellFormed(existing)
      ensures this.collectionPath == collectionPath && dir == existing
      ensures Valid()
    {
      this.collectionPath := collectionPath;
      dir := existing;
    }

    method GetAll() returns (documents: seq<Record>)
      ensures documents == Contents(dir)
    {
      documents := Contents(dir);
    }

    method GetData(callback: Filter) returns (documents: seq<Record>)
      ensures documents == Select(Contents(dir), callback)
    {
      var all := Contents(dir);
      documents := Select(all, callback);
    }

    method Insert(documentData: Record) returns (filePath: string)
      requires Valid()
      modifies this`dir
      ensures dir == Write(old(dir), FileName(documentData.id), documentData)
      ensures filePath == DocumentPath(collectionPath, documentData.id)
      ensures Valid()
    {
      filePath := DocumentPath(collectionPath, documentData.id);
      WriteWellFormed(dir, documentData);
      dir := Write(dir, FileName(documentData.id), documentData);
    }

    /** Rewrites every matching document's file like the live store, and
        answers with the path list it never filled. */
    method Update(filter: Filter, modifier: Modifier)
      returns (filePaths: seq<string>, ghost modifierCalls: seq<Record>)
      requires Valid()
      modifies this`dir
      ensures dir == UpdateFiles(old(dir), filter, modifier)
      ensures filePaths == []
      ensures modifierCalls == Select(Contents(old(dir)), filter)
      ensures Valid()
    {
      ghost var start := dir;
      var documents := Contents(dir);
      filePaths, modifierCalls := [], [];
      var i := 0;
      while i < |documents|
        invariant 0 <= i <= |documents|
        invariant dir == UpdateFiles(start[..i], filter, modifier) + start[i..]
        invariant modifierCalls == Select(documents[..i], filter)
        invariant filePaths == []
      {
        var document := documents[i];
        SelectSnoc(documents, i, filter);
        UpdateScanStep(start, filter, modifier, i);
        if filter(document) {
          modifierCalls := modifierCalls + [document];
          var documentId := document.id;
          var newDocument := WithId(modifier(document), documentId);
          dir := Write(dir, FileName(documentId), newDocument);
        } else {
          assert Select(documents[..i + 1], filter) == Select(documents[..i], filter);
        }
        i := i + 1;
      }
      ScanComplete(start, filter, modifier);
      assert documents[..i] == documents;
      UpdateFilesWellFormed(start, filter, modifier);
    }

    /** Removes the file of every matching document and answers with their
        paths, in the order the directory lists them. */
    method Delete(filter: Filter) returns (filePaths: seq<string>)
      requires Valid()
      modifies this`dir
      ensures dir == RemoveMatching(old(dir), filter)
      ensures filePaths == PathsOf(collectionPath, Select(Contents(old(dir)), filter))
      ensures Valid()
    {
      ghost var start := dir;
      var documents := Contents(dir);
      filePaths := [];
      var i := 0;
      while i < |documents|
        invariant 0 <= i <= |documents|
        invariant dir == RemoveMatching(start[..i], filter) + start[i..]
        invariant filePaths == PathsOf(collectionPath, Select(documents[..i], filter))
      {
        var document := documents[i];
        assert document == start[i].content && FileName(document.id) == start[i].name;
        SelectSnoc(documents, i, filter);
        RemoveScanStep(start, filter, i);
        if filter(document) {
          var filePath := DocumentPath(collectionPath, document.id);
          PathsOfSnoc(collectionPath, Select(documents[..i], filter), document);
          filePaths := filePaths + [filePath];
          dir := RemoveFile(dir, FileName(document.id));
        }
        i := i + 1;
      }
      ScanComplete(start, filter, r => r);
      assert documents[..i] == documents;
      RemoveMatchingWellFormed(start, filter);
    }
  }
}
