/** The oldest file store of the repository (`src/FileStrategy.ts`): the
    collection's files live under `dbDir/name`, paths are built by string
    interpolation, and `update`/`delete` answer with a flag and a path list.

    Its `update` builds each file path from `documentId.id`, where
    `documentId` is already the id string; a string has no `id` property,
    so every path ends in `undefined.json`. Every rewritten document
    therefore lands in that one file (the last write wins) and the
    documents' own files are never touched. */
module LegacyFileStrategy {
  import opened Records
  import opened Paths
  import opened Directory

  datatype UpdateResult = UpdateResult(updated: bool, filePaths: seq<string>)
  datatype DeleteResult = DeleteResult(deleted: bool, filePaths: seq<string>)

  /** What `${documentId.id}` interpolates to when `documentId` is a string. */
  const Undefined := "undefined"

  /** The directory after the update as written: untouched when nothing
      matches, otherwise with `undefined.json` holding the last matching
      document, modified. */
  function UpdatedDir(d: seq<File>, filter: Filter, modifier: Modifier): seq<File>
  {
    WrittenToUndefined(d, Select(Contents(d), filter), modifier)
  }

  /** `d` after writing each of `calls`, modified, to `undefined.json` in
      turn: only the last write survives. */
  function WrittenToUndefined(d: seq<File>, calls: seq<Record>, modifier: Modifier): seq<File>
  {
    if calls == [] then d
    else
      var last := calls[|calls| - 1];
      Write(d, FileName(Undefined), WithId(modifier(last), last.id))
  }

  /** One more write to `undefined.json` replaces the previous one. */
  lemma WrittenToUndefinedSnoc(d: seq<File>, calls: seq<Record>, modifier: Modifier, document: Record)
    ensures Write(WrittenToUndefined(d, calls, modifier), FileName(Undefined), WithId(modifier(document), document.id))
              == WrittenToUndefined(d, calls + [document], modifier)
  {
    if calls != [] {
      var last := calls[|calls| - 1];
      WriteTwice(d, FileName(Undefined), WithId(modifier(last), last.id), WithId(modifier(document), document.id));
    }
  }

  /** The file names of the given documents. */
  ghost function NamesOf(docs: seq<Record>): set<string>
  {
    set x | x in docs :: FileName(x.id)
  }

  /** The directory without the files whose names are in `names`, the others
      kept in order. */
  function RemoveNamed(d: seq<File>, names: set<string>): seq<File>
  {
    if d == [] then []
    else (if d[0].name in names then [] else [d[0]]) + RemoveNamed(d[1..], names)
  }

  class FileStore {
    const dbDir: string
    const name: string
    var dir: seq<File>

    /** A store over `dbDir/name`, whose files on disk are `existing`. Nothing
        is assumed about their names. */
    constructor(dbDir: string, name: string, existing: seq<File>)
      ensures this.dbDir == dbDir && this.name == name && dir == existing
    {
      this.dbDir := dbDir;
      this.name := name;
      dir := existing;
    }

    /** `${dbDir}/${name}/${id}.json`. */
    function PathOf(id: string): (p: string)
      ensures p == dbDir + "/" + name + "/" + id + ".json"
    {
      DocumentPath(Resolve(dbDir, name), id)
    }

    method GetAll() returns (documents: seq<Record>)
      ensures documents == Contents(dir)
    {
      documents := Contents(dir);
    }

    method GetData(callback: Filter) returns (documents: seq<Record>)
      ensures documents == Select(Contents(dir), callback)
    {
      var all := Contents(dir);
      documents := Select(all, callback);
    }

    method Insert(documentData: Record) returns (filePath: string)
      modifies this`dir
      ensures dir == Write(old(dir), FileName(documentData.id), documentData)
      ensures filePath == PathOf(documentData.id)
    {
      filePath := PathOf(documentData.id);
      dir := Write(dir, FileName(documentData.id), documentData);
    }

    /** The update as written: `updated` says whether anything matched, and
        there is one `undefined.json` path per match. */
    method Update(filter: Filter, modifier: Modifier)
      returns (result: UpdateResult, ghost modifierCalls: seq<Record>)
      modifies this`dir
      ensures result.updated <==> Select(Contents(old(dir)), filter) != []
      ensures |result.filePaths| == |Select(Contents(old(dir)), filter)|
      ensures forall k :: 0 <= k < |result.filePaths| ==> result.filePaths[k] == PathOf(Undefined)
      ensures modifierCalls == Select(Contents(old(dir)), filter)
      ensures dir == UpdatedDir(old(dir), filter, modifier)
    {
      ghost var start := dir;
      var documents := Contents(dir);
      var updated := false;
      var filePaths := [];
      modifierCalls := [];
      var i := 0;
      while i < |documents|
        invariant 0 <= i <= |documents|
        invariant modifierCalls == Select(documents[..i], filter)
        invariant updated <==> modifierCalls != []
        invariant |filePaths| == |modifierCalls|
        invariant forall k :: 0 <= k < |filePaths| ==> filePaths[k] == PathOf(Undefined)
        invariant dir == WrittenToUndefined(start, modifierCalls, modifier)
      {
        var document := documents[i];
        SelectSnoc(documents, i, filter);
        if filter(document) {
          var documentId := document.id;
          var newDocument := WithId(modifier(document), documentId);
          WrittenToUndefinedSnoc(start, modifierCalls, modifier, document);
          updated := true;
          modifierCalls := modifierCalls + [document];
          var filePath := PathOf(Undefined);
          filePaths := filePaths + [filePath];
          dir := Write(dir, FileName(Undefined), newDocument);
        } else {
          assert Select(documents[..i + 1], filter) == Select(documents[..i], filter);
        }
        i := i + 1;
      }
      assert documents[..i] == documents;
      result := UpdateResult(updated, filePaths);
    }

    /** Removes the file named after each matching document's id. `deleted`
        says whether anything matched; the paths are the matches' files, in
        the order the directory lists them. */
    method Delete(filter: Filter) returns (result: DeleteResult)
      modifies this`dir
      ensures result.deleted <==> Select(Contents(old(dir)), filter) != []
      ensures result.filePaths == PathsOf(Resolve(dbDir, name), Select(Contents(old(dir)), filter))
      ensures dir == RemoveNamed(old(dir), NamesOf(Select(Contents(old(dir)), filter)))
    {
      ghost var start := dir;
      var documents := Contents(dir);
      var deleted := false;
      var filePaths: seq<string> := [];
      ghost var matched: seq<Record> := [];
      RemoveNamedNone(start);
      var i := 0;
      while i < |documents|
        invariant 0 <= i <= |documents|
        invariant matched == Select(documents[..i], filter)
        invariant deleted <==> matched != []
        invariant filePaths == PathsOf(Resolve(dbDir, name), matched)
        invariant dir == RemoveNamed(start, NamesOf(matched))
      {
        var document := documents[i];
        SelectSnoc(documents, i, filter);
        if filter(document) {
          var filePath := PathOf(document.id);
          PathsOfSnoc(Resolve(dbDir, name), matched, document);
          filePaths := filePaths + [filePath];
          RemoveNamedSnoc(start, matched, document);
          dir := RemoveFile(dir, FileName(document.id));
          matched := matched + [document];
          deleted := true;
        } else {
          assert Select(documents[..i + 1], filter) == Select(documents[..i], filter);
        }
        i := i + 1;
      }
      assert documents[..i] == documents;
      result := DeleteResult(deleted, filePaths);
    }
  }

  /** Removing no name keeps the directory. */
  lemma {:induction false} RemoveNamedNone(d: seq<File>)
    ensures RemoveNamed(d, NamesOf([])) == d
  {
    if d != [] {
      RemoveNamedNone(d[1..]);
      assert d == [d[0]] + d[1..];
    }
  }

  /** Removing one more name from a directory with some names removed. */
  lemma {:induction false} RemoveNamedMore(d: seq<File>, names: set<string>, n: string)
    ensures RemoveFile(RemoveNamed(d, names), n) == RemoveNamed(d, names + {n})
  {
    if d != [] {
      RemoveNamedMore(d[1..], names, n);
      var head := if d[0].name in names then [] else [d[0]];
      RemoveFileAppend(head, RemoveNamed(d[1..], names), n);
      if d[0].name !in names {
        assert RemoveFile(head, n) == (if d[0].name == n then [] else [d[0]]) + RemoveFile([], n);
      }
    }
  }

  /** Removing the file of one more matched document. */
  lemma RemoveNamedSnoc(d: seq<File>, matched: seq<Record>, document: Record)
    ensures RemoveFile(RemoveNamed(d, NamesOf(matched)), FileName(document.id))
              == RemoveNamed(d, NamesOf(matched + [document]))
  {
    RemoveNamedMore(d, NamesOf(matched), FileName(document.id));
    assert NamesOf(matched + [document]) == NamesOf(matched) + {FileName(document.id)};
  }

  // ---- What the legacy update and delete do to the directory ----

  /** The update as written never changes any file other than
      `undefined.json`; in particular a matched document's own file keeps its
      old content. */
  lemma UpdatedDirTouchesOnlyUndefined(d: seq<File>, filter: Filter, modifier: Modifier, n: string)
    requires n != FileName(Undefined)
    ensures Lookup(UpdatedDir(d, filter, modifier), n) == Lookup(d, n)
  {
    var matches := Select(Contents(d), filter);
    if matches != [] {
      var last := matches[|matches| - 1];
      WriteLookup(d, FileName(Undefined), WithId(modifier(last), last.id), n);
    }
  }

  /** One document `1` in `1.json`, matched by the filter: after the update
      as written, `1.json` still holds the old document, where rewriting each
      match in its own file stores the modified one. */
  lemma UpdatedDirMissesMatchedFile()
    ensures var doc := Record("1", map[]);
            var d := [File(FileName("1"), doc)];
            var modifier: Modifier := (r: Record) => Record(r.id, map["done" := JBool(true)]);
            && Lookup(UpdatedDir(d, r => true, modifier), FileName("1")) == Some(doc)
            && Lookup(UpdateFiles(d, r => true, modifier), FileName("1"))
               == Some(Record("1", map["done" := JBool(true)]))
  {
    var doc := Record("1", map[]);
    var d := [File(FileName("1"), doc)];
    var modifier: Modifier := (r: Record) => Record(r.id, map["done" := JBool(true)]);
    assert FileName("1") != FileName(Undefined);
    UpdatedDirTouchesOnlyUndefined(d, r => true, modifier, FileName("1"));
    assert UpdateFiles(d, r => true, modifier)[0] == File(FileName("1"), Record("1", map["done" := JBool(true)]));
  }

  /** Removing by names is removing the matches, when a file's name is among
      the names exactly when its document matches. */
  lemma {:induction false} RemoveNamedIsRemoveMatching(d: seq<File>, names: set<string>, filter: Filter)
    requires forall k :: 0 <= k < |d| ==> (d[k].name in names <==> filter(d[k].content))
    ensures RemoveNamed(d, names) == RemoveMatching(d, filter)
  {
    if d != [] {
      assert forall k :: 0 <= k < |d[1..]| ==> d[1..][k] == d[k + 1];
      RemoveNamedIsRemoveMatching(d[1..], names, filter);
    }
  }

  /** On a directory in the one-file-per-id layout, the legacy delete leaves
      exactly what the live store's delete leaves. */
  lemma DeleteAgreesOnWellFormed(d: seq<File>, filter: Filter)
    requires WellFormed(d)
    ensures RemoveNamed(d, NamesOf(Select(Contents(d), filter))) == RemoveMatching(d, filter)
  {
    var matches := Select(Contents(d), filter);
    var names := NamesOf(matches);
    forall k | 0 <= k < |d| ensures d[k].name in names <==> filter(d[k].content) {
      var c := d[k].content;
      SelectMember(Contents(d), filter, c);
      if filter(c) {
        assert c in matches;
      } else if d[k].name in names {
        var x :| x in matches && FileName(x.id) == d[k].name;
        SelectMember(Contents(d), filter, x);
        assert false;
      }
    }
    RemoveNamedIsRemoveMatching(d, names, filter);
  }
}
