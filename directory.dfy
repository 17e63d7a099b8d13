/** One collection directory on disk, as the file strategies see it through
    `readDocuments`, `outputJson` and `remove`: a list of files in the order
    the directory enumerates them, each a name and the document parsed from it.
    `readdir` promises no order, so where a newly created file appears is left
    open: `Write` has to put it somewhere (it puts it last), but the laws
    about new files below are stated as multisets and sets. */
module Directory {
  import opened Records
  import opened Paths

  datatype File = File(name: string, content: Record)

  function Names(d: seq<File>): (r: seq<string>)
    ensures |r| == |d| && forall i :: 0 <= i < |d| ==> r[i] == d[i].name
  {
    seq(|d|, i requires 0 <= i < |d| => d[i].name)
  }

  /** `readDocuments(collectionPath)`: every file's parsed content, in
      enumeration order. */
  function Contents(d: seq<File>): (r: seq<Record>)
    ensures |r| == |d| && forall i :: 0 <= i < |d| ==> r[i] == d[i].content
  {
    seq(|d|, i requires 0 <= i < |d| => d[i].content)
  }

  /** A directory never holds two files with one name. */
  ghost predicate UniqueNames(d: seq<File>)
  {
    forall i, j :: 0 <= i < j < |d| ==> d[i].name != d[j].name
  }

  /** The layout the strategies write: one file per document, named by its id. */
  ghost predicate WellFormed(d: seq<File>)
  {
    && UniqueNames(d)
    && forall i :: 0 <= i < |d| ==> d[i].name == FileName(d[i].content.id)
  }

  /** The document stored under `name`, if any. */
  function Lookup(d: seq<File>, name: string): Option<Record>
  {
    if d == [] then None
    else if d[0].name == name then Some(d[0].content)
    else Lookup(d[1..], name)
  }

  /** `outputJson(path, content)`: replaces the file's content, or creates the
      file when there is none. */
  function Write(d: seq<File>, name: string, content: Record): seq<File>
  {
    if d == [] then [File(name, content)]
    else if d[0].name == name then [File(name, content)] + d[1..]
    else [d[0]] + Write(d[1..], name, content)
  }

  /** `remove(path)`: deletes the file; a missing file is not an error. */
  function RemoveFile(d: seq<File>, name: string): seq<File>
  {
    if d == [] then []
    else (if d[0].name == name then [] else [d[0]]) + RemoveFile(d[1..], name)
  }

  /** One file after an update pass: a matching document is rewritten as
      `{ ...m(document), id: document.id }`, any other file is left alone. */
  function Touch(file: File, f: Filter, m: Modifier): File
  {
    if f(file.content) then File(file.name, WithId(m(file.content), file.content.id)) else file
  }

  /** The directory after rewriting every matching document in place. */
  function UpdateFiles(d: seq<File>, f: Filter, m: Modifier): (r: seq<File>)
    ensures |r| == |d| && forall i :: 0 <= i < |d| ==> r[i] == Touch(d[i], f, m)
  {
    seq(|d|, i requires 0 <= i < |d| => Touch(d[i], f, m))
  }

  /** The directory after removing every file whose document matches. */
  function RemoveMatching(d: seq<File>, f: Filter): seq<File>
  {
    if d == [] then []
    else (if f(d[0].content) then [] else [d[0]]) + RemoveMatching(d[1..], f)
  }

  /** The paths of the files that hold `docs`, in the same order. */
  function PathsOf(collectionPath: string, docs: seq<Record>): (r: seq<string>)
    ensures |r| == |docs|
    ensures forall i :: 0 <= i < |docs| ==> r[i] == DocumentPath(collectionPath, docs[i].id)
  {
    seq(|docs|, i requires 0 <= i < |docs| => DocumentPath(collectionPath, docs[i].id))
  }

  /** Within one collection, a staged path names exactly one document id. */
  lemma PathsOfDetermineIds(collectionPath: string, docs: seq<Record>, i: nat, j: nat)
    requires i < |docs| && j < |docs|
    ensures PathsOf(collectionPath, docs)[i] == PathsOf(collectionPath, docs)[j] <==> docs[i].id == docs[j].id
  {
    if PathsOf(collectionPath, docs)[i] == PathsOf(collectionPath, docs)[j] {
      ResolveInjective(collectionPath, FileName(docs[i].id), FileName(docs[j].id));
      FileNameInjective(docs[i].id, docs[j].id);
    }
  }

  lemma PathsOfSnoc(collectionPath: string, docs: seq<Record>, x: Record)
    ensures PathsOf(collectionPath, docs + [x]) == PathsOf(collectionPath, docs) + [DocumentPath(collectionPath, x.id)]
  {
  }

  // ---- Lookup: the directory read as a map from file name to document ----

  lemma {:induction false} LookupFound(d: seq<File>, name: string)
    ensures Lookup(d, name).Some? <==> name in Names(d)
    ensures Lookup(d, name).Some? ==> exists i :: 0 <= i < |d| && d[i].name == name && d[i].content == Lookup(d, name).value
  {
    if d != [] {
      LookupFound(d[1..], name);
      assert Names(d) == [d[0].name] + Names(d[1..]);
      if d[0].name != name && Lookup(d, name).Some? {
        var i :| 0 <= i < |d[1..]| && d[1..][i].name == name && d[1..][i].content == Lookup(d, name).value;
        assert d[i + 1] == d[1..][i];
      }
    }
  }

  /** In the one-file-per-id layout, `<id>.json` is found exactly when some
      document has the id `id`, and what it holds is that document. */
  lemma LookupById(d: seq<File>, id: string)
    requires WellFormed(d)
    ensures Lookup(d, FileName(id)).Some? <==> exists k :: 0 <= k < |d| && d[k].content.id == id
    ensures Lookup(d, FileName(id)).Some? ==> Lookup(d, FileName(id)).value.id == id
  {
    LookupFound(d, FileName(id));
    if Lookup(d, FileName(id)).Some? {
      var i :| 0 <= i < |d| && d[i].name == FileName(id) && d[i].content == Lookup(d, FileName(id)).value;
      FileNameInjective(d[i].content.id, id);
    }
    if exists k :: 0 <= k < |d| && d[k].content.id == id {
      var k :| 0 <= k < |d| && d[k].content.id == id;
      assert Names(d)[k] == FileName(id);
    }
  }

  /** A name no file carries looks up nothing. */
  lemma {:induction false} LookupAbsent(d: seq<File>, name: string)
    requires forall k :: 0 <= k < |d| ==> d[k].name != name
    ensures Lookup(d, name) == None
  {
    if d != [] {
      LookupAbsent(d[1..], name);
    }
  }

  /** In a directory with unique names, the file at index `i` is what its name
      looks up. */
  lemma {:induction false} LookupAt(d: seq<File>, i: nat)
    requires UniqueNames(d) && i < |d|
    ensures Lookup(d, d[i].name) == Some(d[i].content)
  {
    if i > 0 {
      assert d[1..][i - 1] == d[i];
      LookupAt(d[1..], i - 1);
    }
  }

  /** `outputJson` stores `content` under `name`, overwriting what was there,
      and leaves every other file as it was. */
  lemma {:induction false} WriteLookup(d: seq<File>, name: string, content: Record, other: string)
    ensures Lookup(Write(d, name, content), name) == Some(content)
    ensures other != name ==> Lookup(Write(d, name, content), other) == Lookup(d, other)
  {
    if d != [] && d[0].name != name {
      WriteLookup(d[1..], name, content, other);
    }
  }

  /** A second write to the same file replaces the first. */
  lemma {:induction false} WriteTwice(d: seq<File>, name: string, a: Record, b: Record)
    ensures Write(Write(d, name, a), name, b) == Write(d, name, b)
  {
    if d != [] && d[0].name != name {
      WriteTwice(d[1..], name, a, b);
    }
  }

  /** Writing an existing file replaces it where it stands. */
  lemma {:induction false} WriteAt(d: seq<File>, i: nat, content: Record)
    requires UniqueNames(d) && i < |d|
    ensures Write(d, d[i].name, content) == d[i := File(d[i].name, content)]
  {
    if i > 0 {
      assert d[1..][i - 1] == d[i];
      WriteAt(d[1..], i - 1, content);
      assert d[i := File(d[i].name, content)] == [d[0]] + d[1..][i - 1 := File(d[i].name, content)];
    }
  }

  /** Writing a file that does not exist yet adds it and keeps every other
      file as it was. */
  lemma {:induction false} WriteNew(d: seq<File>, name: string, content: Record)
    requires name !in Names(d)
    ensures multiset(Write(d, name, content)) == multiset(d) + multiset{File(name, content)}
  {
    if d != [] {
      assert d == [d[0]] + d[1..];
      NamesCons(d[0], d[1..]);
      assert Write(d, name, content) == [d[0]] + Write(d[1..], name, content);
      WriteNew(d[1..], name, content);
    } else {
      assert Write(d, name, content) == [File(name, content)];
    }
  }

  lemma NamesCons(f: File, d: seq<File>)
    ensures Names([f] + d) == [f.name] + Names(d)
  {
  }

  lemma ContentsCons(f: File, d: seq<File>)
    ensures Contents([f] + d) == [f.content] + Contents(d)
  {
  }

  /** A write adds `name` to the names and keeps every other name; the
      directory grows by one file exactly when `name` is new. */
  lemma {:induction false} WriteNames(d: seq<File>, name: string, content: Record)
    ensures forall n :: n in Names(Write(d, name, content)) <==> n in Names(d) || n == name
    ensures |Write(d, name, content)| == if name in Names(d) then |d| else |d| + 1
  {
    if d != [] {
      assert d == [d[0]] + d[1..];
      NamesCons(d[0], d[1..]);
      if d[0].name == name {
        assert Write(d, name, content) == [File(name, content)] + d[1..];
        NamesCons(File(name, content), d[1..]);
      } else {
        assert Write(d, name, content) == [d[0]] + Write(d[1..], name, content);
        WriteNames(d[1..], name, content);
        NamesCons(d[0], Write(d[1..], name, content));
      }
    } else {
      assert Names(Write(d, name, content)) == [name];
    }
  }

  lemma UniqueNamesFromNames(d: seq<File>, e: seq<File>)
    requires Names(d) == Names(e) && UniqueNames(d)
    ensures UniqueNames(e)
  {
    forall i, j | 0 <= i < j < |e| ensures e[i].name != e[j].name {
      assert Names(d)[i] == e[i].name && Names(d)[j] == e[j].name;
    }
  }

  /** Writing a document under its own file name keeps the layout well formed. */
  lemma {:induction false} WriteWellFormed(d: seq<File>, doc: Record)
    requires WellFormed(d)
    ensures WellFormed(Write(d, FileName(doc.id), doc))
  {
    var name := FileName(doc.id);
    if d != [] {
      var rest := d[1..];
      assert WellFormed(rest) by {
        forall k | 0 <= k < |rest| ensures rest[k] == d[k + 1] { }
      }
      if d[0].name == name {
        assert Write(d, name, doc) == [File(name, doc)] + rest;
        forall k | 0 <= k < |rest| ensures rest[k].name != name {
          assert rest[k] == d[k + 1];
        }
      } else {
        WriteWellFormed(rest, doc);
        var w := Write(rest, name, doc);
        WriteNames(rest, name, doc);
        assert d[0].name !in Names(rest) by {
          forall k | 0 <= k < |rest| ensures Names(rest)[k] != d[0].name {
            assert rest[k] == d[k + 1];
          }
        }
        assert d[0].name !in Names(w);
        forall k | 0 <= k < |w| ensures w[k].name != d[0].name {
          assert Names(w)[k] == w[k].name;
        }
      }
    }
  }

  /** `remove` deletes the named file and nothing else. */
  lemma {:induction false} RemoveFileLookup(d: seq<File>, name: string, other: string)
    ensures Lookup(RemoveFile(d, name), name) == None
    ensures other != name ==> Lookup(RemoveFile(d, name), other) == Lookup(d, other)
  {
    if d != [] {
      RemoveFileLookup(d[1..], name, other);
      var rest := RemoveFile(d[1..], name);
      if d[0].name != name {
        assert RemoveFile(d, name) == [d[0]] + rest;
        assert ([d[0]] + rest)[1..] == rest;
      } else {
        assert RemoveFile(d, name) == rest;
      }
    }
  }

  /** Removing a file twice is the same as removing it once. */
  lemma {:induction false} RemoveFileIdempotent(d: seq<File>, name: string)
    ensures RemoveFile(RemoveFile(d, name), name) == RemoveFile(d, name)
  {
    if d != [] {
      RemoveFileIdempotent(d[1..], name);
      var rest := RemoveFile(d[1..], name);
      if d[0].name != name {
        assert RemoveFile(d, name) == [d[0]] + rest;
        assert ([d[0]] + rest)[1..] == rest;
      } else {
        assert RemoveFile(d, name) == rest;
      }
    }
  }

  lemma {:induction false} RemoveFileAbsent(d: seq<File>, name: string)
    requires forall k :: 0 <= k < |d| ==> d[k].name != name
    ensures RemoveFile(d, name) == d
  {
    if d != [] {
      RemoveFileAbsent(d[1..], name);
      assert d == [d[0]] + d[1..];
    }
  }

  lemma {:induction false} RemoveFileAppend(a: seq<File>, b: seq<File>, name: string)
    ensures RemoveFile(a + b, name) == RemoveFile(a, name) + RemoveFile(b, name)
  {
    if a == [] {
      assert a + b == b;
    } else {
      assert (a + b)[1..] == a[1..] + b;
      RemoveFileAppend(a[1..], b, name);
    }
  }

  lemma {:induction false} RemoveMatchingAppend(a: seq<File>, b: seq<File>, f: Filter)
    ensures RemoveMatching(a + b, f) == RemoveMatching(a, f) + RemoveMatching(b, f)
  {
    if a == [] {
      assert a + b == b;
    } else {
      assert (a + b)[1..] == a[1..] + b;
      RemoveMatchingAppend(a[1..], b, f);
    }
  }

  lemma {:induction false} RemoveMatchingSubset(d: seq<File>, f: Filter, x: File)
    requires x in RemoveMatching(d, f)
    ensures x in d
  {
    if d != [] && x != d[0] {
      RemoveMatchingSubset(d[1..], f, x);
    }
  }

  /** Removing the matches of a directory removes from its documents exactly
      what a filter on `!f` drops, in the same order. */
  lemma {:induction false} ContentsOfRemoveMatching(d: seq<File>, f: Filter)
    ensures Contents(RemoveMatching(d, f)) == Select(Contents(d), Not(f))
  {
    if d != [] {
      var head := if f(d[0].content) then [] else [d[0]];
      var rest := RemoveMatching(d[1..], f);
      ContentsOfRemoveMatching(d[1..], f);
      assert Contents(d)[1..] == Contents(d[1..]);
      assert Select(Contents(d), Not(f)) == Contents(head) + Select(Contents(d[1..]), Not(f));
      assert Contents(head + rest) == Contents(head) + Contents(rest);
    }
  }

  /** A lookup after an update: a matched document reads back modified with its
      own id, any other file reads back unchanged. */
  lemma UpdateFilesLookup(d: seq<File>, f: Filter, m: Modifier, name: string)
    requires UniqueNames(d)
    ensures Lookup(UpdateFiles(d, f, m), name)
              == match Lookup(d, name)
                 case None => None
                 case Some(r) => Some(if f(r) then WithId(m(r), r.id) else r)
  {
    var u := UpdateFiles(d, f, m);
    assert Names(u) == Names(d);
    UniqueNamesFromNames(d, u);
    LookupFound(d, name);
    LookupFound(u, name);
    if Lookup(d, name).Some? {
      var i :| 0 <= i < |d| && d[i].name == name && d[i].content == Lookup(d, name).value;
      LookupAt(d, i);
      LookupAt(u, i);
    }
  }

  /** A lookup after removing the matches: a matched document is gone, any
      other file is still there. */
  lemma {:induction false} RemoveMatchingLookup(d: seq<File>, f: Filter, name: string)
    requires UniqueNames(d)
    ensures Lookup(RemoveMatching(d, f), name)
              == match Lookup(d, name)
                 case None => None
                 case Some(r) => if f(r) then None else Some(r)
  {
    if d != [] {
      assert UniqueNames(d[1..]) by {
        forall i, j | 0 <= i < j < |d[1..]| ensures d[1..][i].name != d[1..][j].name {
          assert d[1..][i] == d[i + 1] && d[1..][j] == d[j + 1];
        }
      }
      RemoveMatchingLookup(d[1..], f, name);
      var rest := RemoveMatching(d[1..], f);
      if !f(d[0].content) {
        assert RemoveMatching(d, f) == [d[0]] + rest;
        assert ([d[0]] + rest)[1..] == rest;
      } else {
        assert RemoveMatching(d, f) == rest;
      }
      if d[0].name == name {
        forall k | 0 <= k < |d[1..]| ensures d[1..][k].name != name {
          assert d[1..][k] == d[k + 1];
        }
        LookupAbsent(d[1..], name);
      }
    }
  }

  /** Updating keeps every file where it is and keeps its name. */
  lemma UpdateFilesNames(d: seq<File>, f: Filter, m: Modifier)
    ensures Names(UpdateFiles(d, f, m)) == Names(d)
  {
  }

  /** One step of an update scan over a well-formed directory: with the first
      `i` files processed, rewriting file `i` when it matches extends the
      processed prefix by one. */
  lemma UpdateScanStep(d: seq<File>, f: Filter, m: Modifier, i: nat)
    requires WellFormed(d) && i < |d|
    ensures f(d[i].content) ==>
              Write(UpdateFiles(d[..i], f, m) + d[i..], FileName(d[i].content.id), WithId(m(d[i].content), d[i].content.id))
                == UpdateFiles(d[..i + 1], f, m) + d[i + 1..]
    ensures !f(d[i].content) ==>
              UpdateFiles(d[..i], f, m) + d[i..] == UpdateFiles(d[..i + 1], f, m) + d[i + 1..]
  {
    var current := UpdateFiles(d[..i], f, m) + d[i..];
    var next := UpdateFiles(d[..i + 1], f, m) + d[i + 1..];
    assert |current| == |d| == |next|;
    forall k | 0 <= k < |d| ensures current[k].name == d[k].name {
      if k < i {
        assert current[k] == Touch(d[k], f, m);
      } else {
        assert current[k] == d[k];
      }
    }
    forall k | 0 <= k < |d| ensures next[k] == (if k == i then Touch(d[i], f, m) else current[k]) {
      if k <= i {
        assert next[k] == Touch(d[..i + 1][k], f, m);
      } else {
        assert next[k] == d[k];
      }
    }
    if f(d[i].content) {
      assert UniqueNames(current) by {
        forall a, b | 0 <= a < b < |current| ensures current[a].name != current[b].name {
          assert d[a].name != d[b].name;
        }
      }
      WriteAt(current, i, WithId(m(d[i].content), d[i].content.id));
    }
  }

  /** A delete scan's result grows by file `i` unless it matches. */
  lemma RemoveMatchingSnoc(d: seq<File>, f: Filter, i: nat)
    requires i < |d|
    ensures RemoveMatching(d[..i + 1], f) == RemoveMatching(d[..i], f) + (if f(d[i].content) then [] else [d[i]])
    ensures d[i..] == [d[i]] + d[i + 1..]
  {
    assert d[..i + 1] == d[..i] + [d[i]];
    RemoveMatchingAppend(d[..i], [d[i]], f);
  }

  /** In a directory with unique names, no file kept from before position
      `i` carries file `i`'s name. */
  lemma KeptBeforeDiffer(d: seq<File>, f: Filter, i: nat)
    requires UniqueNames(d) && i < |d|
    ensures forall k :: 0 <= k < |RemoveMatching(d[..i], f)| ==> RemoveMatching(d[..i], f)[k].name != d[i].name
  {
    var done := RemoveMatching(d[..i], f);
    forall k | 0 <= k < |done| ensures done[k].name != d[i].name {
      var x := done[k];
      RemoveMatchingSubset(d[..i], f, x);
      var j :| 0 <= j < |d[..i]| && d[..i][j] == x;
      assert d[j] == x;
    }
  }

  /** Removing a name carried by exactly one file, between files that carry
      other names, takes out just that file. */
  lemma RemoveFileBetween(a: seq<File>, x: File, b: seq<File>)
    requires forall k :: 0 <= k < |a| ==> a[k].name != x.name
    requires forall k :: 0 <= k < |b| ==> b[k].name != x.name
    ensures RemoveFile(a + ([x] + b), x.name) == a + b
  {
    var n := x.name;
    RemoveFileAbsent(a, n);
    RemoveFileAbsent(b, n);
    assert RemoveFile([x], n) == [] by {
      assert [x][1..] == [];
    }
    RemoveFileAppend([x], b, n);
    assert RemoveFile([x] + b, n) == b;
    RemoveFileAppend(a, [x] + b, n);
  }

  /** One step of a delete scan over a directory with unique names: with the
      first `i` files processed, removing file `i` when it matches extends
      the processed prefix by one. */
  lemma RemoveScanStep(d: seq<File>, f: Filter, i: nat)
    requires UniqueNames(d) && i < |d|
    ensures f(d[i].content) ==>
              RemoveFile(RemoveMatching(d[..i], f) + d[i..], d[i].name)
                == RemoveMatching(d[..i + 1], f) + d[i + 1..]
    ensures !f(d[i].content) ==>
              RemoveMatching(d[..i], f) + d[i..] == RemoveMatching(d[..i + 1], f) + d[i + 1..]
  {
    RemoveMatchingSnoc(d, f, i);
    if f(d[i].content) {
      var done := RemoveMatching(d[..i], f);
      var rest := d[i + 1..];
      KeptBeforeDiffer(d, f, i);
      forall k | 0 <= k < |rest| ensures rest[k].name != d[i].name {
        assert rest[k] == d[i + 1 + k];
      }
      RemoveFileBetween(done, d[i], rest);
      assert done + [] == done;
    }
  }

  /** A scanned prefix that covers the whole directory is the whole result. */
  lemma ScanComplete(d: seq<File>, f: Filter, m: Modifier)
    ensures UpdateFiles(d[..|d|], f, m) + d[|d|..] == UpdateFiles(d, f, m)
    ensures RemoveMatching(d[..|d|], f) + d[|d|..] == RemoveMatching(d, f)
  {
    assert d[..|d|] == d;
    assert d[|d|..] == [];
  }

  /** With no match, neither an update nor a delete changes the directory. */
  lemma {:induction false} NoMatchUnchanged(d: seq<File>, f: Filter, m: Modifier)
    requires forall k :: 0 <= k < |d| ==> !f(d[k].content)
    ensures UpdateFiles(d, f, m) == d
    ensures RemoveMatching(d, f) == d
  {
    if d != [] {
      NoMatchUnchanged(d[1..], f, m);
      assert d == [d[0]] + d[1..];
    }
  }

  /** Writing a file that does not exist yet adds its document to what
      `readDocuments` returns and keeps every other document. */
  lemma {:induction false} WriteNewContents(d: seq<File>, name: string, doc: Record)
    requires name !in Names(d)
    ensures multiset(Contents(Write(d, name, doc))) == multiset(Contents(d)) + multiset{doc}
  {
    if d != [] {
      assert d == [d[0]] + d[1..];
      NamesCons(d[0], d[1..]);
      assert d[0].name != name;
      WriteNewContents(d[1..], name, doc);
      ContentsCons(d[0], d[1..]);
      ContentsCons(d[0], Write(d[1..], name, doc));
    } else {
      assert Write(d, name, doc) == [File(name, doc)];
    }
  }

  /** Removing the matches keeps the layout well formed. */
  lemma RemoveMatchingWellFormed(d: seq<File>, f: Filter)
    requires WellFormed(d)
    ensures WellFormed(RemoveMatching(d, f))
  {
    var r := RemoveMatching(d, f);
    forall i, j | 0 <= i < j < |r| ensures r[i].name != r[j].name {
      RemoveMatchingOrder(d, f, i, j);
    }
    forall i | 0 <= i < |r| ensures r[i].name == FileName(r[i].content.id) {
      RemoveMatchingSubset(d, f, r[i]);
    }
  }

  /** Two positions of the result come from two distinct positions of the input. */
  lemma {:induction false} RemoveMatchingOrder(d: seq<File>, f: Filter, i: nat, j: nat)
    requires i < j < |RemoveMatching(d, f)|
    ensures exists a, b :: 0 <= a < b < |d| && d[a] == RemoveMatching(d, f)[i] && d[b] == RemoveMatching(d, f)[j]
  {
    var r := RemoveMatching(d, f);
    if f(d[0].content) {
      assert r == RemoveMatching(d[1..], f);
      RemoveMatchingOrder(d[1..], f, i, j);
      var a, b :| 0 <= a < b < |d[1..]| && d[1..][a] == r[i] && d[1..][b] == r[j];
      assert d[a + 1] == r[i] && d[b + 1] == r[j];
    } else if i == 0 {
      assert r[j] == RemoveMatching(d[1..], f)[j - 1];
      RemoveMatchingSubset(d[1..], f, r[j]);
      var b :| 0 <= b < |d[1..]| && d[1..][b] == r[j];
      assert d[0] == r[0] && d[b + 1] == r[j];
    } else {
      RemoveMatchingOrder(d[1..], f, i - 1, j - 1);
      var a, b :| 0 <= a < b < |d[1..]| && d[1..][a] == RemoveMatching(d[1..], f)[i - 1] && d[1..][b] == RemoveMatching(d[1..], f)[j - 1];
      assert d[a + 1] == r[i] && d[b + 1] == r[j];
    }
  }

  /** Updating keeps every file's name, so the layout stays well formed. */
  lemma UpdateFilesWellFormed(d: seq<File>, f: Filter, m: Modifier)
    requires WellFormed(d)
    ensures WellFormed(UpdateFiles(d, f, m))
  {
  }
}
