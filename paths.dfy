/** Path strings. `path.resolve` is modelled as joining with "/" (no
    normalisation of "..", "." or absolute segments), and `path.relative`
    as stripping a leading `root + "/"`. */
module Paths {

  /** `path.resolve(dir, name)`. */
  function Resolve(dir: string, name: string): string
  {
    dir + "/" + name
  }

  /** `${id}.json`: the name of the file that holds the document `id`. */
  function FileName(id: string): string
  {
    id + ".json"
  }

  /** `path.resolve(collectionPath, `${id}.json`)`. */
  function DocumentPath(collectionPath: string, id: string): string
  {
    Resolve(collectionPath, FileName(id))
  }

  /** `path.relative(root, p)` for a path under `root`; any other path is kept
      as it is. */
  function Relative(root: string, p: string): string
  {
    var prefix := root + "/";
    if |prefix| <= |p| && p[..|prefix|] == prefix then p[|prefix|..] else p
  }

  /** A file name determines the id it was made from. */
  lemma FileNameInjective(a: string, b: string)
    requires FileName(a) == FileName(b)
    ensures a == b
  {
    assert |a| == |b|;
    assert a == FileName(a)[..|a|];
    assert b == FileName(b)[..|b|];
  }

  /** Within one directory, the resolved path determines the name. */
  lemma ResolveInjective(dir: string, a: string, b: string)
    requires Resolve(dir, a) == Resolve(dir, b)
    ensures a == b
  {
    assert a == Resolve(dir, a)[|dir| + 1..];
    assert b == Resolve(dir, b)[|dir| + 1..];
  }

  /** Making a path under `root` relative to `root` gives back the name
      that was resolved against it. */
  lemma RelativeOfResolve(root: string, name: string)
    ensures Relative(root, Resolve(root, name)) == name
  {
    var p := Resolve(root, name);
    assert p == (root + "/") + name;
    assert p[..|root + "/"|] == root + "/";
  }

  /** `dir` is `root` itself or lies below it. */
  predicate Under(root: string, dir: string)
  {
    dir == root || (|root| + 1 <= |dir| && dir[..|root| + 1] == root + "/")
  }

  /** A document of a collection kept below the repository root is staged
      under its path from that root: the database directory's part below the
      root, the collection name and the document's file name. */
  lemma StagedDocumentPath(root: string, dbDir: string, name: string, id: string)
    requires Under(root, dbDir)
    ensures Relative(root, DocumentPath(Resolve(dbDir, name), id))
         == (if dbDir == root then "" else dbDir[|root| + 1..] + "/") + name + "/" + FileName(id)
  {
    var tail := name + "/" + FileName(id);
    if dbDir == root {
      assert DocumentPath(Resolve(dbDir, name), id) == Resolve(root, tail);
      RelativeOfResolve(root, tail);
    } else {
      var below := dbDir[|root| + 1..];
      assert dbDir == root + "/" + below;
      assert DocumentPath(Resolve(dbDir, name), id) == Resolve(root, below + "/" + tail);
      RelativeOfResolve(root, below + "/" + tail);
    }
  }
}
