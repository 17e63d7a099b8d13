/** What the database asks of git and of the file system, as a log of
    effects, and the pure rules that decide which effects a call produces:
    staging paths relative to the repository root, the default commit
    message, and the auto-commit step every collection mutation ends with. */
module Staging {
  import opened Records
  import opened Paths

  /** `gitStagingAreaStatus`: `add` is member 0 and `remove` member 1. */
  datatype StagingStatus = Add | Remove

  /** The numeric value of the enum member, which is what `if (addFile)`
      tests. */
  function Ordinal(status: StagingStatus): nat
  {
    match status
    case Add => 0
    case Remove => 1
  }

  /** One call into git or the file system. Git paths are relative to the
      repository root. */
  datatype Effect =
    | GitAdd(filepath: string)
    | GitRemove(filepath: string)
    | GitCommit(message: string)
    | RemoveDir(path: string)

  /** `add(filePaths)`: one `git add` per path, relative to `gitRoot`. */
  function AddEffects(gitRoot: string, filePaths: seq<string>): (effects: seq<Effect>)
    ensures |effects| == |filePaths|
    ensures forall i :: 0 <= i < |filePaths| ==> effects[i] == GitAdd(Relative(gitRoot, filePaths[i]))
  {
    seq(|filePaths|, i requires 0 <= i < |filePaths| => GitAdd(Relative(gitRoot, filePaths[i])))
  }

  /** `remove(filePaths)`: one `git remove` per path, relative to `gitRoot`. */
  function RemoveEffects(gitRoot: string, filePaths: seq<string>): (effects: seq<Effect>)
    ensures |effects| == |filePaths|
    ensures forall i :: 0 <= i < |filePaths| ==> effects[i] == GitRemove(Relative(gitRoot, filePaths[i]))
  {
    seq(|filePaths|, i requires 0 <= i < |filePaths| => GitRemove(Relative(gitRoot, filePaths[i])))
  }

  /** An array interpolated into a template string: its elements joined with
      commas. */
  function Join(items: seq<string>): string
  {
    if items == [] then ""
    else if |items| == 1 then items[0]
    else items[0] + "," + Join(items[1..])
  }

  /** The message `commit` uses. An absent or empty message is replaced by
      `Commit files: ` followed by the interpolated list of relative paths,
      a list `commit` declares and never fills; so the message is never
      empty. */
  function CommitMessage(userMessage: Option<string>): (message: string)
    ensures message != []
    ensures userMessage.Some? && userMessage.value != [] ==> message == userMessage.value
    ensures userMessage.None? || userMessage.value == [] ==> message == "Commit files: "
  {
    var relativeFilePaths: seq<string> := [];
    if userMessage.Some? && userMessage.value != [] then userMessage.value
    else "Commit files: " + Join(relativeFilePaths)
  }

  /** `checkForAutoCommit(filePaths, status)`: nothing when auto-commit is
      off; otherwise one staging call, chosen by whether the status's value
      is non-zero, followed by one commit with the default message. */
  function AutoCommitEffects(autoCommit: bool, gitRoot: string, filePaths: seq<string>, status: StagingStatus): seq<Effect>
  {
    if !autoCommit then []
    else
      (if Ordinal(status) != 0 then AddEffects(gitRoot, filePaths) else RemoveEffects(gitRoot, filePaths))
      + [GitCommit(CommitMessage(None))]
  }

  function IsStaging(e: Effect): bool
  {
    e.GitAdd? || e.GitRemove?
  }

  /** With auto-commit off a mutation stages and commits nothing; with it on,
      it stages one path per given path and then commits exactly once, last,
      with the default message. */
  lemma AutoCommitShape(autoCommit: bool, gitRoot: string, filePaths: seq<string>, status: StagingStatus)
    ensures !autoCommit ==> AutoCommitEffects(autoCommit, gitRoot, filePaths, status) == []
    ensures autoCommit ==>
              var effects := AutoCommitEffects(autoCommit, gitRoot, filePaths, status);
              && |effects| == |filePaths| + 1
              && (forall i :: 0 <= i < |filePaths| ==> IsStaging(effects[i]))
              && effects[|filePaths|] == GitCommit("Commit files: ")
  {
  }

  /** The staging branch is inverted: the `add` status (value 0, falsy)
      unstages with `git remove`, and the `remove` status stages with
      `git add`. */
  lemma StagingIsInverted(gitRoot: string, filePaths: seq<string>, i: nat)
    requires i < |filePaths|
    ensures AutoCommitEffects(true, gitRoot, filePaths, Add)[i] == GitRemove(Relative(gitRoot, filePaths[i]))
    ensures AutoCommitEffects(true, gitRoot, filePaths, Remove)[i] == GitAdd(Relative(gitRoot, filePaths[i]))
  {
  }

  /** A path under the repository root is staged under the name it was
      resolved from, so resolving the staged path against the root gives the
      original path back. */
  lemma StagedPathRoundTrip(gitRoot: string, names: seq<string>, i: nat)
    requires i < |names|
    ensures var filePaths := seq(|names|, k requires 0 <= k < |names| => Resolve(gitRoot, names[k]));
            && AddEffects(gitRoot, filePaths)[i].filepath == names[i]
            && Resolve(gitRoot, AddEffects(gitRoot, filePaths)[i].filepath) == filePaths[i]
  {
    RelativeOfResolve(gitRoot, names[i]);
  }
}
