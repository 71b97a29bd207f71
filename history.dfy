/** What the history source hands to the core: commits, their modified files,
    and the repository lookups by reference name and by tag. */
module History {
  import opened Wrappers

  /** A file path as the history source reports it. A deleted file has no
      new path and an added file no old path; both are `None`, and the
      metrics key their dictionaries on that `None` like on any other path. */
  type Path = Option<string>

  /** The kind of a file modification. */
  datatype ChangeKind = Add | Copy | Rename | Delete | Modify | Unknown

  /** One modified file of a commit: its paths before and after, its file
      name (the last path component), the kind of change, the line counts
      and the unified diff text. */
  datatype FileChange = FileChange(
    oldPath: Path,
    newPath: Path,
    filename: string,
    kind: ChangeKind,
    added: nat,
    deleted: nat,
    diff: string)

  /** The number of lines a change touches: added plus deleted. */
  function LinesChanged(fc: FileChange): int {
    fc.added + fc.deleted
  }

  /** A commit: its hash, the hashes of its parents (none for a root commit,
      several for a merge), committer and author timestamps as instants,
      the author's e-mail address and the files it modifies, in order. */
  datatype Commit = Commit(
    hash: string,
    parents: seq<string>,
    committerDate: int,
    authorDate: int,
    authorEmail: string,
    changes: seq<FileChange>)

  /** The repository as a lookup: a reference name (full or abbreviated hash,
      `HEAD`, ...) to the commit it names, and a tag name to its commit. A
      name that is absent is a failed lookup. */
  datatype Repo = Repo(commits: map<string, Commit>, tags: map<string, Commit>)
}
