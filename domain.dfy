/** The records the parser produces: one file's line counts and one commit. */
module Domain {

  /** One numstat entry; `added` and `deleted` are 32-bit counts and `mode` is never
      filled in. */
  datatype FileChange = FileChange(added: int, deleted: int, file: string, mode: string)

  /** One commit. `date` is the epoch in seconds (a 64-bit integer); `branch` and
      `committer` are never filled in. */
  datatype CocoCommit = CocoCommit(
    branch: string,
    rev: string,
    author: string,
    committer: string,
    date: int,
    message: string,
    changes: seq<FileChange>)

  /** `CocoCommit::default()`: every field empty, so `rev == ""`. */
  const DefaultCommit: CocoCommit := CocoCommit("", "", "", "", 0, "", [])
}
