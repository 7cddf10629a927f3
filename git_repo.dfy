/** What the git segments ask libgit2 (through the git2 crate), reduced to the answers they use.
    Every query that can fail is an `Option`; a repository is the fixed set of answers it gives. */
module GitRepo {
  import opened Wrappers

  /** An object id. */
  type Oid = nat

  /** `git2::Status`: the bit set libgit2 reports for one path. */
  type Status = bv32

  const INDEX_NEW: Status := 1
  const INDEX_MODIFIED: Status := 2
  const INDEX_DELETED: Status := 4
  const INDEX_RENAMED: Status := 8
  const INDEX_TYPECHANGE: Status := 16
  const WT_NEW: Status := 128
  const WT_MODIFIED: Status := 256
  const WT_DELETED: Status := 512
  const WT_TYPECHANGE: Status := 1024
  const WT_RENAMED: Status := 2048
  const CONFLICTED: Status := 32768

  /** `Status::contains`: every bit of `flag` is set in `s`. */
  predicate Contains(s: Status, flag: Status)
  {
    s & flag == flag
  }

  /** One local branch as the branch iterator yields it: whether it is checked out, the commit it
      points at, the commit its upstream points at (None when it has no upstream or that lookup
      fails), and its name (None when it is not valid UTF-8 or cannot be read). */
  datatype Branch = Branch(isHead: bool, target: Option<Oid>, upstreamTarget: Option<Oid>, name: Option<string>)

  /** `Repository::head`: an error (an unborn branch: nothing committed yet), or the reference with
      the commit it resolves to, if any. */
  datatype Head = HeadErr | HeadOk(target: Option<Oid>)

  /** The answers a discovered repository gives:
      - `branches`: `branches(Some(BranchType::Local))`, None when the listing fails, an entry None
        when the iterator yields an error;
      - `head`: `head()`;
      - `shortIds`: `find_object(id).short_id()` as text, for the ids where that succeeds;
      - `statuses`: the status of every path `statuses(...)` reports, None when that fails;
      - `stashes`: how many times `stash_foreach` calls back;
      - `aheadBehind`: `graph_ahead_behind(local, upstream)` where it succeeds. */
  datatype Repository = Repository(
    branches: Option<seq<Option<Branch>>>,
    head: Head,
    shortIds: map<Oid, string>,
    statuses: Option<seq<Status>>,
    stashes: nat,
    aheadBehind: map<(Oid, Oid), (nat, nat)>
  )
}
