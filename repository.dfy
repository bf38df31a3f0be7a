/** What the commands read and write besides the index: the commit store
    (`.gitlet/commit`), the blob store (`.gitlet/blob`) and the working
    directory, each a map from a name to what the file holds. */
module Repository {
  import opened Objects
  import opened GitletIndex
  import History

  /** The files on disk the commands touch. */
  class Disk {
    var commits: map<Id, Commit>
    var blobs: map<Id, Blob>
    var work: map<Path, string>

    /** A directory holding the given working files and no repository yet. */
    constructor (files: map<Path, string>)
      ensures commits == map[] && blobs == map[] && work == files
    {
      commits, blobs, work := map[], map[], files;
    }
  }

  /** Index, stores and working directory taken together as one value. */
  datatype Repo = Repo(index: Index, commits: map<Id, Commit>,
                       blobs: map<Id, Blob>, work: map<Path, string>)

  function State(git: Gitlet, disk: Disk): Repo
    reads git, disk
  {
    Repo(git.Model(), disk.commits, disk.blobs, disk.work)
  }

  /** The repository before `init`: a default index, empty stores. */
  function Fresh(files: map<Path, string>): Repo
  {
    Repo(EmptyIndex, map[], map[], files)
  }

  /** The state every command keeps: the head and every branch name a stored
      commit, the current branch points at the head, each commit is stored
      under its own id, first-parent chains end, and no path is both staged
      and marked removed. */
  ghost predicate Valid(s: Repo)
  {
    && s.index.head in s.commits
    && (forall b :: b in s.index.branchCommit ==> s.index.branchCommit[b] in s.commits)
    && s.index.curBranch in s.index.branchCommit
    && s.index.branchCommit[s.index.curBranch] == s.index.head
    && (forall id :: id in s.commits ==> s.commits[id].id == id)
    && (exists rank :: History.Ranked(s.commits, rank))
    && StagedIdsPresent(s.index)
    && s.index.stagedBlob.Keys !! s.index.removedBlob
  }

  /** Every staged path names a real (non-empty) blob id. */
  ghost predicate StagedIdsPresent(idx: Index)
  {
    forall f :: f in idx.stagedBlob ==> idx.stagedBlob[f] != ""
  }

  /** A change to the stage and the removal marks alone keeps the state
      valid when it keeps staged ids non-empty and the two apart. */
  lemma StageChangeKeepsValid(s: Repo, t: Repo)
    requires Valid(s)
    requires t.commits == s.commits && t.index.head == s.index.head
    requires t.index.branchCommit == s.index.branchCommit && t.index.curBranch == s.index.curBranch
    requires StagedIdsPresent(t.index) && t.index.stagedBlob.Keys !! t.index.removedBlob
    ensures Valid(t)
  {
    var rank :| History.Ranked(s.commits, rank);
    assert History.Ranked(t.commits, rank);
  }
}
