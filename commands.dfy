/** The `exec` bodies of `init`, `add`, `commit` and `rm`, step by step on the
    `Gitlet` object and the files on disk. Each is proved to perform the
    transition module Transitions defines, so every lemma there is a
    statement about these methods too. */
module Commands {
  import opened Utils
  import opened Objects
  import opened GitletIndex
  import opened Repository
  import opened Transitions

  /** How a command ends: normally, or by throwing with one of the errors. */
  datatype Outcome = Done | Raised(error: Error)

  /** The command either made the transition or threw and changed nothing. */
  ghost predicate Performed(r: Outcome, step: Result, before: Repo, after: Repo)
  {
    match step
    case Success(t) => r == Done && after == t
    case Failure(e) => r == Raised(e) && after == before
  }

  /** `Init::exec`; `epoch` is the timestamp of the root commit. */
  method InitCmd(git: Gitlet, disk: Disk, hash: Hash, epoch: string)
    modifies git, disk
    ensures State(git, disk) == InitStep(old(State(git, disk)), hash, epoch)
  {
    var root := RootCommit(hash, InitialLog, epoch);
    git.InsertBranchCommit(Master, root.id);
    git.SetCurBranch(Master);
    git.SetHead(root.id);
    git.SetID(Sha1(hash, [InitialLog, root.timestamp, Master]));
    disk.commits := disk.commits[root.id := root];
  }

  /** `Add::exec`: a missing file is the exception `readFile` throws. */
  method AddCmd(git: Gitlet, disk: Disk, hash: Hash, file: Path) returns (r: Outcome)
    requires git.head in disk.commits
    modifies git, disk
    ensures Performed(r, AddStep(old(State(git, disk)), hash, file), old(State(git, disk)), State(git, disk))
  {
    if file !in disk.work {
      return Raised(CannotOpenFile);
    }
    var blob := NewBlob(hash, disk.work[file]);
    var id := blob.id;
    git.EraseRemovedBlob(file);
    var cur := disk.commits[git.GetHead()];
    var tracked := BlobExists(cur, id);
    if tracked {
      git.EraseStagedBlob(file);
      return Done;
    }
    var oldId := git.GetStagedBlobID(file);
    if oldId != "" {
      disk.blobs := disk.blobs - {oldId};
    }
    git.InsertStagedBlob(file, id);
    disk.blobs := disk.blobs[id := blob];
    return Done;
  }

  /** The two loops of `CommitCmd::exec` that build the new snapshot: the
      head's entries whose paths are not marked removed, then every staged
      entry on top. */
  method BuildSnapshot(git: Gitlet, head: Commit) returns (commitBlob: map<Path, Id>)
    ensures commitBlob == NextSnapshot(git.Model(), head)
  {
    var blobs := head.commitBlob;
    var stage := git.GetStagedBlob();
    commitBlob := map[];
    var todo := blobs.Keys;
    while todo != {}
      invariant todo <= blobs.Keys
      invariant forall p :: p in commitBlob <==> p in blobs && p !in todo && p !in git.removedBlob
      invariant forall p :: p in commitBlob ==> commitBlob[p] == blobs[p]
      decreases todo
    {
      var p :| p in todo;
      if !git.IsRemoved(p) {
        commitBlob := commitBlob[p := blobs[p]];
      }
      todo := todo - {p};
    }
    todo := stage.Keys;
    while todo != {}
      invariant todo <= stage.Keys
      invariant forall p :: p in commitBlob <==>
        (p in stage && p !in todo) || (p in blobs && p !in git.removedBlob)
      invariant forall p :: p in commitBlob ==>
        commitBlob[p] == if p in stage && p !in todo then stage[p] else blobs[p]
      decreases todo
    {
      var p :| p in todo;
      commitBlob := commitBlob[p := stage[p]];
      todo := todo - {p};
    }
    SameSnapshot(commitBlob, git.Model(), head);
  }

  lemma SameSnapshot(commitBlob: map<Path, Id>, idx: Index, head: Commit)
    requires forall p :: p in commitBlob <==>
      p in idx.stagedBlob || (p in head.commitBlob && p !in idx.removedBlob)
    requires forall p :: p in commitBlob ==>
      commitBlob[p] == if p in idx.stagedBlob then idx.stagedBlob[p] else head.commitBlob[p]
    ensures commitBlob == NextSnapshot(idx, head)
  {
  }

  /** The new commit `CommitCmd::exec` builds from the head and the index. */
  method RecordCommit(git: Gitlet, disk: Disk, hash: Hash, message: string, now: string, order: seq<Path>)
    returns (c: Commit)
    requires git.head in disk.commits
    requires Enumerates(order, NextSnapshot(git.Model(), disk.commits[git.head]).Keys)
    ensures c == NewHead(State(git, disk), hash, message, now, order)
  {
    var head := git.GetHead();
    var commitBlob := BuildSnapshot(git, disk.commits[head]);
    c := NewCommit(hash, message, commitBlob, order, head, "", now);
  }

  /** `CommitCmd::isLegal` then `CommitCmd::exec`; `now` is the clock
      reading and `order` the order in which the new snapshot's entries are
      visited when its id is computed. */
  method CommitCmd(git: Gitlet, disk: Disk, hash: Hash, message: string, now: string, order: seq<Path>)
    returns (r: Outcome)
    requires git.head in disk.commits
    requires Enumerates(order, NextSnapshot(git.Model(), disk.commits[git.head]).Keys)
    modifies git, disk
    ensures Performed(r, CommitStep(old(State(git, disk)), hash, message, now, order),
                      old(State(git, disk)), State(git, disk))
  {
    if message == "" {
      return Raised(EmptyMessage);
    }
    if git.IsStageEmpty() && git.IsRemovedEmpty() {
      return Raised(NoChanges);
    }
    ghost var before := State(git, disk);
    var newCommit := RecordCommit(git, disk, hash, message, now, order);
    var newHead := newCommit.id;
    var branch := git.GetCurBranch();
    git.SetHead(newHead);
    git.InsertBranchCommit(branch, newHead);
    git.ClearStagedBlob();
    disk.commits := disk.commits[newHead := newCommit];
    assert State(git, disk) == Advance(before, newCommit);
    r := Done;
  }

  /** `Rm::exec`. */
  method RmCmd(git: Gitlet, disk: Disk, hash: Hash, file: Path) returns (r: Outcome)
    requires git.head in disk.commits
    modifies git, disk
    ensures Performed(r, RmStep(old(State(git, disk)), hash, file), old(State(git, disk)), State(git, disk))
  {
    if file !in disk.work {
      return Raised(CannotOpenFile);
    }
    var expected := Sha1(hash, [disk.work[file]]);
    var actual := git.GetStagedBlobID(file);
    var cur := disk.commits[git.GetHead()];
    var tracked := BlobExists(cur, expected);
    if actual == "" && !tracked {
      return Raised(NoReasonToRemove);
    }
    if actual != "" {
      git.EraseStagedBlob(file);
    }
    if tracked {
      git.InsertRemovedBlob(file);
      disk.work := disk.work - {file};
    }
    return Done;
  }
}
