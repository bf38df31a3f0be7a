/** The repository index: the head commit id, the current branch, the branch
    table, the staging area and the set of paths marked for removal. The class
    `Gitlet` is the object the commands change in place; `Index` is its value. */
module GitletIndex {
  import opened Objects

  /** The value of a `Gitlet` object. */
  datatype Index = Index(id: string, head: Id, curBranch: string,
                         branchCommit: map<string, Id>,
                         removedBlob: set<Path>,
                         stagedBlob: map<Path, Id>)
  {
    /** `getStagedBlobID`: the staged blob id, or the empty string when the
        path is not staged. */
    function StagedBlobID(file: Path): (r: Id)
      ensures file in stagedBlob ==> r == stagedBlob[file]
      ensures file !in stagedBlob ==> r == ""
    {
      if file in stagedBlob then stagedBlob[file] else ""
    }
  }

  /** A default-constructed `Gitlet`: every field empty. */
  const EmptyIndex := Index("", "", "", map[], {}, map[])

  class Gitlet {
    var id: string
    var head: Id
    var curBranch: string
    var branchCommit: map<string, Id>
    var removedBlob: set<Path>
    var stagedBlob: map<Path, Id>

    function Model(): Index
      reads this
    {
      Index(id, head, curBranch, branchCommit, removedBlob, stagedBlob)
    }

    constructor ()
      ensures Model() == EmptyIndex
    {
      id, head, curBranch := "", "", "";
      branchCommit, removedBlob, stagedBlob := map[], {}, map[];
    }

    function GetHead(): Id reads this { head }
    function GetCurBranch(): string reads this { curBranch }
    function GetBranchCommit(): map<string, Id> reads this { branchCommit }
    function GetRemovedBlob(): set<Path> reads this { removedBlob }
    function GetStagedBlob(): map<Path, Id> reads this { stagedBlob }

    function GetStagedBlobID(file: Path): Id
      reads this
    {
      Model().StagedBlobID(file)
    }

    /** `isRemoved`: the path is marked for removal. */
    predicate IsRemoved(file: Path)
      reads this
      ensures IsRemoved(file) ==> !IsRemovedEmpty()
    {
      file in removedBlob
    }

    /** `isRemovedEmpty`: no path is marked for removal. */
    predicate IsRemovedEmpty()
      reads this
      ensures IsRemovedEmpty() ==> forall f :: f !in removedBlob
    {
      removedBlob == {}
    }

    /** `isStageEmpty`: nothing is staged, so every staged id reads as empty. */
    predicate IsStageEmpty()
      reads this
      ensures IsStageEmpty() ==> forall f :: GetStagedBlobID(f) == ""
    {
      stagedBlob == map[]
    }

    method SetID(newId: string)
      modifies this
      ensures Model() == old(Model()).(id := newId)
    {
      id := newId;
    }

    /** Changes the head and nothing else. */
    method SetHead(h: Id)
      modifies this
      ensures GetHead() == h
      ensures Model() == old(Model()).(head := h)
    {
      head := h;
    }

    /** Changes the current branch and nothing else. */
    method SetCurBranch(cb: string)
      modifies this
      ensures GetCurBranch() == cb
      ensures Model() == old(Model()).(curBranch := cb)
    {
      curBranch := cb;
    }

    /** Insert or overwrite one branch entry. */
    method InsertBranchCommit(branch: string, commitId: Id)
      modifies this
      ensures branch in branchCommit && branchCommit[branch] == commitId
      ensures forall b :: b != branch ==> (b in branchCommit <==> b in old(branchCommit))
      ensures forall b :: b != branch && b in branchCommit ==> branchCommit[b] == old(branchCommit)[b]
      ensures Model() == old(Model()).(branchCommit := old(branchCommit)[branch := commitId])
    {
      branchCommit := branchCommit[branch := commitId];
    }

    /** Drops one branch entry; nothing happens when it is absent. */
    method EraseBranchCommit(branch: string)
      modifies this
      ensures branch !in branchCommit
      ensures old(branch !in branchCommit) ==> Model() == old(Model())
      ensures Model() == old(Model()).(branchCommit := old(branchCommit) - {branch})
    {
      if branch in branchCommit {
        branchCommit := branchCommit - {branch};
      }
    }

    method InsertRemovedBlob(file: Path)
      modifies this
      ensures IsRemoved(file)
      ensures Model() == old(Model()).(removedBlob := old(removedBlob) + {file})
    {
      removedBlob := removedBlob + {file};
    }

    /** Clears the removal mark of one path; idempotent, no other path changes. */
    method EraseRemovedBlob(file: Path)
      modifies this
      ensures !IsRemoved(file)
      ensures forall f :: f != file ==> (IsRemoved(f) <==> old(IsRemoved(f)))
      ensures Model() == old(Model()).(removedBlob := old(removedBlob) - {file})
    {
      if file in removedBlob {
        removedBlob := removedBlob - {file};
      }
    }

    /** Stages `blobId` for `file`, overwriting any earlier entry. */
    method InsertStagedBlob(file: Path, blobId: Id)
      modifies this
      ensures GetStagedBlobID(file) == blobId
      ensures forall f :: f != file ==> GetStagedBlobID(f) == old(GetStagedBlobID(f))
      ensures Model() == old(Model()).(stagedBlob := old(stagedBlob)[file := blobId])
    {
      stagedBlob := stagedBlob[file := blobId];
    }

    /** Unstages `file`; nothing happens when it is not staged. */
    method EraseStagedBlob(file: Path)
      modifies this
      ensures GetStagedBlobID(file) == "" && file !in stagedBlob
      ensures forall f :: f != file ==> GetStagedBlobID(f) == old(GetStagedBlobID(f))
      ensures old(file !in stagedBlob) ==> Model() == old(Model())
      ensures Model() == old(Model()).(stagedBlob := old(stagedBlob) - {file})
    {
      if file in stagedBlob {
        stagedBlob := stagedBlob - {file};
      }
    }

    /** Empties the staging area; the other fields keep their values. */
    method ClearStagedBlob()
      modifies this
      ensures IsStageEmpty()
      ensures Model() == old(Model()).(stagedBlob := map[])
    {
      stagedBlob := map[];
    }
  }
}
