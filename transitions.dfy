/** The commands `init`, `add`, `commit` and `rm` as transitions over the
    whole repository value: index, commit store, blob store and working
    directory. The imperative versions in module Commands are proved to
    perform exactly these transitions. */
module Transitions {
  import opened Utils
  import opened Objects
  import opened GitletIndex
  import opened Repository
  import History

  /** The exceptions the commands throw, with the texts they carry:
      "cannot open the file", "Please enter a commit message",
      "No changes added to the commit" and "No reason to remove the file". */
  datatype Error = CannotOpenFile | EmptyMessage | NoChanges | NoReasonToRemove

  /** The new repository state, or the exception (which leaves it as it was). */
  datatype Result = Success(value: Repo) | Failure(error: Error)

  const InitialLog := "initial commit"
  const Master := "master"

  /** The commit the head names; the index invariant guarantees it is stored. */
  function HeadCommit(s: Repo): (c: Commit)
    requires s.index.head in s.commits
    ensures c in s.commits.Values
    ensures (forall id :: id in s.commits ==> s.commits[id].id == id) ==> c.id == s.index.head
  {
    s.commits[s.index.head]
  }

  // ---------------------------------------------------------------- init

  /** `Init::exec`: stores the root commit and points `master` and the head at it. */
  function InitStep(s: Repo, hash: Hash, epoch: string): (t: Repo)
    ensures t.index.curBranch == Master && Master in t.index.branchCommit
    ensures t.index.branchCommit[Master] == t.index.head && t.index.head in t.commits
    ensures t.commits[t.index.head].parent1 == "" && t.commits[t.index.head].commitBlob == map[]
    ensures t.index.stagedBlob == s.index.stagedBlob && t.index.removedBlob == s.index.removedBlob
    ensures t.blobs == s.blobs && t.work == s.work
  {
    var root := RootCommit(hash, InitialLog, epoch);
    Repo(s.index.(id := Sha1(hash, [InitialLog, epoch, Master]),
                  head := root.id, curBranch := Master,
                  branchCommit := s.index.branchCommit[Master := root.id]),
         s.commits[root.id := root], s.blobs, s.work)
  }

  /** After `init` in a fresh directory there is one branch, `master`, at the
      root commit, which is also the head; the root has an empty snapshot, no
      parents and the message "initial commit"; nothing is staged or removed,
      and the state is valid. */
  lemma InitFromFresh(hash: Hash, epoch: string, files: map<Path, string>)
    ensures var s, root := InitStep(Fresh(files), hash, epoch), RootCommit(hash, InitialLog, epoch);
      && s.index.branchCommit == map[Master := root.id]
      && s.index.curBranch == Master
      && s.index.head == root.id
      && s.index.stagedBlob == map[] && s.index.removedBlob == {}
      && s.commits == map[root.id := root]
      && root.commitBlob == map[] && root.parent1 == "" && root.parent2 == ""
      && root.log == "initial commit"
      && s.blobs == map[] && s.work == files
      && Valid(s)
  {
    var s, root := InitStep(Fresh(files), hash, epoch), RootCommit(hash, InitialLog, epoch);
    assert History.Ranked(s.commits, map[root.id := 0]);
  }

  /** `log` right after `init` prints the root commit alone. */
  lemma InitLog(hash: Hash, epoch: string, files: map<Path, string>, rank: map<Id, nat>)
    requires History.Ranked(InitStep(Fresh(files), hash, epoch).commits, rank)
    ensures var s := InitStep(Fresh(files), hash, epoch);
      History.Chain(s.commits, rank, s.index.head) == [RootCommit(hash, InitialLog, epoch).id]
  {
    var s := InitStep(Fresh(files), hash, epoch);
    assert History.Chain(s.commits, rank, "") == [];
  }

  // ----------------------------------------------------------------- add

  /** `Add::exec`. */
  function AddStep(s: Repo, hash: Hash, file: Path): (r: Result)
    requires s.index.head in s.commits
    ensures r.Failure? <==> file !in s.work
    ensures r.Success? ==> file !in r.value.index.removedBlob && r.value.index.head == s.index.head
    ensures r.Success? ==> r.value.commits == s.commits && r.value.work == s.work
    ensures r.Success? ==> (file in r.value.index.stagedBlob <==> !HeadCommit(s).HasBlob(hash(s.work[file])))
  {
    if file !in s.work then Failure(CannotOpenFile)
    else
      var blob := NewBlob(hash, s.work[file]);
      var unmarked := s.index.(removedBlob := s.index.removedBlob - {file});
      if HeadCommit(s).HasBlob(blob.id) then
        Success(s.(index := unmarked.(stagedBlob := unmarked.stagedBlob - {file})))
      else
        var oldId := unmarked.StagedBlobID(file);
        var kept := if oldId != "" then s.blobs - {oldId} else s.blobs;
        Success(s.(index := unmarked.(stagedBlob := unmarked.stagedBlob[file := blob.id]),
                   blobs := kept[blob.id := blob]))
  }

  /** `add` fails exactly when the file cannot be read. */
  lemma AddFailure(s: Repo, hash: Hash, file: Path)
    requires s.index.head in s.commits
    ensures AddStep(s, hash, file).Failure? <==> file !in s.work
    ensures AddStep(s, hash, file).Failure? ==> AddStep(s, hash, file).error == CannotOpenFile
  {
  }

  /** `add` always clears the path's removal mark and never touches the head,
      the branches, the commits or the working files. */
  lemma AddFrame(s: Repo, hash: Hash, file: Path)
    requires s.index.head in s.commits && file in s.work
    ensures var t := AddStep(s, hash, file).value;
      && t.index.removedBlob == s.index.removedBlob - {file}
      && t.index.head == s.index.head && t.index.curBranch == s.index.curBranch
      && t.index.branchCommit == s.index.branchCommit && t.index.id == s.index.id
      && t.commits == s.commits && t.work == s.work
  {
  }

  /** When the content's id is some blob of the head commit, `add` unstages
      the path and stores nothing. */
  lemma AddCommittedContent(s: Repo, hash: Hash, file: Path)
    requires s.index.head in s.commits && file in s.work
    requires HeadCommit(s).HasBlob(hash(s.work[file]))
    ensures var t := AddStep(s, hash, file).value;
      t.index.stagedBlob == s.index.stagedBlob - {file} && t.blobs == s.blobs
  {
  }

  /** Otherwise `add` stages the content's id for the path, stores the blob
      under that id and deletes the blob the path had staged before; no other
      staged entry and no other stored blob changes. */
  lemma AddNewContent(s: Repo, hash: Hash, file: Path)
    requires s.index.head in s.commits && StagedIdsPresent(s.index) && file in s.work
    requires !HeadCommit(s).HasBlob(hash(s.work[file]))
    ensures var t, id := AddStep(s, hash, file).value, hash(s.work[file]);
      && t.index.stagedBlob == s.index.stagedBlob[file := id]
      && id in t.blobs && t.blobs[id] == Blob(id, s.work[file])
      && (forall b :: b in t.blobs <==>
            b == id || (b in s.blobs && !(file in s.index.stagedBlob && b == s.index.stagedBlob[file])))
      && (forall b :: b in t.blobs && b != id ==> t.blobs[b] == s.blobs[b])
  {
  }

  /** Adding content that is already staged for the path, or that matches the
      head commit for an unstaged path, leaves the index as it was. */
  lemma AddUnchangedContent(s: Repo, hash: Hash, file: Path)
    requires s.index.head in s.commits
    requires file in s.work && file !in s.index.removedBlob
    requires (file in s.index.stagedBlob && s.index.stagedBlob[file] == hash(s.work[file])
                && !HeadCommit(s).HasBlob(hash(s.work[file]))) ||
             (file !in s.index.stagedBlob && HeadCommit(s).HasBlob(hash(s.work[file])))
    ensures AddStep(s, hash, file).Success?
    ensures AddStep(s, hash, file).value.index == s.index
  {
    var idx := s.index;
    assert idx.removedBlob - {file} == idx.removedBlob;
    if file in idx.stagedBlob && idx.stagedBlob[file] == hash(s.work[file]) {
      assert idx.stagedBlob[file := hash(s.work[file])] == idx.stagedBlob;
    } else {
      assert idx.stagedBlob - {file} == idx.stagedBlob;
    }
  }

  /** `add` twice in a row (same working files) is the same as `add` once. */
  lemma AddTwice(s: Repo, hash: Hash, file: Path)
    requires s.index.head in s.commits
    requires AddStep(s, hash, file).Success?
    ensures AddStep(s, hash, file).value.index.head in AddStep(s, hash, file).value.commits
    ensures AddStep(AddStep(s, hash, file).value, hash, file) == AddStep(s, hash, file)
  {
    var t := AddStep(s, hash, file).value;
    var id := hash(s.work[file]);
    var blob := NewBlob(hash, s.work[file]);
    assert t.index.removedBlob - {file} == t.index.removedBlob;
    if HeadCommit(s).HasBlob(id) {
      assert t.index.stagedBlob - {file} == t.index.stagedBlob;
    } else {
      assert t.index.StagedBlobID(file) == id && id != "";
      assert t.index.stagedBlob[file := id] == t.index.stagedBlob;
      assert (t.blobs - {id})[id := blob] == t.blobs;
    }
  }

  /** As written, `add` deletes the previously staged blob from the store even
      when another staged path still names it: two files with the same content
      are staged, one of them changes and is added again, and the other's
      staged blob is gone from the store. */
  lemma AddDropsSharedBlob(hash: Hash, root: Commit)
    requires root.commitBlob == map[] && hash("x") != hash("y")
    ensures var s := Repo(Index("", root.id, Master, map[Master := root.id], {},
                                map["a" := hash("x"), "b" := hash("x")]),
                          map[root.id := root], map[hash("x") := Blob(hash("x"), "x")],
                          map["a" := "y", "b" := "x"]);
      var t := AddStep(s, hash, "a").value;
      AddStep(s, hash, "a").Success? &&
      t.index.stagedBlob["b"] == hash("x") && hash("x") !in t.blobs
  {
  }

  /** The same deletion also drops a blob that an earlier commit still names:
      "a" was committed as "y" and then as "w"; "y" was added again (its id
      is no blob of the head, so it is staged and stored); adding "a" once
      more with content "v" deletes the blob of "y" although the first
      commit's snapshot still maps "a" to it. */
  lemma AddDropsCommittedBlob(hash: Hash, first: Commit, head: Commit)
    requires first.commitBlob == map["a" := hash("y")]
    requires head.commitBlob == map["a" := hash("w")] && head.parent1 == first.id
    requires first.id != head.id
    requires hash("v") != hash("w") && hash("v") != hash("y")
    ensures var s := Repo(Index("", head.id, Master, map[Master := head.id], {}, map["a" := hash("y")]),
                          map[first.id := first, head.id := head],
                          map[hash("y") := Blob(hash("y"), "y"), hash("w") := Blob(hash("w"), "w")],
                          map["a" := "v"]);
      var t := AddStep(s, hash, "a").value;
      AddStep(s, hash, "a").Success? &&
      first.id in t.commits && t.commits[first.id].commitBlob["a"] == hash("y") && hash("y") !in t.blobs
  {
  }

  /** `add` keeps the repository invariant. */
  lemma AddPreservesValid(s: Repo, hash: Hash, file: Path)
    requires Valid(s)
    ensures AddStep(s, hash, file).Success? ==> Valid(AddStep(s, hash, file).value)
  {
    if file in s.work {
      var t := AddStep(s, hash, file).value;
      AddFrame(s, hash, file);
      if HeadCommit(s).HasBlob(hash(s.work[file])) {
        AddCommittedContent(s, hash, file);
      } else {
        AddNewContent(s, hash, file);
        assert |hash(s.work[file])| == IdLength;
      }
      StageChangeKeepsValid(s, t);
    }
  }

  // -------------------------------------------------------------- commit

  /** The snapshot of the next commit: the head's tracked files minus the
      paths marked removed, overlaid with the staged entries. */
  function NextSnapshot(idx: Index, head: Commit): (next: map<Path, Id>)
    ensures forall p :: p in next <==> p in idx.stagedBlob || (p in head.commitBlob && p !in idx.removedBlob)
    ensures forall p :: p in idx.stagedBlob ==> next[p] == idx.stagedBlob[p]
    ensures forall p :: p in next && p !in idx.stagedBlob ==> next[p] == head.commitBlob[p]
  {
    (map p | p in head.commitBlob && p !in idx.removedBlob :: head.commitBlob[p]) + idx.stagedBlob
  }

  /** The commit `commit` records: the next snapshot, the message, the clock
      reading and the old head as first parent. */
  function NewHead(s: Repo, hash: Hash, message: string, now: string, order: seq<Path>): (c: Commit)
    requires s.index.head in s.commits
    requires Enumerates(order, NextSnapshot(s.index, HeadCommit(s)).Keys)
    ensures c.commitBlob == NextSnapshot(s.index, HeadCommit(s))
    ensures c.parent1 == s.index.head && c.parent2 == ""
    ensures c.log == message && c.timestamp == now
    ensures forall i :: 0 <= i < |order| ==> order[i] in c.commitBlob
    ensures c.id == hash(message + now + BlobRef(c.commitBlob, order) + s.index.head + "")
  {
    var snapshot := NextSnapshot(s.index, HeadCommit(s));
    EnumeratedKeys(order, snapshot.Keys);
    CommitIdFormula(hash, message, snapshot, order, s.index.head, "", now);
    CommitRecord(hash, message, snapshot, order, s.index.head, "", now)
  }

  /** `CommitCmd::isLegal` then `CommitCmd::exec`; `now` is the clock reading
      and `order` the iteration order of the new snapshot's entries. */
  function CommitStep(s: Repo, hash: Hash, message: string, now: string, order: seq<Path>): (r: Result)
    requires s.index.head in s.commits
    requires Enumerates(order, NextSnapshot(s.index, HeadCommit(s)).Keys)
    ensures r.Failure? <==> message == "" || (s.index.stagedBlob == map[] && s.index.removedBlob == {})
    ensures r.Success? ==> r.value.index.head in r.value.commits && r.value.index.stagedBlob == map[]
    ensures r.Success? ==> r.value.commits[r.value.index.head].parent1 == s.index.head
    ensures r.Success? ==> r.value.commits[r.value.index.head].commitBlob == NextSnapshot(s.index, HeadCommit(s))
  {
    if message == "" then Failure(EmptyMessage)
    else if s.index.stagedBlob == map[] && s.index.removedBlob == {} then Failure(NoChanges)
    else
      Success(Advance(s, NewHead(s, hash, message, now, order)))
  }

  /** Stores `c`, moves the head and the current branch to it and empties the stage. */
  function Advance(s: Repo, c: Commit): (t: Repo)
    ensures t.index.head == c.id && c.id in t.commits && t.commits[c.id] == c
    ensures t.index.branchCommit == s.index.branchCommit[s.index.curBranch := c.id]
    ensures t.index.curBranch in t.index.branchCommit && t.index.branchCommit[t.index.curBranch] == t.index.head
    ensures t.index.stagedBlob == map[] && t.index.removedBlob == s.index.removedBlob
    ensures t.index.curBranch == s.index.curBranch && t.index.id == s.index.id
    ensures t.commits.Keys == s.commits.Keys + {c.id}
    ensures forall id :: id in s.commits && id != c.id ==> t.commits[id] == s.commits[id]
    ensures t.blobs == s.blobs && t.work == s.work
  {
    s.(index := s.index.(head := c.id,
                         branchCommit := s.index.branchCommit[s.index.curBranch := c.id],
                         stagedBlob := map[]),
       commits := s.commits[c.id := c])
  }

  /** `commit` fails exactly when the message is empty or nothing is staged
      or removed, and then says which. */
  lemma CommitFailure(s: Repo, hash: Hash, message: string, now: string, order: seq<Path>)
    requires s.index.head in s.commits
    requires Enumerates(order, NextSnapshot(s.index, HeadCommit(s)).Keys)
    ensures CommitStep(s, hash, message, now, order).Failure? <==>
            message == "" || (s.index.stagedBlob == map[] && s.index.removedBlob == {})
    ensures message == "" ==> CommitStep(s, hash, message, now, order) == Failure(EmptyMessage)
    ensures message != "" && s.index.stagedBlob == map[] && s.index.removedBlob == {} ==>
            CommitStep(s, hash, message, now, order) == Failure(NoChanges)
  {
  }

  /** What a successful `commit` does: the new head is the new commit, stored
      under its id; the current branch points at it and the other branches
      stay; the stage is empty; the removal marks, the earlier commits, the
      blobs and the working files are as before. */
  lemma CommitEffect(s: Repo, hash: Hash, message: string, now: string, order: seq<Path>)
    requires s.index.head in s.commits
    requires Enumerates(order, NextSnapshot(s.index, HeadCommit(s)).Keys)
    requires message != "" && (s.index.stagedBlob != map[] || s.index.removedBlob != {})
    ensures var t, c := CommitStep(s, hash, message, now, order).value, NewHead(s, hash, message, now, order);
      && t.index.head == c.id && c.id in t.commits && t.commits[c.id] == c
      && t.index.branchCommit == s.index.branchCommit[s.index.curBranch := c.id]
      && t.index.curBranch == s.index.curBranch && t.index.id == s.index.id
      && t.index.stagedBlob == map[]
      && t.index.removedBlob == s.index.removedBlob
      && (forall id :: id in s.commits && id != c.id ==> id in t.commits && t.commits[id] == s.commits[id])
      && t.blobs == s.blobs && t.work == s.work
  {
  }

  /** As written, `commit` leaves the removal marks in place: right after a
      commit that had removals, another commit is accepted although nothing
      changed since. */
  lemma CommitKeepsRemovals(s: Repo, hash: Hash, message: string, now: string, order: seq<Path>,
                            later: string, order2: seq<Path>)
    requires s.index.head in s.commits
    requires Enumerates(order, NextSnapshot(s.index, HeadCommit(s)).Keys)
    requires message != "" && s.index.removedBlob != {}
    ensures var t := CommitStep(s, hash, message, now, order).value;
      t.index.head in t.commits &&
      (Enumerates(order2, NextSnapshot(t.index, HeadCommit(t)).Keys) ==>
         CommitStep(t, hash, message, later, order2).Success?)
  {
  }

  /** `commit` keeps the repository invariant, provided the new id names no
      commit already stored (the digest does not collide). */
  lemma CommitPreservesValid(s: Repo, hash: Hash, message: string, now: string, order: seq<Path>)
    requires Valid(s)
    requires Enumerates(order, NextSnapshot(s.index, HeadCommit(s)).Keys)
    requires message != "" && (s.index.stagedBlob != map[] || s.index.removedBlob != {})
    requires NewHead(s, hash, message, now, order).id !in s.commits
    ensures Valid(CommitStep(s, hash, message, now, order).value)
  {
    AdvanceKeepsValid(s, NewHead(s, hash, message, now, order));
  }

  /** Storing a fresh commit on top of the head keeps the state valid. */
  lemma AdvanceKeepsValid(s: Repo, c: Commit)
    requires Valid(s) && c.id !in s.commits && c.parent1 == s.index.head
    ensures Valid(Advance(s, c))
  {
    var rank :| History.Ranked(s.commits, rank);
    RankExtends(s.commits, rank, c, rank[c.id := rank[s.index.head] + 1]);
  }

  /** Storing a fresh commit whose first parent is a stored commit, one rank
      above that parent, keeps the store ranked. */
  lemma RankExtends(commits: map<Id, Commit>, rank: map<Id, nat>, c: Commit, rank': map<Id, nat>)
    requires History.Ranked(commits, rank) && c.id !in commits
    requires c.parent1 in commits && rank' == rank[c.id := rank[c.parent1] + 1]
    ensures History.Ranked(commits[c.id := c], rank')
  {
  }

  // ------------------------------------------------------------------ rm

  /** `Rm::exec`. */
  function RmStep(s: Repo, hash: Hash, file: Path): (r: Result)
    requires s.index.head in s.commits
    ensures r.Failure? ==> file !in s.work || !HeadCommit(s).HasBlob(hash(s.work[file]))
    ensures r.Success? ==> r.value.index.StagedBlobID(file) == ""
    ensures r.Success? ==> r.value.commits == s.commits && r.value.index.head == s.index.head
    ensures r.Success? ==> file in s.work && (file in r.value.index.removedBlob <==>
                             file in s.index.removedBlob || HeadCommit(s).HasBlob(hash(s.work[file])))
  {
    if file !in s.work then Failure(CannotOpenFile)
    else
      var expected := NewBlob(hash, s.work[file]).id;
      var actual := s.index.StagedBlobID(file);
      var cur := HeadCommit(s);
      if actual == "" && !cur.HasBlob(expected) then Failure(NoReasonToRemove)
      else
        var unstaged := if actual != "" then s.index.(stagedBlob := s.index.stagedBlob - {file}) else s.index;
        if cur.HasBlob(expected) then
          Success(s.(index := unstaged.(removedBlob := unstaged.removedBlob + {file}),
                     work := s.work - {file}))
        else Success(s.(index := unstaged))
  }

  /** `rm` fails with "No reason to remove the file" exactly when the path is
      not staged and its content's id is no blob of the head commit. */
  lemma RmFailure(s: Repo, hash: Hash, file: Path)
    requires s.index.head in s.commits && StagedIdsPresent(s.index)
    requires file in s.work
    ensures RmStep(s, hash, file).Failure? <==>
            file !in s.index.stagedBlob && !HeadCommit(s).HasBlob(hash(s.work[file]))
    ensures RmStep(s, hash, file).Failure? ==> RmStep(s, hash, file).error == NoReasonToRemove
  {
    assert NewBlob(hash, s.work[file]).id == hash(s.work[file]);
  }

  /** What a successful `rm` does: the path ends unstaged and the other staged
      entries stay; when the head commit holds the content's id the path is
      marked removed and the working file deleted, otherwise the removal
      marks and the working files are untouched. Head, branches, commits and
      blobs never change. */
  lemma RmEffect(s: Repo, hash: Hash, file: Path)
    requires s.index.head in s.commits && StagedIdsPresent(s.index)
    requires RmStep(s, hash, file).Success?
    ensures var t, tracked := RmStep(s, hash, file).value, HeadCommit(s).HasBlob(hash(s.work[file]));
      && t.index.stagedBlob == s.index.stagedBlob - {file}
      && (tracked ==> t.index.removedBlob == s.index.removedBlob + {file} && t.work == s.work - {file})
      && (!tracked ==> t.index.removedBlob == s.index.removedBlob && t.work == s.work)
      && t.index.head == s.index.head && t.index.curBranch == s.index.curBranch
      && t.index.branchCommit == s.index.branchCommit && t.index.id == s.index.id
      && t.commits == s.commits && t.blobs == s.blobs
  {
    assert NewBlob(hash, s.work[file]).id == hash(s.work[file]);
    if file !in s.index.stagedBlob {
      assert s.index.stagedBlob - {file} == s.index.stagedBlob;
    }
  }

  /** As written, `rm` asks whether the content's id is a blob of the head
      commit under any path: an untracked file whose content equals a tracked
      file's is marked removed and deleted. */
  lemma RmUntrackedTwin(hash: Hash, root: Commit)
    requires root.commitBlob == map["a" := hash("x")]
    ensures var s := Repo(Index("", root.id, Master, map[Master := root.id], {}, map[]),
                          map[root.id := root], map[], map["a" := "x", "b" := "x"]);
      var r := RmStep(s, hash, "b");
      r.Success? && "b" !in root.commitBlob &&
      "b" in r.value.index.removedBlob && "b" !in r.value.work
  {
    assert Sha1(hash, ["x"]) == hash("x") by { assert Concat(["x"]) == "x" by { assert ["x"][1..] == []; } }
    assert root.commitBlob["a"] == hash("x");
  }

  /** `rm` keeps the repository invariant. */
  lemma RmPreservesValid(s: Repo, hash: Hash, file: Path)
    requires Valid(s)
    ensures RmStep(s, hash, file).Success? ==> Valid(RmStep(s, hash, file).value)
  {
    if RmStep(s, hash, file).Success? {
      RmEffect(s, hash, file);
      StageChangeKeepsValid(s, RmStep(s, hash, file).value);
    }
  }
}
