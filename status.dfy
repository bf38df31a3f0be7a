/** `status`: the branches, the staged paths, the paths marked removed, the
    modifications not staged for commit and the untracked files, each list
    sorted. The lists are built by walking unordered containers; sorting
    makes the report independent of that order. */
module Status {
  import opened Objects
  import opened GitletIndex
  import opened Repository
  import opened Lexicographic
  import opened Utils

  const Deleted := " (deleted)"
  const Modified := " (modified)"

  /** What `status` prints, list by list (the section headers and the `*`
      before the current branch are formatting). */
  datatype Report = Report(branches: seq<string>, curBranch: string,
                           staged: seq<Path>, removed: seq<Path>,
                           modified: seq<string>, untracked: seq<Path>)

  /** The line for a path in the modifications section. */
  function Note(work: map<Path, string>, p: Path): string
  {
    if p in work then p + Modified else p + Deleted
  }

  /** Staged paths whose working file is gone or no longer has the staged content. */
  ghost function StagedChanged(idx: Index, work: map<Path, string>, hash: Hash): set<Path>
  {
    set p | p in idx.stagedBlob && (p !in work || hash(work[p]) != idx.stagedBlob[p])
  }

  /** Tracked paths whose working file is gone, or changed and not staged. */
  ghost function TrackedChanged(idx: Index, head: Commit, work: map<Path, string>, hash: Hash): set<Path>
  {
    set p | p in head.commitBlob &&
      (p !in work || (hash(work[p]) != head.commitBlob[p] && p !in idx.stagedBlob))
  }

  /** The lines for the paths of `dom` that are in `changed`. */
  ghost function Notes(work: map<Path, string>, dom: set<Path>, changed: set<Path>): set<string>
  {
    set p | p in dom && p in changed :: Note(work, p)
  }

  /** Working files neither staged nor tracked by the head commit. */
  ghost function Untracked(idx: Index, head: Commit, work: map<Path, string>): set<Path>
  {
    set p | p in work && p !in idx.stagedBlob && p !in head.commitBlob
  }

  /** The modifications section as a multiset: the staged loop's lines and
      the tracked loop's lines together. */
  ghost function ModifiedLines(idx: Index, head: Commit, work: map<Path, string>, hash: Hash): multiset<string>
  {
    multiset(Notes(work, idx.stagedBlob.Keys, StagedChanged(idx, work, hash))) +
    multiset(Notes(work, head.commitBlob.Keys, TrackedChanged(idx, head, work, hash)))
  }

  /** Distinct paths give distinct lines, and a line tells its kind. */
  lemma NoteInjective(work: map<Path, string>, p: Path, q: Path)
    requires Note(work, p) == Note(work, q)
    ensures p == q
  {
    var x := Note(work, p);
    if (p in work) == (q in work) {
      assert |p| == |q|;
      assert p == x[..|p|] == q;
    } else {
      LinesDiffer(if p in work then p else q, if p in work then q else p);
    }
  }

  /** A modified line is never a deleted line: they differ four characters
      from the end, or in length. */
  lemma LinesDiffer(m: Path, d: Path)
    ensures m + Modified != d + Deleted
  {
    var x, y := m + Modified, d + Deleted;
    assert x[|x| - 4] == 'i';
    assert y[|y| - 4] == 't';
  }

  /** The line for `p` is in the notes exactly when `p` is one of them. */
  lemma {:induction false} NoteIn(work: map<Path, string>, dom: set<Path>, changed: set<Path>, p: Path)
    ensures Note(work, p) in Notes(work, dom, changed) <==> p in dom && p in changed
  {
    if Note(work, p) in Notes(work, dom, changed) {
      var q :| q in dom && q in changed && Note(work, q) == Note(work, p);
      NoteInjective(work, p, q);
    }
  }

  /** One more path of the domain adds its line when it has one, and that line is new. */
  lemma NotesGrow(work: map<Path, string>, dom: set<Path>, changed: set<Path>, p: Path)
    requires p !in dom
    ensures multiset(Notes(work, dom + {p}, changed)) ==
            multiset(Notes(work, dom, changed)) + (if p in changed then multiset{Note(work, p)} else multiset{})
  {
    NoteIn(work, dom, changed, p);
    if p in changed {
      assert Notes(work, dom + {p}, changed) == Notes(work, dom, changed) + {Note(work, p)};
    } else {
      assert Notes(work, dom + {p}, changed) == Notes(work, dom, changed);
    }
  }

  /** `Status::toVector` on a map: its keys, in the map's order. */
  method KeysOf(m: map<string, string>) returns (v: seq<string>)
    ensures multiset(v) == multiset(m.Keys)
  {
    v := [];
    var todo := m.Keys;
    while todo != {}
      invariant todo <= m.Keys
      invariant multiset(v) == multiset(m.Keys - todo)
      decreases todo
    {
      var k :| k in todo;
      assert m.Keys - (todo - {k}) == (m.Keys - todo) + {k};
      v := v + [k];
      todo := todo - {k};
    }
  }

  /** `Status::toVector` on a set: its elements, in the set's order. */
  method ElementsOf(s: set<string>) returns (v: seq<string>)
    ensures multiset(v) == multiset(s)
  {
    v := [];
    var todo := s;
    while todo != {}
      invariant todo <= s
      invariant multiset(v) == multiset(s - todo)
      decreases todo
    {
      var k :| k in todo;
      assert s - (todo - {k}) == (s - todo) + {k};
      v := v + [k];
      todo := todo - {k};
    }
  }

  /** The loop of `Status::exec` over the staged entries. */
  method StagedNotes(stagedBlob: map<Path, Id>, work: map<Path, string>, hash: Hash, ghost changed: set<Path>)
    returns (v: seq<string>)
    requires forall p :: p in changed <==> p in stagedBlob && (p !in work || hash(work[p]) != stagedBlob[p])
    ensures multiset(v) == multiset(Notes(work, stagedBlob.Keys, changed))
  {
    v := [];
    var todo := stagedBlob.Keys;
    while todo != {}
      invariant todo <= stagedBlob.Keys
      invariant multiset(v) == multiset(Notes(work, stagedBlob.Keys - todo, changed))
      decreases todo
    {
      var p :| p in todo;
      NotesGrow(work, stagedBlob.Keys - todo, changed, p);
      assert stagedBlob.Keys - (todo - {p}) == (stagedBlob.Keys - todo) + {p};
      if p !in work {
        v := v + [p + Deleted];
      } else {
        var blob := NewBlob(hash, work[p]);
        if blob.id != stagedBlob[p] {
          v := v + [p + Modified];
        }
      }
      todo := todo - {p};
    }
    assert stagedBlob.Keys - {} == stagedBlob.Keys;
  }

  /** The loop of `Status::exec` over the head commit's entries. */
  method TrackedNotes(commitBlob: map<Path, Id>, stagedBlob: map<Path, Id>, work: map<Path, string>,
                      hash: Hash, ghost changed: set<Path>)
    returns (v: seq<string>)
    requires forall p :: p in changed <==>
      (p in commitBlob && (p !in work || (hash(work[p]) != commitBlob[p] && p !in stagedBlob)))
    ensures multiset(v) == multiset(Notes(work, commitBlob.Keys, changed))
  {
    v := [];
    var todo := commitBlob.Keys;
    while todo != {}
      invariant todo <= commitBlob.Keys
      invariant multiset(v) == multiset(Notes(work, commitBlob.Keys - todo, changed))
      decreases todo
    {
      var p :| p in todo;
      NotesGrow(work, commitBlob.Keys - todo, changed, p);
      assert commitBlob.Keys - (todo - {p}) == (commitBlob.Keys - todo) + {p};
      if p !in work {
        v := v + [p + Deleted];
      } else {
        var blob := NewBlob(hash, work[p]);
        if blob.id != commitBlob[p] && p !in stagedBlob {
          v := v + [p + Modified];
        }
      }
      todo := todo - {p};
    }
    assert commitBlob.Keys - {} == commitBlob.Keys;
  }

  /** The loop of `Status::exec` over the working directory. */
  method UntrackedFiles(stagedBlob: map<Path, Id>, commitBlob: map<Path, Id>, work: map<Path, string>,
                        ghost untracked: set<Path>)
    returns (v: seq<Path>)
    requires forall p :: p in untracked <==> p in work && p !in stagedBlob && p !in commitBlob
    ensures multiset(v) == multiset(untracked)
  {
    v := [];
    var todo := work.Keys;
    while todo != {}
      invariant todo <= work.Keys
      invariant multiset(v) == multiset(untracked - todo)
      decreases todo
    {
      var p :| p in todo;
      ghost var done := untracked - todo;
      if p !in stagedBlob && p !in commitBlob {
        assert p in untracked && p !in done;
        assert untracked - (todo - {p}) == done + {p};
        v := v + [p];
      } else {
        assert p !in untracked;
        assert untracked - (todo - {p}) == done;
      }
      todo := todo - {p};
    }
    assert untracked - {} == untracked;
  }

  /** `Status::exec`: every list is sorted and holds exactly the expected
      entries; the modifications list holds a line for each changed staged
      path and one for each changed tracked path. */
  method Status(git: Gitlet, disk: Disk, hash: Hash) returns (report: Report)
    requires git.head in disk.commits
    ensures var head := disk.commits[git.head];
      && report.curBranch == git.curBranch
      && Sorted(report.branches) && multiset(report.branches) == multiset(git.branchCommit.Keys)
      && Sorted(report.staged) && multiset(report.staged) == multiset(git.stagedBlob.Keys)
      && Sorted(report.removed) && multiset(report.removed) == multiset(git.removedBlob)
      && Sorted(report.modified) && multiset(report.modified) == ModifiedLines(git.Model(), head, disk.work, hash)
      && Sorted(report.untracked) && multiset(report.untracked) == multiset(Untracked(git.Model(), head, disk.work))
  {
    var bc := KeysOf(git.GetBranchCommit());
    var sb := KeysOf(git.GetStagedBlob());
    var rb := ElementsOf(git.GetRemovedBlob());
    var stagedBlob := git.GetStagedBlob();
    var staged := StagedNotes(stagedBlob, disk.work, hash, StagedChanged(git.Model(), disk.work, hash));
    var head := disk.commits[git.GetHead()];
    var tracked := TrackedNotes(head.commitBlob, stagedBlob, disk.work, hash,
                                TrackedChanged(git.Model(), head, disk.work, hash));
    var ut := UntrackedFiles(stagedBlob, head.commitBlob, disk.work, Untracked(git.Model(), head, disk.work));
    report := Report(Sort(bc), git.GetCurBranch(), Sort(sb), Sort(rb), Sort(staged + tracked), Sort(ut));
  }

  /** A staged path is listed exactly when its file is gone (as deleted) or
      has other content than staged (as modified). */
  lemma StagedLine(idx: Index, head: Commit, work: map<Path, string>, hash: Hash, p: Path)
    requires p in idx.stagedBlob
    ensures Note(work, p) in Notes(work, idx.stagedBlob.Keys, StagedChanged(idx, work, hash)) <==>
            p !in work || hash(work[p]) != idx.stagedBlob[p]
  {
    NoteIn(work, idx.stagedBlob.Keys, StagedChanged(idx, work, hash), p);
  }

  /** A tracked path is listed exactly when its file is gone (as deleted), or
      has other content than committed and is not staged (as modified). */
  lemma TrackedLine(idx: Index, head: Commit, work: map<Path, string>, hash: Hash, p: Path)
    requires p in head.commitBlob
    ensures Note(work, p) in Notes(work, head.commitBlob.Keys, TrackedChanged(idx, head, work, hash)) <==>
            p !in work || (hash(work[p]) != head.commitBlob[p] && p !in idx.stagedBlob)
  {
    NoteIn(work, head.commitBlob.Keys, TrackedChanged(idx, head, work, hash), p);
  }

  /** A path that is neither staged nor tracked never gets a modifications line. */
  lemma UnknownPathHasNoLine(idx: Index, head: Commit, work: map<Path, string>, hash: Hash, p: Path)
    requires p !in idx.stagedBlob && p !in head.commitBlob
    ensures ModifiedLines(idx, head, work, hash)[Note(work, p)] == 0
  {
    NoteIn(work, idx.stagedBlob.Keys, StagedChanged(idx, work, hash), p);
    NoteIn(work, head.commitBlob.Keys, TrackedChanged(idx, head, work, hash), p);
  }

  /** With nothing staged and every tracked file present with its committed
      content, the modifications list is empty. */
  lemma {:induction false} CleanTreeHasNoModifications(idx: Index, head: Commit, work: map<Path, string>, hash: Hash)
    requires idx.stagedBlob == map[]
    requires forall p :: p in head.commitBlob ==> p in work && hash(work[p]) == head.commitBlob[p]
    ensures ModifiedLines(idx, head, work, hash) == multiset{}
  {
    assert TrackedChanged(idx, head, work, hash) == {};
    assert Notes(work, head.commitBlob.Keys, {}) == {};
    assert Notes(work, idx.stagedBlob.Keys, StagedChanged(idx, work, hash)) == {};
  }

  /** As written, a path that is both staged and tracked and whose file is
      gone is listed twice as deleted: once by each loop. */
  lemma DeletedListedTwice(idx: Index, head: Commit, work: map<Path, string>, hash: Hash, p: Path)
    requires p in idx.stagedBlob && p in head.commitBlob && p !in work
    ensures ModifiedLines(idx, head, work, hash)[p + Deleted] == 2
  {
    StagedLine(idx, head, work, hash, p);
    TrackedLine(idx, head, work, hash, p);
  }
}
