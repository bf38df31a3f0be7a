/** The history walks: `Log` follows the first-parent chain from the head,
    `GlobalLog` follows every branch's chain and prints each commit once. */
module History {
  import opened Objects
  import opened GitletIndex

  /** A store whose first-parent links all lead to stored commits and strictly
      lower a rank, so every chain ends. */
  ghost predicate Ranked(commits: map<Id, Commit>, rank: map<Id, nat>)
  {
    forall id :: id in commits ==>
      id in rank &&
      (commits[id].parent1 != "" ==>
         commits[id].parent1 in commits && commits[id].parent1 in rank &&
         rank[commits[id].parent1] < rank[id])
  }

  ghost function Measure(rank: map<Id, nat>, id: Id): nat
  {
    if id != "" && id in rank then rank[id] + 1 else 0
  }

  /** The first-parent chain from `id` down to the root. */
  ghost function Chain(commits: map<Id, Commit>, rank: map<Id, nat>, id: Id): seq<Id>
    requires Ranked(commits, rank)
    requires id == "" || id in commits
    decreases Measure(rank, id)
  {
    if id == "" then [] else [id] + Chain(commits, rank, commits[id].parent1)
  }

  /** The chain starts at `id`, holds stored commits only, each element is the
      first parent of the one before, and the last one is a root. */
  lemma {:induction false} ChainShape(commits: map<Id, Commit>, rank: map<Id, nat>, id: Id)
    requires Ranked(commits, rank)
    requires id == "" || id in commits
    ensures var r := Chain(commits, rank, id);
      (id == "" <==> r == []) &&
      (id != "" ==> r[0] == id) &&
      (forall i :: 0 <= i < |r| ==> r[i] in commits) &&
      (forall i :: 0 <= i < |r| - 1 ==> r[i + 1] == commits[r[i]].parent1) &&
      (r != [] ==> commits[r[|r| - 1]].parent1 == "")
    decreases Measure(rank, id)
  {
    if id != "" {
      var p := commits[id].parent1;
      ChainShape(commits, rank, p);
      var t := Chain(commits, rank, p);
      assert Chain(commits, rank, id) == [id] + t;
      if t != [] {
        assert t[0] == p;
      }
    }
  }

  /** Every commit on the chain from `id` ranks no higher than `id`. */
  lemma {:induction false} ChainBelow(commits: map<Id, Commit>, rank: map<Id, nat>, id: Id)
    requires Ranked(commits, rank)
    requires id == "" || id in commits
    ensures forall x :: x in Chain(commits, rank, id) ==> x in rank && Measure(rank, x) <= Measure(rank, id)
    decreases Measure(rank, id)
  {
    if id != "" {
      ChainBelow(commits, rank, commits[id].parent1);
    }
  }

  /** No element appears twice. */
  ghost predicate Distinct(s: seq<Id>)
  {
    forall i, j :: 0 <= i < j < |s| ==> s[i] != s[j]
  }

  /** No commit appears twice in a chain. */
  lemma {:induction false} ChainDistinct(commits: map<Id, Commit>, rank: map<Id, nat>, id: Id)
    requires Ranked(commits, rank)
    requires id == "" || id in commits
    ensures Distinct(Chain(commits, rank, id))
    decreases Measure(rank, id)
  {
    if id != "" {
      var p := commits[id].parent1;
      ChainDistinct(commits, rank, p);
      ChainBelow(commits, rank, p);
      var r, t := Chain(commits, rank, id), Chain(commits, rank, p);
      assert id !in t;
      assert r == [id] + t;
      forall i, j | 0 <= i < j < |r| ensures r[i] != r[j] {
        assert r[j] == t[j - 1];
        if i > 0 {
          assert r[i] == t[i - 1];
          assert t[i - 1] != t[j - 1];
        } else {
          assert r[i] == id;
          assert t[j - 1] in t;
        }
      }
    }
  }

  /** The chain seen as a set. */
  ghost function Ancestors(commits: map<Id, Commit>, rank: map<Id, nat>, id: Id): set<Id>
    requires Ranked(commits, rank)
    requires id == "" || id in commits
  {
    set x | x in Chain(commits, rank, id)
  }

  /** A set of commits that holds the first parent of each of its members. */
  ghost predicate Closed(commits: map<Id, Commit>, visited: set<Id>)
  {
    forall v :: v in visited ==>
      v in commits && (commits[v].parent1 == "" || commits[v].parent1 in visited)
  }

  lemma {:induction false} AncestorsInClosed(commits: map<Id, Commit>, rank: map<Id, nat>,
                                             visited: set<Id>, id: Id)
    requires Ranked(commits, rank) && Closed(commits, visited)
    requires id == "" || id in visited
    ensures Ancestors(commits, rank, id) <= visited
    decreases Measure(rank, id)
  {
    if id != "" {
      AncestorsInClosed(commits, rank, visited, commits[id].parent1);
    }
  }

  lemma {:induction false} AncestorsClosed(commits: map<Id, Commit>, rank: map<Id, nat>, id: Id)
    requires Ranked(commits, rank)
    requires id == "" || id in commits
    ensures Closed(commits, Ancestors(commits, rank, id))
    decreases Measure(rank, id)
  {
    if id != "" {
      var p := commits[id].parent1;
      AncestorsClosed(commits, rank, p);
      ChainShape(commits, rank, p);
      assert Ancestors(commits, rank, id) == {id} + Ancestors(commits, rank, p);
    }
  }

  /** One branch of `GlobalLog`: the chain from `id`, cut at the first commit
      already in `visited`. */
  ghost function Walk(commits: map<Id, Commit>, rank: map<Id, nat>, visited: set<Id>, id: Id): seq<Id>
    requires Ranked(commits, rank)
    requires id == "" || id in commits
    decreases Measure(rank, id)
  {
    if id == "" || id in visited then [] else [id] + Walk(commits, rank, visited, commits[id].parent1)
  }

  /** A walk is the longest prefix of the chain that avoids `visited`: it is a
      prefix, none of its commits was visited, and where it stops short of the
      root the next commit on the chain was visited. */
  lemma {:induction false} WalkIsCutChain(commits: map<Id, Commit>, rank: map<Id, nat>,
                                          visited: set<Id>, id: Id)
    requires Ranked(commits, rank)
    requires id == "" || id in commits
    ensures var w, r := Walk(commits, rank, visited, id), Chain(commits, rank, id);
      |w| <= |r| && w == r[..|w|] &&
      (forall x :: x in w ==> x !in visited) &&
      (|w| < |r| ==> r[|w|] in visited)
    decreases Measure(rank, id)
  {
    if id != "" && id !in visited {
      WalkIsCutChain(commits, rank, visited, commits[id].parent1);
    }
  }

  /** Over a closed visited set, a walk adds exactly the ancestors not yet visited. */
  lemma {:induction false} WalkCompletes(commits: map<Id, Commit>, rank: map<Id, nat>,
                                         visited: set<Id>, id: Id)
    requires Ranked(commits, rank) && Closed(commits, visited)
    requires id == "" || id in commits
    ensures visited + (set x | x in Walk(commits, rank, visited, id)) ==
            visited + Ancestors(commits, rank, id)
    decreases Measure(rank, id)
  {
    if id != "" {
      if id in visited {
        AncestorsInClosed(commits, rank, visited, id);
      } else {
        var p := commits[id].parent1;
        WalkCompletes(commits, rank, visited, p);
        assert Ancestors(commits, rank, id) == {id} + Ancestors(commits, rank, p);
        assert (set x | x in Walk(commits, rank, visited, id)) ==
               {id} + (set x | x in Walk(commits, rank, visited, p));
      }
    }
  }

  /** Marking a commit outside the chain as visited does not change the walk. */
  lemma {:induction false} WalkIgnores(commits: map<Id, Commit>, rank: map<Id, nat>,
                                       visited: set<Id>, id: Id, extra: Id)
    requires Ranked(commits, rank)
    requires id == "" || id in commits
    requires extra !in Chain(commits, rank, id)
    ensures Walk(commits, rank, visited + {extra}, id) == Walk(commits, rank, visited, id)
    decreases Measure(rank, id)
  {
    if id != "" && id !in visited {
      WalkIgnores(commits, rank, visited, commits[id].parent1, extra);
    }
  }

  /** Every branch points at a stored commit (or nowhere). */
  ghost predicate BranchesStored(commits: map<Id, Commit>, branchCommit: map<string, Id>)
  {
    forall b :: b in branchCommit ==> branchCommit[b] == "" || branchCommit[b] in commits
  }

  /** `GlobalLog::exec`: the branches' walks in `order`, each one starting from
      the commits visited so far; yields the printed ids and the final visited set. */
  ghost function GlobalWalk(commits: map<Id, Commit>, rank: map<Id, nat>,
                            branchCommit: map<string, Id>, order: seq<string>,
                            visited: set<Id>): (r: (seq<Id>, set<Id>))
    requires Ranked(commits, rank) && BranchesStored(commits, branchCommit)
    requires forall i :: 0 <= i < |order| ==> order[i] in branchCommit
    ensures visited <= r.1
    ensures forall x :: x in r.0 ==> x in r.1
    decreases |order|
  {
    if order == [] then ([], visited)
    else
      var w := Walk(commits, rank, visited, branchCommit[order[0]]);
      var rest := GlobalWalk(commits, rank, branchCommit, order[1..], visited + (set x | x in w));
      (w + rest.0, rest.1)
  }

  /** The commits reachable from the listed branches by first parents. */
  ghost function Reachable(commits: map<Id, Commit>, rank: map<Id, nat>,
                           branchCommit: map<string, Id>, order: seq<string>): set<Id>
    requires Ranked(commits, rank) && BranchesStored(commits, branchCommit)
    requires forall i :: 0 <= i < |order| ==> order[i] in branchCommit
    decreases |order|
  {
    if order == [] then {}
    else Ancestors(commits, rank, branchCommit[order[0]]) + Reachable(commits, rank, branchCommit, order[1..])
  }

  lemma {:induction false} WalkFresh(commits: map<Id, Commit>, rank: map<Id, nat>,
                                     visited: set<Id>, id: Id)
    requires Ranked(commits, rank)
    requires id == "" || id in commits
    ensures Distinct(Walk(commits, rank, visited, id))
    ensures forall x :: x in Walk(commits, rank, visited, id) ==> x !in visited
  {
    WalkIsCutChain(commits, rank, visited, id);
    ChainDistinct(commits, rank, id);
    var w, r := Walk(commits, rank, visited, id), Chain(commits, rank, id);
    forall i, j | 0 <= i < j < |w| ensures w[i] != w[j] {
      assert w[i] == r[i] && w[j] == r[j];
    }
  }

  /** GlobalLog prints each commit at most once, never one visited before, and
      its visited set grows by exactly the printed commits. */
  lemma {:induction false} GlobalWalkOnce(commits: map<Id, Commit>, rank: map<Id, nat>,
                                          branchCommit: map<string, Id>, order: seq<string>,
                                          visited: set<Id>)
    requires Ranked(commits, rank) && BranchesStored(commits, branchCommit)
    requires forall i :: 0 <= i < |order| ==> order[i] in branchCommit
    ensures Distinct(GlobalWalk(commits, rank, branchCommit, order, visited).0)
    ensures forall x :: x in GlobalWalk(commits, rank, branchCommit, order, visited).0 ==> x !in visited
    ensures GlobalWalk(commits, rank, branchCommit, order, visited).1 ==
            visited + (set x | x in GlobalWalk(commits, rank, branchCommit, order, visited).0)
    decreases |order|
  {
    if order != [] {
      var w := Walk(commits, rank, visited, branchCommit[order[0]]);
      var v1 := visited + (set x | x in w);
      GlobalWalkOnce(commits, rank, branchCommit, order[1..], v1);
      WalkFresh(commits, rank, visited, branchCommit[order[0]]);
      var rest := GlobalWalk(commits, rank, branchCommit, order[1..], v1);
      var out := w + rest.0;
      forall i, j | 0 <= i < j < |out| ensures out[i] != out[j] {
        if j >= |w| && i < |w| {
          assert out[i] in v1;
          assert out[j] == rest.0[j - |w|];
        }
      }
      assert (set x | x in out) == (set x | x in w) + (set x | x in rest.0);
    }
  }

  /** Starting from a closed visited set (the empty set in particular), the
      final visited set is the visited set plus every commit reachable from
      the branches. */
  lemma {:induction false} GlobalWalkReaches(commits: map<Id, Commit>, rank: map<Id, nat>,
                                             branchCommit: map<string, Id>, order: seq<string>,
                                             visited: set<Id>)
    requires Ranked(commits, rank) && BranchesStored(commits, branchCommit)
    requires forall i :: 0 <= i < |order| ==> order[i] in branchCommit
    requires Closed(commits, visited)
    ensures GlobalWalk(commits, rank, branchCommit, order, visited).1 ==
            visited + Reachable(commits, rank, branchCommit, order)
    decreases |order|
  {
    if order != [] {
      var id := branchCommit[order[0]];
      var w := Walk(commits, rank, visited, id);
      var v1 := visited + (set x | x in w);
      WalkCompletes(commits, rank, visited, id);
      AncestorsClosed(commits, rank, id);
      assert v1 == visited + Ancestors(commits, rank, id);
      assert Closed(commits, v1);
      GlobalWalkReaches(commits, rank, branchCommit, order[1..], v1);
    }
  }

  /** One step of `GlobalWalk` taken from position `k` of the branch order:
      if `out` followed by the walk from `k` gives `total`, then `out` and the
      walk of branch `k` followed by the walk from `k + 1` gives it too. */
  lemma GlobalWalkAdvance(commits: map<Id, Commit>, rank: map<Id, nat>,
                          branchCommit: map<string, Id>, order: seq<string>, k: nat,
                          visited: set<Id>, w: seq<Id>, out: seq<Id>, total: (seq<Id>, set<Id>))
    requires Ranked(commits, rank) && BranchesStored(commits, branchCommit)
    requires forall i :: 0 <= i < |order| ==> order[i] in branchCommit
    requires k < |order|
    requires total.0 == out + GlobalWalk(commits, rank, branchCommit, order[k..], visited).0
    requires total.1 == GlobalWalk(commits, rank, branchCommit, order[k..], visited).1
    requires w == Walk(commits, rank, visited, branchCommit[order[k]])
    ensures total.0 == (out + w) + GlobalWalk(commits, rank, branchCommit, order[k + 1..], visited + (set x | x in w)).0
    ensures total.1 == GlobalWalk(commits, rank, branchCommit, order[k + 1..], visited + (set x | x in w)).1
  {
    assert order[k..][1..] == order[k + 1..];
    assert order[k..][0] == order[k];
    var next := GlobalWalk(commits, rank, branchCommit, order[k + 1..], visited + (set x | x in w));
    assert GlobalWalk(commits, rank, branchCommit, order[k..], visited) == (w + next.0, next.1);
    assert out + (w + next.0) == (out + w) + next.0;
  }

  /** `Log::exec`: prints the head and then each first parent until the root. */
  method Log(git: Gitlet, commits: map<Id, Commit>, ghost rank: map<Id, nat>) returns (out: seq<Id>)
    requires Ranked(commits, rank)
    requires git.head == "" || git.head in commits
    ensures out == Chain(commits, rank, git.head)
  {
    var id := git.GetHead();
    out := [];
    while id != ""
      invariant id == "" || id in commits
      invariant out + Chain(commits, rank, id) == Chain(commits, rank, git.head)
      decreases Measure(rank, id)
    {
      out := out + [id];
      var cur := commits[id];
      id := cur.parent1;
    }
  }

  /** `GlobalLog`, whose member set `commits` records the printed ids. */
  class GlobalLog {
    var commits: set<Id>

    constructor ()
      ensures commits == {}
    {
      commits := {};
    }

    /** `isVisited`: the commit was printed already. */
    predicate IsVisited(id: Id)
      reads this
      ensures IsVisited(id) ==> commits != {}
    {
      id in commits
    }

    method AddCommits(id: Id)
      modifies this
      ensures commits == old(commits) + {id}
    {
      commits := commits + {id};
    }

    /** The inner loop of `exec` for one branch: prints (returns) the chain
        from `start` up to the first visited commit, marking each as visited. */
    method WalkBranch(store: map<Id, Commit>, start: Id, ghost rank: map<Id, nat>)
      returns (seg: seq<Id>)
      requires Ranked(store, rank)
      requires start == "" || start in store
      modifies this
      ensures seg == Walk(store, rank, old(commits), start)
      ensures commits == old(commits) + (set x | x in seg)
    {
      var id := start;
      seg := [];
      while id != ""
        invariant id == "" || id in store
        invariant commits == old(commits) + (set x | x in seg)
        invariant seg + Walk(store, rank, commits, id) == Walk(store, rank, old(commits), start)
        decreases Measure(rank, id)
      {
        if !IsVisited(id) {
          var p := store[id].parent1;
          ChainBelow(store, rank, p);
          WalkIgnores(store, rank, commits, p, id);
          AddCommits(id);
          seg := seg + [id];
          id := p;
        } else {
          break;
        }
      }
    }

    /** Walks every branch, in the map's iteration order `order`. */
    method Exec(git: Gitlet, store: map<Id, Commit>, order: seq<string>, ghost rank: map<Id, nat>)
      returns (out: seq<Id>)
      requires Ranked(store, rank) && BranchesStored(store, git.branchCommit)
      requires Enumerates(order, git.branchCommit.Keys)
      modifies this
      ensures forall i :: 0 <= i < |order| ==> order[i] in git.branchCommit
      ensures out == GlobalWalk(store, rank, git.branchCommit, order, old(commits)).0
      ensures commits == GlobalWalk(store, rank, git.branchCommit, order, old(commits)).1
    {
      var branchCommit := git.GetBranchCommit();
      EnumeratedKeys(order, branchCommit.Keys);
      ghost var total := GlobalWalk(store, rank, branchCommit, order, commits);
      out := [];
      var k := 0;
      assert order[k..] == order;
      while k < |order|
        invariant 0 <= k <= |order|
        invariant total.0 == out + GlobalWalk(store, rank, branchCommit, order[k..], commits).0
        invariant total.1 == GlobalWalk(store, rank, branchCommit, order[k..], commits).1
      {
        ghost var visited := commits;
        var seg := WalkBranch(store, branchCommit[order[k]], rank);
        GlobalWalkAdvance(store, rank, branchCommit, order, k, visited, seg, out, total);
        out := out + seg;
        k := k + 1;
      }
      assert out + [] == out;
    }
  }
}
