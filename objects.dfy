/** The stored objects: blobs (file contents) and commits (snapshots), each
    named by a digest of what it holds. */
module Objects {
  import opened Utils

  type Id = string
  type Path = string

  /** A stored file content and its id. */
  datatype Blob = Blob(id: Id, content: string)

  /** A snapshot: message, time, path -> blob id map and the two parent ids
      (the empty string where there is no parent). */
  datatype Commit = Commit(id: Id, log: string, timestamp: string,
                           commitBlob: map<Path, Id>, parent1: Id, parent2: Id)
  {
    /** Some tracked path maps to `blobId` (a test on values, not on paths). */
    predicate HasBlob(blobId: Id)
    {
      blobId in commitBlob.Values
    }
  }

  /** `Blob(content)`: the id is the digest of the content alone. */
  function NewBlob(hash: Hash, content: string): (b: Blob)
    ensures b.content == content && b.id == hash(content)
  {
    assert Concat([content]) == content by { assert [content][1..] == []; }
    Blob(Sha1(hash, [content]), content)
  }

  /** Content addressing: equal contents get equal ids, and with a
      collision-free digest equal ids mean equal contents. */
  lemma BlobIdentity(hash: Hash, c1: string, c2: string)
    ensures c1 == c2 ==> NewBlob(hash, c1).id == NewBlob(hash, c2).id
    ensures Injective(hash) && NewBlob(hash, c1).id == NewBlob(hash, c2).id ==> c1 == c2
  {
  }

  /** The root constructor `Commit(log)`: empty snapshot, no parents, and the id
      digests the message, the epoch timestamp and the two empty parents. */
  function RootCommit(hash: Hash, log: string, epoch: string): (c: Commit)
    ensures c.log == log && c.timestamp == epoch
    ensures c.commitBlob == map[] && c.parent1 == "" && c.parent2 == ""
    ensures c.id == hash(log + epoch)
  {
    assert Concat([log, epoch, "", ""]) == log + epoch by {
      ConcatCons("", []);
      assert ["", ""] == [""] + [""];
      ConcatCons("", [""]);
      assert [epoch, "", ""] == [epoch] + ["", ""];
      ConcatCons(epoch, ["", ""]);
      assert [log, epoch, "", ""] == [log] + [epoch, "", ""];
      ConcatCons(log, [epoch, "", ""]);
    }
    Commit(Sha1(hash, [log, epoch, "", ""]), log, epoch, map[], "", "")
  }

  /** `order` lists every key of the map exactly once: the order in which the
      hash map hands out its entries. */
  ghost predicate Enumerates(order: seq<Path>, keys: set<Path>)
  {
    multiset(order) == multiset(keys)
  }

  lemma EnumeratedKey(order: seq<Path>, keys: set<Path>, i: int)
    requires Enumerates(order, keys) && 0 <= i < |order|
    ensures order[i] in keys
  {
    assert order[i] in multiset(order);
  }

  lemma EnumeratedKeys(order: seq<Path>, keys: set<Path>)
    requires Enumerates(order, keys)
    ensures forall i :: 0 <= i < |order| ==> order[i] in keys
  {
    forall i | 0 <= i < |order| ensures order[i] in keys {
      EnumeratedKey(order, keys, i);
    }
  }

  /** The blob ids of `commitBlob` appended in the order `order` visits its paths. */
  function BlobRef(commitBlob: map<Path, Id>, order: seq<Path>): string
    requires forall i :: 0 <= i < |order| ==> order[i] in commitBlob
  {
    if order == [] then ""
    else BlobRef(commitBlob, order[..|order| - 1]) + commitBlob[order[|order| - 1]]
  }

  /** The commit record the second constructor builds. */
  function CommitRecord(hash: Hash, log: string, commitBlob: map<Path, Id>, order: seq<Path>,
                        parent1: Id, parent2: Id, timestamp: string): Commit
    requires forall i :: 0 <= i < |order| ==> order[i] in commitBlob
  {
    Commit(Sha1(hash, [log, timestamp, BlobRef(commitBlob, order), parent1, parent2]),
           log, timestamp, commitBlob, parent1, parent2)
  }

  /** A commit's id digests its message, timestamp, the concatenated blob ids
      and both parents, one after the other. */
  lemma CommitIdFormula(hash: Hash, log: string, commitBlob: map<Path, Id>, order: seq<Path>,
                        parent1: Id, parent2: Id, timestamp: string)
    requires forall i :: 0 <= i < |order| ==> order[i] in commitBlob
    ensures CommitRecord(hash, log, commitBlob, order, parent1, parent2, timestamp).id
         == hash(log + timestamp + BlobRef(commitBlob, order) + parent1 + parent2)
  {
    ConcatFive(log, timestamp, BlobRef(commitBlob, order), parent1, parent2);
  }

  /** The root commit's id is the one the general formula gives for an empty
      snapshot and two empty parents. */
  lemma RootIdIsGeneralFormula(hash: Hash, log: string, epoch: string)
    ensures RootCommit(hash, log, epoch).id == CommitRecord(hash, log, map[], [], "", "", epoch).id
  {
    CommitIdFormula(hash, log, map[], [], "", "", epoch);
    assert log + epoch + "" + "" + "" == log + epoch;
  }

  /** The second constructor `Commit(log, commitBlob, parent1, parent2)`: its
      loop appends the blob ids in the map's iteration order. */
  method NewCommit(hash: Hash, log: string, commitBlob: map<Path, Id>, order: seq<Path>,
                   parent1: Id, parent2: Id, timestamp: string) returns (c: Commit)
    requires Enumerates(order, commitBlob.Keys)
    ensures c.log == log && c.timestamp == timestamp && c.commitBlob == commitBlob
    ensures c.parent1 == parent1 && c.parent2 == parent2
    ensures forall i :: 0 <= i < |order| ==> order[i] in commitBlob
    ensures c.id == hash(log + timestamp + BlobRef(commitBlob, order) + parent1 + parent2)
    ensures c == CommitRecord(hash, log, commitBlob, order, parent1, parent2, timestamp)
  {
    EnumeratedKeys(order, commitBlob.Keys);
    var blobRef := "";
    var k := 0;
    while k < |order|
      invariant 0 <= k <= |order|
      invariant blobRef == BlobRef(commitBlob, order[..k])
    {
      assert order[..k + 1][..k] == order[..k];
      blobRef := blobRef + commitBlob[order[k]];
      k := k + 1;
    }
    assert order[..|order|] == order;
    c := Commit(Sha1(hash, [log, timestamp, blobRef, parent1, parent2]),
                log, timestamp, commitBlob, parent1, parent2);
    CommitIdFormula(hash, log, commitBlob, order, parent1, parent2, timestamp);
  }

  /** `Commit::blobExists`: walks the snapshot and stops at the first path
      whose blob id is `blobId`. */
  method BlobExists(c: Commit, blobId: Id) returns (found: bool)
    ensures found <==> exists p :: p in c.commitBlob && c.commitBlob[p] == blobId
    ensures found == c.HasBlob(blobId)
  {
    var todo := c.commitBlob.Keys;
    while todo != {}
      invariant todo <= c.commitBlob.Keys
      invariant forall p :: p in c.commitBlob && p !in todo ==> c.commitBlob[p] != blobId
      decreases todo
    {
      var p :| p in todo;
      if c.commitBlob[p] == blobId {
        return true;
      }
      todo := todo - {p};
    }
    return false;
  }
}
