/** Hashing as the repository uses it: `utils::sha1` concatenates its parts
    and digests the result into a 40-character hexadecimal id. The digest
    itself is not modelled; a `Hash` is any function with 40-character results. */
module Utils {

  const IdLength := 40

  /** A 40-character digest. */
  type Digest = d: string | |d| == IdLength
    witness "0000000000000000000000000000000000000000"

  /** An uninterpreted digest function. */
  type Hash = string -> Digest

  /** The message `utils::sha1` digests: its parts appended in order. */
  function Concat(parts: seq<string>): string
  {
    if parts == [] then "" else parts[0] + Concat(parts[1..])
  }

  /** `utils::sha1({p0, p1, ...})`. */
  function Sha1(hash: Hash, parts: seq<string>): (id: string)
    ensures |id| == IdLength && id != ""
  {
    hash(Concat(parts))
  }

  /** Collision-freedom, for the lemmas that want it. */
  ghost predicate Injective(hash: Hash)
  {
    forall a, b :: hash(a) == hash(b) ==> a == b
  }

  lemma ConcatCons(x: string, xs: seq<string>)
    ensures Concat([x] + xs) == x + Concat(xs)
  {
    assert ([x] + xs)[1..] == xs;
  }

  /** The message digested for five parts is their plain concatenation. */
  lemma ConcatFive(a: string, b: string, c: string, d: string, e: string)
    ensures Concat([a, b, c, d, e]) == a + b + c + d + e
  {
    ConcatCons(e, []);
    assert [d, e] == [d] + [e];
    ConcatCons(d, [e]);
    assert [c, d, e] == [c] + [d, e];
    ConcatCons(c, [d, e]);
    assert [b, c, d, e] == [b] + [c, d, e];
    ConcatCons(b, [c, d, e]);
    assert [a, b, c, d, e] == [a] + [b, c, d, e];
    ConcatCons(a, [b, c, d, e]);
    assert a + (b + (c + (d + (e + "")))) == a + b + c + d + e;
  }

  /** The digest sees one string, so where the parts were split never matters:
      any two part lists with the same concatenation get the same id. */
  lemma {:induction false} Sha1ErasesBoundaries(hash: Hash, a: string, b: string, c: string)
    ensures Sha1(hash, [a + b, c]) == Sha1(hash, [a, b + c])
  {
    assert Concat([a + b, c]) == (a + b) + c by {
      assert [a + b, c][1..] == [c];
      assert Concat([c]) == c by { assert [c][1..] == []; }
    }
    assert Concat([a, b + c]) == a + (b + c) by {
      assert [a, b + c][1..] == [b + c];
      assert Concat([b + c]) == b + c by { assert [b + c][1..] == []; }
    }
    assert (a + b) + c == a + (b + c);
  }
}
