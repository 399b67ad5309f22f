/**
 * Facts about sequences, each proved once on its own so that the proofs that
 * use them do not have to rediscover them among many other facts.
 */
module SeqFacts {

  lemma ConcatAssoc<T>(a: seq<T>, b: seq<T>, c: seq<T>)
    ensures a + b + c == a + (b + c)
  {
  }

  lemma EmptyConcat<T>(a: seq<T>)
    ensures [] + a == a
  {
  }

  lemma PairFacts<T>(t: T, u: T)
    ensures [] + [t] == [t] && [t] + [u] == [t, u]
  {
  }

  /** A prefix one element longer. */
  lemma PrefixSnoc<T>(q: seq<T>, k: nat)
    requires k < |q|
    ensures q[..k + 1] == q[..k] + [q[k]]
    ensures q[..k + 1][..k] == q[..k]
  {
  }

  lemma PrefixAll<T>(q: seq<T>)
    ensures q[..|q|] == q
  {
  }
}
