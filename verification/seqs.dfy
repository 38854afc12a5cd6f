/** Small facts about sequences that the loop proofs use at each step. */
module Seqs {

  /** A prefix one longer is the shorter prefix and the next element. */
  lemma TakeSnoc<T>(s: seq<T>, i: nat)
    requires i < |s|
    ensures s[..i + 1] == s[..i] + [s[i]]
  {
  }

  lemma AppendAssoc<T>(a: seq<T>, b: seq<T>, c: seq<T>)
    ensures a + (b + c) == a + b + c
  {
  }

  /** Sequences with the same elements, counted with multiplicity, have the same members. */
  lemma SameMembers<T>(a: seq<T>, b: seq<T>)
    requires multiset(a) == multiset(b)
    ensures forall e :: e in a <==> e in b
  {
    forall e ensures e in a <==> e in b {
      assert e in a <==> e in multiset(a);
      assert e in b <==> e in multiset(b);
    }
  }

  /** `n` copies of `x`. */
  function Repeat<T>(x: T, n: nat): (r: seq<T>)
    ensures |r| == n && forall k :: 0 <= k < n ==> r[k] == x
  {
    seq(n, _ => x)
  }

  lemma RepeatSnoc<T>(x: T, n: nat)
    ensures Repeat(x, n + 1) == Repeat(x, n) + [x]
  {
  }

  /** `x` occurs `n` times among `n` copies of it, and nothing else occurs. */
  lemma RepeatCount<T>(x: T, n: nat, e: T)
    ensures multiset(Repeat(x, n))[e] == if e == x then n else 0
  {
    if n > 0 {
      RepeatCount(x, n - 1, e);
      RepeatSnoc(x, n - 1);
    }
  }

  /** Fewer copies are a sub-multiset of more. */
  lemma RepeatPrefix<T>(x: T, m: nat, n: nat)
    requires m <= n
    ensures multiset(Repeat(x, m)) <= multiset(Repeat(x, n))
  {
    assert Repeat(x, n) == Repeat(x, m) + Repeat(x, n - m);
  }
}
