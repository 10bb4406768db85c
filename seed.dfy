/** Seed derivation: the key is reduced to the sum of its characters' code points. */
module Seed {

  /** The seed of a key: the code points of its characters added up from left to
      right. No code point exceeds it, and the empty key has seed 0. */
  function CodeSum(key: string): (seed: nat)
    ensures forall i :: 0 <= i < |key| ==> key[i] as int <= seed
    ensures key == [] ==> seed == 0
  {
    if key == [] then 0 else CodeSum(key[..|key| - 1]) + key[|key| - 1] as int
  }

  /** The seed of a concatenation is the sum of the seeds of its parts. */
  lemma {:induction false} CodeSumAppend(a: string, b: string)
    ensures CodeSum(a + b) == CodeSum(a) + CodeSum(b)
    decreases |b|
  {
    if b == [] {
      assert a + b == a;
    } else {
      var b' := b[..|b| - 1];
      assert (a + b)[..|a + b| - 1] == a + b';
      CodeSumAppend(a, b');
    }
  }

  /** Character order does not matter: keys that hold the same characters, each
      as often, have the same seed (so "ab" and "ba" collide). */
  lemma {:induction false} CodeSumIgnoresOrder(k1: string, k2: string)
    requires multiset(k1) == multiset(k2)
    ensures CodeSum(k1) == CodeSum(k2)
    decreases |k1|
  {
    if k1 == [] {
      assert |k2| == |multiset(k2)| == 0;
    } else {
      var c := k1[|k1| - 1];
      var rest1 := k1[..|k1| - 1];
      assert k1 == rest1 + [c];
      assert c in multiset(k2);
      var j :| 0 <= j < |k2| && k2[j] == c;
      var u, v := k2[..j], k2[j + 1..];
      assert k2 == u + [c] + v;
      assert multiset(k1) == multiset(rest1) + multiset{c};
      assert multiset(k2) == multiset(u + v) + multiset{c} by {
        assert multiset(k2) == multiset(u) + multiset{c} + multiset(v);
        assert multiset(u + v) == multiset(u) + multiset(v);
      }
      MultisetCancel(multiset(rest1), multiset(u + v), c);
      CodeSumIgnoresOrder(rest1, u + v);
      CodeSumAppend(u, v);
      CodeSumAppend(u + [c], v);
      CodeSumAppend(u, [c]);
      assert CodeSum([c]) == c as int by {
        assert [c][..0] == [];
      }
    }
  }

  /** The two-letter keys "ab" and "ba" both have seed 97 + 98 = 195. */
  lemma SwappedPairCollides()
    ensures CodeSum("ab") == CodeSum("ba") == 195
  {
  }

  /** Taking one occurrence of c away from both sides keeps multisets equal. */
  lemma MultisetCancel(a: multiset<char>, b: multiset<char>, c: char)
    requires a + multiset{c} == b + multiset{c}
    ensures a == b
  {
    forall x ensures a[x] == b[x] {
      assert (a + multiset{c})[x] == (b + multiset{c})[x];
    }
  }
}
