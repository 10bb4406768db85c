/** Permutation generation: the identity index list shuffled in place, Fisher-Yates
    style, by a generator seeded with the key's seed. */
module Permutation {

  /** The seeded generator, seen only through the swap partner it picks: for a
      seed, the length n of the list and the position i being fixed, a position
      in [0, i]. It stands for seeding the library generator and drawing a
      number below i + 1; being a function, it gives the same answer for the
      same seed and length every time, which is what both directions rely on. */
  type Rng = f: (nat, nat, nat) -> nat | forall seed: nat, n: nat, i: nat :: f(seed, n, i) <= i
    witness (seed: nat, n: nat, i: nat) => 0

  /** Every entry of p is a position of a buffer of n elements. */
  ghost predicate InRange(p: seq<int>, n: nat) {
    forall i :: 0 <= i < |p| ==> 0 <= p[i] < n
  }

  /** p lists every integer of [0, n) exactly once. */
  ghost predicate IsPermutation(p: seq<int>, n: nat) {
    && |p| == n
    && InRange(p, n)
    && (forall i, j :: 0 <= i < j < n ==> p[i] != p[j])
    && (forall v :: 0 <= v < n ==> v in p)
  }

  /** The list 0, 1, ..., n - 1. */
  function Identity(n: nat): (r: seq<int>) {
    seq(n, i => i)
  }

  /** s with the elements at i and j exchanged. */
  function Swap<T>(s: seq<T>, i: nat, j: nat): (r: seq<T>)
    requires i < |s| && j < |s|
    ensures |r| == |s| && r[i] == s[j] && r[j] == s[i]
    ensures forall k :: 0 <= k < |s| && k != i && k != j ==> r[k] == s[k]
  {
    s[i := s[j]][j := s[i]]
  }

  /** The list after the shuffle has fixed positions i - 1, i - 2, ..., 1 of s:
      position k is exchanged with the generator's pick in [0, k]. */
  function ShuffleFrom(s: seq<int>, seed: nat, rng: Rng, i: nat): (r: seq<int>)
    requires i <= |s|
    decreases i
  {
    if i <= 1 then s
    else ShuffleFrom(Swap(s, i - 1, rng(seed, |s|, i - 1)), seed, rng, i - 1)
  }

  /** The whole shuffle: positions |s| - 1 down to 1. */
  function Shuffled(s: seq<int>, seed: nat, rng: Rng): (r: seq<int>) {
    ShuffleFrom(s, seed, rng, |s|)
  }

  /** The identity list of length n after the shuffle: always a permutation of [0, n). */
  function Generate(seed: nat, n: nat, rng: Rng): (p: seq<int>)
    ensures IsPermutation(p, n)
  {
    IdentityIsPermutation(n);
    ShufflePreservesPermutation(Identity(n), n, seed, rng, n);
    Shuffled(Identity(n), seed, rng)
  }

  lemma IdentityIsPermutation(n: nat)
    ensures IsPermutation(Identity(n), n)
  {
    forall v | 0 <= v < n ensures v in Identity(n) {
      assert Identity(n)[v] == v;
    }
  }

  /** Exchanging two entries keeps a permutation a permutation. */
  lemma SwapPreservesPermutation(p: seq<int>, n: nat, i: nat, j: nat)
    requires IsPermutation(p, n) && i < n && j < n
    ensures IsPermutation(Swap(p, i, j), n)
  {
    var r := Swap(p, i, j);
    forall v | 0 <= v < n ensures v in r {
      assert v in p;
      var k :| 0 <= k < n && p[k] == v;
      var k' := if k == i then j else if k == j then i else k;
      assert r[k'] == v;
    }
  }

  /** Every step of the shuffle only exchanges two entries, so the shuffled list
      is a permutation whenever the list it started from was one. */
  lemma {:induction false} ShufflePreservesPermutation(s: seq<int>, n: nat, seed: nat, rng: Rng, i: nat)
    requires IsPermutation(s, n) && i <= n
    ensures IsPermutation(ShuffleFrom(s, seed, rng, i), n)
    decreases i
  {
    if i > 1 {
      SwapPreservesPermutation(s, n, i - 1, rng(seed, |s|, i - 1));
      ShufflePreservesPermutation(Swap(s, i - 1, rng(seed, |s|, i - 1)), n, seed, rng, i - 1);
    }
  }

  /** A list of one index cannot be shuffled: its permutation is [0]. */
  lemma SinglePixel(seed: nat, rng: Rng)
    ensures Generate(seed, 1, rng) == [0]
  {
  }

  /** The index list 0, 1, ..., n - 1, freshly allocated. */
  method IdentityIndices(n: nat) returns (a: array<int>)
    ensures fresh(a)
    ensures a[..] == Identity(n)
  {
    a := new int[n](i => i);
  }

  /** Shuffles a in place: for i from a.Length - 1 down to 1, exchanges a[i] with
      a[j] where j is the generator's pick in [0, i]. */
  method Shuffle(a: array<int>, seed: nat, rng: Rng)
    modifies a
    ensures a[..] == Shuffled(old(a[..]), seed, rng)
  {
    var i := a.Length;
    while i > 1
      invariant 0 <= i <= a.Length
      invariant ShuffleFrom(a[..], seed, rng, i) == Shuffled(old(a[..]), seed, rng)
      decreases i
    {
      ghost var before := a[..];
      i := i - 1;
      var j := rng(seed, a.Length, i);
      a[i], a[j] := a[j], a[i];
      assert a[..] == Swap(before, i, j);
    }
  }
}
