/** The pixel transform: the forward gather that encrypts and the scatter that
    undoes it, each writing into a zero-filled buffer of the input's size. */
module Transform {
  import opened Pixels
  import opened Permutation

  /** The forward gather: slot i receives the pixel at position p[i]. */
  function Gathered(s: seq<Pixel>, p: seq<int>): (r: seq<Pixel>)
    requires InRange(p, |s|)
  {
    seq(|p|, i requires 0 <= i < |p| => s[p[i]])
  }

  /** The zero-filled buffer of |s| pixels after the first k writes of the
      scatter, write i putting s[i] into slot p[i]. */
  function ScatterPrefix(s: seq<Pixel>, p: seq<int>, k: nat): (r: seq<Pixel>)
    requires |p| == |s| && InRange(p, |s|) && k <= |p|
    ensures |r| == |s|
  {
    if k == 0 then seq(|s|, _ => Black)
    else ScatterPrefix(s, p, k - 1)[p[k - 1] := s[k - 1]]
  }

  /** The complete scatter: slot p[i] receives the pixel at position i. */
  function Scattered(s: seq<Pixel>, p: seq<int>): (r: seq<Pixel>)
    requires |p| == |s| && InRange(p, |s|)
  {
    ScatterPrefix(s, p, |p|)
  }

  /** With a permutation no later write lands on slot p[i], so after k > i
      writes that slot still holds s[i]. */
  lemma {:induction false} ScatterPrefixAt(s: seq<Pixel>, p: seq<int>, k: nat, i: nat)
    requires IsPermutation(p, |s|) && i < k <= |p|
    ensures ScatterPrefix(s, p, k)[p[i]] == s[i]
    decreases k
  {
    if i < k - 1 {
      assert p[i] != p[k - 1];
      ScatterPrefixAt(s, p, k - 1, i);
    }
  }

  /** The scatter through a permutation puts every input pixel s[i] at slot p[i]. */
  lemma ScatterPlacesEach(s: seq<Pixel>, p: seq<int>)
    requires IsPermutation(p, |s|)
    ensures forall i :: 0 <= i < |s| ==> Scattered(s, p)[p[i]] == s[i]
  {
    forall i | 0 <= i < |s| ensures Scattered(s, p)[p[i]] == s[i] {
      ScatterPrefixAt(s, p, |p|, i);
    }
  }

  /** Slot v of the scattered buffer is the one written by the input pixel
      whose index entry is v. */
  lemma ScatterFillsSlot(s: seq<Pixel>, p: seq<int>, v: int)
    requires IsPermutation(p, |s|) && 0 <= v < |s|
    ensures exists i :: 0 <= i < |s| && p[i] == v && Scattered(s, p)[v] == s[i]
  {
    ScatterPlacesEach(s, p);
    assert v in p;
    var i :| 0 <= i < |s| && p[i] == v;
    assert Scattered(s, p)[p[i]] == s[i];
  }

  /** Every slot of the zero-filled buffer is overwritten by some input pixel,
      so the output holds a zero pixel only if the input had one. */
  lemma ScatterCoversEverySlot(s: seq<Pixel>, p: seq<int>)
    requires IsPermutation(p, |s|)
    ensures forall v :: 0 <= v < |s| ==> Scattered(s, p)[v] in s
    ensures Black in Scattered(s, p) ==> Black in s
  {
    ScatterPlacesEach(s, p);
    forall v | 0 <= v < |s| ensures Scattered(s, p)[v] in s {
      assert v in p;
      var i :| 0 <= i < |s| && p[i] == v;
      assert Scattered(s, p)[p[i]] == s[i];
    }
  }

  /** Scatter inverts gather: decrypting an encrypted buffer restores it. */
  lemma ScatterUndoesGather(s: seq<Pixel>, p: seq<int>)
    requires IsPermutation(p, |s|)
    ensures Scattered(Gathered(s, p), p) == s
  {
    var g := Gathered(s, p);
    ScatterPlacesEach(g, p);
    forall v | 0 <= v < |s| ensures Scattered(g, p)[v] == s[v] {
      assert v in p;
      var i :| 0 <= i < |s| && p[i] == v;
      assert Scattered(g, p)[p[i]] == g[i];
    }
  }

  /** Gather inverts scatter: encrypting a decrypted buffer restores it. */
  lemma GatherUndoesScatter(s: seq<Pixel>, p: seq<int>)
    requires IsPermutation(p, |s|)
    ensures Gathered(Scattered(s, p), p) == s
  {
    ScatterPlacesEach(s, p);
  }

  /** Gathering through a list with two entries exchanged gives the gathered
      buffer with the same two slots exchanged. */
  lemma GatherOfSwap(s: seq<Pixel>, p: seq<int>, i: nat, j: nat)
    requires InRange(p, |s|) && i < |p| && j < |p|
    ensures InRange(Swap(p, i, j), |s|)
    ensures Gathered(s, Swap(p, i, j)) == Swap(Gathered(s, p), i, j)
  {
  }

  /** Gathering through a shuffled list rearranges the gather through the list
      it started from: the same pixels, each as often. */
  lemma {:induction false} GatherShuffleKeepsPixels(s: seq<Pixel>, p: seq<int>, seed: nat, rng: Rng, i: nat)
    requires InRange(p, |s|) && i <= |p|
    ensures InRange(ShuffleFrom(p, seed, rng, i), |s|)
    ensures multiset(Gathered(s, ShuffleFrom(p, seed, rng, i))) == multiset(Gathered(s, p))
    decreases i
  {
    if i > 1 {
      var j := rng(seed, |p|, i - 1);
      GatherOfSwap(s, p, i - 1, j);
      var g := Gathered(s, p);
      assert multiset(Swap(g, i - 1, j)) == multiset(g) by {
        assert Swap(g, i - 1, j) == g[i - 1 := g[j]][j := g[i - 1]];
      }
      GatherShuffleKeepsPixels(s, Swap(p, i - 1, j), seed, rng, i - 1);
    }
  }

  /** Gathering through a generated permutation keeps the multiset of pixels. */
  lemma GatherKeepsPixels(s: seq<Pixel>, seed: nat, rng: Rng)
    ensures multiset(Gathered(s, Generate(seed, |s|, rng))) == multiset(s)
  {
    var n := |s|;
    assert Gathered(s, Identity(n)) == s;
    GatherShuffleKeepsPixels(s, Identity(n), seed, rng, n);
  }

  /** The encryption loop: a zero-filled buffer of flat's size whose slot i is
      then set to flat[perm[i]]. */
  method Gather(flat: array<Pixel>, perm: array<int>) returns (out: array<Pixel>)
    requires perm.Length == flat.Length && InRange(perm[..], flat.Length)
    ensures fresh(out)
    ensures out[..] == Gathered(flat[..], perm[..])
  {
    out := new Pixel[flat.Length](_ => Black);
    for i := 0 to perm.Length
      invariant forall k :: 0 <= k < i ==> out[k] == flat[perm[k]]
    {
      out[i] := flat[perm[i]];
    }
  }

  /** The decryption loop: a zero-filled buffer of flat's size; for each i in
      order, slot perm[i] is set to flat[i]. */
  method Scatter(flat: array<Pixel>, perm: array<int>) returns (out: array<Pixel>)
    requires perm.Length == flat.Length && InRange(perm[..], flat.Length)
    ensures fresh(out)
    ensures out[..] == Scattered(flat[..], perm[..])
  {
    out := new Pixel[flat.Length](_ => Black);
    for i := 0 to perm.Length
      invariant out[..] == ScatterPrefix(flat[..], perm[..], i)
    {
      out[perm[i]] := flat[i];
    }
  }
}
