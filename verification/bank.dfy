/** The fixed question bank and the shuffled orders the quiz draws from it. */
module Bank {

  /** One record of the question bank: the prompt, its choices, the key and
      the explanation shown after a miss. */
  datatype Question = Question(text: string, options: seq<string>, answer: string, explanation: string)

  /** `p` lists every index of a bank of size `n` exactly once, in some order:
      what shuffling `list(range(n))` can produce. */
  predicate IsPermutation(p: seq<int>, n: nat) {
    && |p| == n
    && (forall i :: 0 <= i < |p| ==> 0 <= p[i] < n)
    && (forall i, j :: 0 <= i < j < |p| ==> p[i] != p[j])
  }

  /** `list(range(n))`, the order before it is shuffled. */
  function Range(n: nat): (r: seq<int>)
    ensures IsPermutation(r, n)
    ensures forall i :: 0 <= i < n ==> r[i] == i
  {
    seq(n, i => i)
  }

  /** The values occurring in `p`, as a set. */
  function Elements(p: seq<int>): set<int> {
    set x | x in p
  }

  lemma {:induction false} DistinctElementsCount(p: seq<int>)
    requires forall i, j :: 0 <= i < j < |p| ==> p[i] != p[j]
    ensures |Elements(p)| == |p|
  {
    if |p| > 0 {
      var init := p[..|p| - 1];
      var last := p[|p| - 1];
      DistinctElementsCount(init);
      assert p == init + [last];
      assert last !in init;
      assert Elements(p) == Elements(init) + {last};
    }
  }

  /** A subset is no larger than its superset. */
  lemma SubsetCount<T>(a: set<T>, b: set<T>)
    requires a <= b
    ensures |a| <= |b|
  {
    assert b == a + (b - a);
    assert a * (b - a) == {};
  }

  /** A permutation of `[0, n)` visits every index of the bank: none is skipped
      before the order repeats. */
  lemma {:induction false} PermutationCovers(p: seq<int>, n: nat)
    requires IsPermutation(p, n)
    ensures forall k :: 0 <= k < n ==> k in p
  {
    var all := Elements(Range(n));
    DistinctElementsCount(p);
    DistinctElementsCount(Range(n));
    forall k | 0 <= k < n
      ensures k in p
    {
      assert Range(n)[k] == k;
      assert k in all;
      if k !in p {
        forall x | x in Elements(p)
          ensures x in all - {k}
        {
          assert Range(n)[x] == x;
        }
        SubsetCount(Elements(p), all - {k});
        assert false;
      }
    }
  }
}
