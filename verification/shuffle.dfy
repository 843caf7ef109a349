/**
 * shuffleArray, the Fisher-Yates shuffle (src/utils/study/studyUtils.ts),
 * with the random draws passed in as reals in [0, 1).
 */
module Shuffle {

  /** Every `Math.random()` draw lies in [0, 1). */
  predicate ValidRolls(rolls: seq<real>) {
    forall k :: 0 <= k < |rolls| ==> 0.0 <= rolls[k] < 1.0
  }

  /** `Math.floor(roll * (i + 1))`: the swap partner for position i. */
  function Pick(roll: real, i: nat): (j: nat)
    requires 0.0 <= roll < 1.0
    ensures j <= i
  {
    var x := roll * (i + 1) as real;
    FractionOfPositive(roll, (i + 1) as real);
    x.Floor
  }

  lemma FractionOfPositive(roll: real, n: real)
    requires 0.0 <= roll < 1.0 && n > 0.0
    ensures 0.0 <= roll * n < n
  {
    assert n - roll * n == (1.0 - roll) * n;
  }

  /** Exchanges the elements at positions i and j. */
  function Swap<T>(s: seq<T>, i: nat, j: nat): (r: seq<T>)
    requires i < |s| && j < |s|
    ensures |r| == |s|
  {
    seq(|s|, k requires 0 <= k < |s| => if k == j then s[i] else if k == i then s[j] else s[k])
  }

  lemma SwapOfArray<T>(before: seq<T>, after: seq<T>, i: nat, j: nat)
    requires i < |before| && j < |before| && |after| == |before|
    requires after[i] == before[j] && after[j] == before[i]
    requires forall k :: 0 <= k < |before| && k != i && k != j ==> after[k] == before[k]
    ensures after == Swap(before, i, j)
  {
  }

  /** Swap partners the draws give: entry k is the partner of position |a| - 1 - k. */
  function Partners(rolls: seq<real>, n: nat): (js: seq<nat>)
    requires n <= |rolls| + 1 && ValidRolls(rolls)
    ensures |js| == if n == 0 then 0 else n - 1
    ensures forall k :: 0 <= k < |js| ==> js[k] <= n - 1 - k
  {
    if n == 0 then []
    else seq(n - 1, k requires 0 <= k < n - 1 => Pick(rolls[k], n - 1 - k))
  }

  /** Partners fit the positions they are drawn for. */
  predicate ValidPartners(js: seq<nat>, n: nat) {
    && |js| == (if n == 0 then 0 else n - 1)
    && forall k :: 0 <= k < |js| ==> js[k] <= n - 1 - k
  }

  /**
   * The sequence after the Fisher-Yates steps for positions |a| - 1 down to
   * i + 1, in the order the source performs them; the step for position k
   * swaps it with partner `js[|a| - 1 - k]`.
   */
  function ShuffledAbove<T>(a: seq<T>, i: nat, js: seq<nat>): (r: seq<T>)
    requires i < |a| && ValidPartners(js, |a|)
    ensures |r| == |a|
    decreases |a| - i
  {
    if i == |a| - 1 then a
    else
      var prev := ShuffledAbove(a, i + 1, js);
      Swap(prev, i + 1, js[|a| - 2 - i])
  }

  lemma SwapPermutes<T>(s: seq<T>, i: nat, j: nat)
    requires i < |s| && j < |s|
    ensures multiset(Swap(s, i, j)) == multiset(s)
  {
    assert Swap(s, i, j) == s[i := s[j]][j := s[i]];
  }

  /** Every prefix of the Fisher-Yates steps permutes its input. */
  lemma {:induction false} ShuffledAbovePermutes<T>(a: seq<T>, i: nat, js: seq<nat>)
    requires i < |a| && ValidPartners(js, |a|)
    ensures multiset(ShuffledAbove(a, i, js)) == multiset(a)
    decreases |a| - i
  {
    if i < |a| - 1 {
      var prev := ShuffledAbove(a, i + 1, js);
      ShuffledAbovePermutes(a, i + 1, js);
      SwapPermutes(prev, i + 1, js[|a| - 2 - i]);
    }
  }

  /** shuffleArray as a function of the random draws. */
  function Shuffle<T>(a: seq<T>, rolls: seq<real>): (r: seq<T>)
    requires |a| <= |rolls| + 1 && ValidRolls(rolls)
    ensures |r| == |a|
  {
    if |a| == 0 then a else ShuffledAbove(a, 0, Partners(rolls, |a|))
  }

  /** The shuffle is a permutation: same length, same multiset of elements. */
  lemma ShufflePermutes<T>(a: seq<T>, rolls: seq<real>)
    requires |a| <= |rolls| + 1 && ValidRolls(rolls)
    ensures |Shuffle(a, rolls)| == |a| && multiset(Shuffle(a, rolls)) == multiset(a)
  {
    if |a| > 0 {
      ShuffledAbovePermutes(a, 0, Partners(rolls, |a|));
    }
  }

  /**
   * shuffleArray: copies the input into a fresh array and swaps position i
   * with a drawn j in [0, i], for i from the last position down to 1. The
   * input is a value and cannot change; the result is a permutation of it.
   */
  method ShuffleArray<T>(a: seq<T>, rolls: seq<real>) returns (shuffled: seq<T>)
    requires |a| <= |rolls| + 1 && ValidRolls(rolls)
    ensures shuffled == Shuffle(a, rolls)
    ensures |shuffled| == |a| && multiset(shuffled) == multiset(a)
  {
    if |a| == 0 {
      return a;
    }
    var js := Partners(rolls, |a|);
    var arr := new T[|a|](k requires 0 <= k < |a| => a[k]);
    assert arr[..] == a;
    var i := |a| - 1;
    while i > 0
      invariant 0 <= i < arr.Length == |a|
      invariant arr[..] == ShuffledAbove(a, i, js)
    {
      var j := js[|a| - 1 - i];
      ghost var before := arr[..];
      var tmp := arr[i];
      arr[i] := arr[j];
      arr[j] := tmp;
      SwapOfArray(before, arr[..], i, j);
      i := i - 1;
    }
    shuffled := arr[..];
    ShufflePermutes(a, rolls);
  }
}
