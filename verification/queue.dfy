/**
 * The play queue (`createShuffledQueue`): the indices `0 .. count-1`
 * shuffled in place by Fisher–Yates. `Math.random` is abstracted as the
 * sequence of swap partners it picks: at step `k` the loop is at position
 * `i = count-1-k` and picks some `j` in `[0, i]`.
 */
module Queue {

  /** The identity arrangement `[0, 1, ..., n-1]` the shuffle starts from. */
  function Iota(n: nat): (r: seq<int>)
    ensures |r| == n
    ensures forall k :: 0 <= k < n ==> r[k] == k
  {
    if n == 0 then [] else Iota(n - 1) + [n - 1]
  }

  /** `q` holds each index of `[0, n)` exactly once and nothing else. */
  predicate IsPermutationOfRange(q: seq<int>, n: nat) {
    multiset(q) == multiset(Iota(n))
  }

  /** How many swaps the loop makes: one per position from `count-1` down to `1`. */
  function Steps(count: nat): nat {
    if count == 0 then 0 else count - 1
  }

  /** At most the loop's number of swap partners, each inside its step's range `[0, count-1-k]`. */
  predicate RollsInRange(count: nat, js: seq<nat>) {
    && |js| <= Steps(count)
    && forall k :: 0 <= k < |js| ==> js[k] <= count - 1 - k
  }

  /** A full run's worth of swap partners, one for every step of the loop. */
  predicate ValidRolls(count: nat, js: seq<nat>) {
    RollsInRange(count, js) && |js| == Steps(count)
  }

  /** Exchange the elements at positions `i` and `j`. */
  function Swap(a: seq<int>, i: nat, j: nat): (r: seq<int>)
    requires i < |a| && j < |a|
    ensures |r| == |a|
  {
    a[i := a[j]][j := a[i]]
  }

  /** A swap moves elements around but neither adds nor drops any. */
  lemma SwapKeepsPermutation(a: seq<int>, i: nat, j: nat, n: nat)
    requires i < |a| && j < |a| && IsPermutationOfRange(a, n)
    ensures IsPermutationOfRange(Swap(a, i, j), n)
  {
    assert multiset(Swap(a, i, j)) == multiset(a);
  }

  /**
   * The arrangement after the first `|js|` steps of the loop, step `k`
   * swapping position `count-1-k` with position `js[k]`. Every step is a
   * swap, so each arrangement the loop passes through is a permutation of
   * the indices.
   */
  function Shuffle(count: nat, js: seq<nat>): (r: seq<int>)
    requires RollsInRange(count, js)
    ensures |r| == count
    ensures IsPermutationOfRange(r, count)
    decreases |js|
  {
    if |js| == 0 then
      Iota(count)
    else
      var k := |js| - 1;
      RollsPrefix(count, js, k);
      var before := Shuffle(count, js[..k]);
      SwapKeepsPermutation(before, count - 1 - k, js[k], count);
      Swap(before, count - 1 - k, js[k])
  }

  /** The first steps of rolls that are in range are in range. */
  lemma RollsPrefix(count: nat, js: seq<nat>, m: nat)
    requires RollsInRange(count, js) && m <= |js|
    ensures RollsInRange(count, js[..m])
  {
    forall k | 0 <= k < m
      ensures js[..m][k] <= count - 1 - k
    {
      assert js[..m][k] == js[k];
    }
  }

  /** A partner within the next step's range extends rolls that are in range. */
  lemma RollsExtend(count: nat, js: seq<nat>, j: nat)
    requires RollsInRange(count, js) && |js| < Steps(count) && j <= count - 1 - |js|
    ensures RollsInRange(count, js + [j])
  {
    var extended := js + [j];
    forall k | 0 <= k < |extended|
      ensures extended[k] <= count - 1 - k
    {
      if k < |js| {
        assert extended[k] == js[k];
      } else {
        assert extended[k] == j;
      }
    }
  }

  /** One more step of the loop swaps the next position with its partner. */
  lemma ShuffleStep(count: nat, js: seq<nat>, j: nat)
    requires RollsInRange(count, js) && |js| < Steps(count) && j <= count - 1 - |js|
    ensures RollsInRange(count, js + [j])
    ensures Shuffle(count, js + [j]) == Swap(Shuffle(count, js), count - 1 - |js|, j)
  {
    RollsExtend(count, js, j);
    var extended := js + [j];
    assert extended[..|js|] == js;
    assert extended[|js|] == j;
  }

  /** `createShuffledQueue(count)` for the swap partners `js` that `Math.random` produced. */
  function ShuffledQueue(count: nat, js: seq<nat>): (q: seq<int>)
    requires ValidRolls(count, js)
    ensures |q| == count
    ensures IsPermutationOfRange(q, count)
  {
    Shuffle(count, js)
  }

  /**
   * `createShuffledQueue` as the loop the source runs on an array: each
   * swap partner is any `j` in `[0, i]`; the partners it picked are
   * recorded in a ghost out-parameter so the result can be named.
   */
  method CreateShuffledQueue(count: nat) returns (queue: seq<int>, ghost js: seq<nat>)
    ensures ValidRolls(count, js)
    ensures queue == ShuffledQueue(count, js)
    ensures |queue| == count && IsPermutationOfRange(queue, count)
  {
    var indices := new int[count](k => k);
    assert indices[..] == Iota(count);
    js := [];
    var i: int := count - 1;
    while i > 0
      invariant i == count - 1 - |js|
      invariant RollsInRange(count, js)
      invariant indices[..] == Shuffle(count, js)
      decreases i
    {
      var j: nat :| j <= i;
      ghost var before := indices[..];
      var t := indices[i];
      indices[i] := indices[j];
      assert indices[..] == before[i := before[j]];
      indices[j] := t;
      assert indices[..] == before[i := before[j]][j := before[i]];
      ShuffleStep(count, js, j);
      js := js + [j];
      i := i - 1;
    }
    queue := indices[..];
  }

  /** Occurrences in the identity arrangement: every index of `[0, n)` once, anything else never. */
  lemma {:induction false} IotaCounts(n: nat, v: int)
    ensures multiset(Iota(n))[v] == (if 0 <= v < n then 1 else 0)
  {
    if n > 0 {
      var last := n - 1;
      IotaCounts(last, v);
      assert Iota(n) == Iota(last) + [last];
      assert multiset(Iota(n)) == multiset(Iota(last)) + multiset{last};
    }
  }

  /** Two equal elements at distinct positions make that value occur at least twice. */
  lemma TwoPositionsCountTwice(q: seq<int>, i: nat, j: nat)
    requires i < j < |q| && q[i] == q[j]
    ensures multiset(q)[q[i]] >= 2
  {
    assert q == q[..i] + [q[i]] + q[i + 1..j] + [q[j]] + q[j + 1..];
    assert multiset(q) == multiset(q[..i]) + multiset{q[i]} + multiset(q[i + 1..j]) + multiset{q[j]} + multiset(q[j + 1..]);
  }

  /**
   * A permutation of `[0, n)` has length `n`, only holds indices below `n`,
   * holds every one of them, and holds none twice.
   */
  lemma PermutationHasEachIndexOnce(q: seq<int>, n: nat)
    requires IsPermutationOfRange(q, n)
    ensures |q| == n
    ensures forall k :: 0 <= k < |q| ==> 0 <= q[k] < n
    ensures forall v :: 0 <= v < n ==> v in q
    ensures forall i, j :: 0 <= i < j < |q| ==> q[i] != q[j]
  {
    assert |q| == |multiset(q)| == |multiset(Iota(n))| == n;
    forall k | 0 <= k < |q|
      ensures 0 <= q[k] < n
    {
      assert q[k] in multiset(q);
      IotaCounts(n, q[k]);
    }
    forall v | 0 <= v < n
      ensures v in q
    {
      IotaCounts(n, v);
      assert v in multiset(q);
    }
    forall i, j | 0 <= i < j < |q|
      ensures q[i] != q[j]
    {
      if q[i] == q[j] {
        TwoPositionsCountTwice(q, i, j);
        IotaCounts(n, q[i]);
      }
    }
  }
}
