/**
 * The "coups de cœur" preview of src/components/home/MenuPreviewSection.jsx:
 * the fetched products are shuffled in place by a Fisher–Yates loop and the
 * first twelve are shown.
 *
 * `Math.random` is replaced by the sequence `js` of the indexes it would
 * draw: at step i the loop swaps positions i and `js[i]`, with
 * `0 <= js[i] <= i` as `Math.floor(Math.random() * (i + 1))` guarantees.
 */
module MenuPreview {

  /** Valid random draws for an array of length n: the draw of step i lies in [0, i]. */
  predicate Draws(js: seq<nat>, n: nat) {
    |js| == n && forall k :: 0 <= k < |js| ==> js[k] <= k
  }

  /** `[s[i], s[j]] = [s[j], s[i]]` on a sequence. */
  function Swap<T>(s: seq<T>, i: nat, j: nat): (r: seq<T>)
    requires i < |s| && j < |s|
    ensures |r| == |s|
  {
    s[i := s[j]][j := s[i]]
  }

  /** The array once the loop has run for every step from `|s| - 1` down to k. */
  function State<T>(s: seq<T>, js: seq<nat>, k: nat): (r: seq<T>)
    requires Draws(js, |s|)
    ensures |r| == |s|
    decreases |s| - k
  {
    if k >= |s| then s else Swap(State(s, js, k + 1), k, js[k])
  }

  /** The result of `shuffleArray`: every step down to 1 has run. */
  function Shuffle<T>(s: seq<T>, js: seq<nat>): seq<T>
    requires Draws(js, |s|)
  {
    State(s, js, 1)
  }

  lemma SwapPermutes<T>(s: seq<T>, i: nat, j: nat)
    requires i < |s| && j < |s|
    ensures multiset(Swap(s, i, j)) == multiset(s)
  {
    var t := s[i := s[j]];
    assert multiset(t) == multiset(s) - multiset{s[i]} + multiset{s[j]};
    assert multiset(t[j := s[i]]) == multiset(t) - multiset{t[j]} + multiset{s[i]};
  }

  lemma {:induction false} StatePermutes<T>(s: seq<T>, js: seq<nat>, k: nat)
    requires Draws(js, |s|)
    ensures multiset(State(s, js, k)) == multiset(s)
    decreases |s| - k
  {
    if k < |s| {
      var before := State(s, js, k + 1);
      assert multiset(before) == multiset(s) by { StatePermutes(s, js, k + 1); }
      assert multiset(State(s, js, k)) == multiset(before) by { SwapPermutes(before, k, js[k]); }
    }
  }

  /** Whatever the draws, the shuffle is a permutation of its input. */
  lemma ShufflePermutes<T>(s: seq<T>, js: seq<nat>)
    requires Draws(js, |s|)
    ensures |Shuffle(s, js)| == |s|
    ensures multiset(Shuffle(s, js)) == multiset(s)
  {
    StatePermutes(s, js, 1);
  }

  /** A step only touches positions at or below its own index, so later steps leave position m settled. */
  lemma {:induction false} StateSettled<T>(s: seq<T>, js: seq<nat>, lo: nat, k: nat, m: nat)
    requires Draws(js, |s|) && 1 <= lo <= k <= m < |s|
    ensures State(s, js, lo)[m] == State(s, js, k)[m]
    decreases k - lo
  {
    if lo < k {
      StateSettled(s, js, lo + 1, k, m);
    }
  }

  /** Once the loop has passed index k, positions k and above hold their final elements. */
  lemma ShuffleSettled<T>(s: seq<T>, js: seq<nat>, k: nat, m: nat)
    requires Draws(js, |s|) && 1 <= k <= m < |s|
    ensures Shuffle(s, js)[m] == State(s, js, k)[m]
  {
    StateSettled(s, js, 1, k, m);
  }

  /** Arrays of length 0 or 1 are left as they are. */
  lemma ShuffleShort<T>(s: seq<T>, js: seq<nat>)
    requires Draws(js, |s|) && |s| <= 1
    ensures Shuffle(s, js) == s
  {
  }

  /** `shuffleArray(array)`: the Fisher–Yates loop, swapping in place. */
  method ShuffleArray<T>(a: array<T>, js: seq<nat>)
    requires Draws(js, a.Length)
    modifies a
    ensures a[..] == Shuffle(old(a[..]), js)
  {
    ghost var s := a[..];
    var i := a.Length - 1;
    while i > 0
      invariant (if a.Length == 0 then i == -1 else 0 <= i < a.Length)
      invariant a[..] == State(s, js, i + 1)
    {
      var j := js[i];
      a[i], a[j] := a[j], a[i];
      i := i - 1;
    }
  }

  /** `slice(0, 12)`. */
  function Preview<T>(s: seq<T>): (r: seq<T>)
    ensures |r| == if |s| < 12 then |s| else 12
    ensures r == s[..|r|]
  {
    if |s| < 12 then s else s[..12]
  }

  /** The preview holds elements of the list only, none more often than it occurs there. */
  lemma PreviewDrawn<T>(s: seq<T>)
    ensures multiset(Preview(s)) <= multiset(s)
    ensures forall k :: 0 <= k < |Preview(s)| ==> Preview(s)[k] in s
  {
    var p := Preview(s);
    assert s == p + s[|p|..];
    assert multiset(s) == multiset(p) + multiset(s[|p|..]);
  }

  /**
   * The preview shown for the fetched list `data` and the draws `js`: at
   * most twelve products, min(12, |data|) of them, each one drawn from
   * `data` and none more often than it occurs there.
   */
  method FetchPreview<T>(data: seq<T>, js: seq<nat>) returns (products: seq<T>)
    requires Draws(js, |data|)
    ensures products == Preview(Shuffle(data, js))
    ensures |products| == if |data| < 12 then |data| else 12
    ensures multiset(products) <= multiset(data)
    ensures forall k :: 0 <= k < |products| ==> products[k] in data
  {
    var a := new T[|data|](k requires 0 <= k < |data| => data[k]);
    assert a[..] == data;
    ShuffleArray(a, js);
    products := Preview(a[..]);
    ShufflePermutes(data, js);
    PreviewDrawn(a[..]);
    forall k | 0 <= k < |products| ensures products[k] in data {
      assert products[k] in multiset(a[..]);
    }
  }
}
