/** `sample`: rejection sampling of distinct indices into a pool of `range`
    entries. The draws of `Uniform::new(0, range)` from a ChaCha20 generator
    seeded by a 32-byte seed are an abstract stream: the n-th draw is
    `uniform(seed, range, n)`. Sampling keeps the first draw of every value and
    stops after `amount` distinct ones, so a longer sample starts with the
    shorter one: this is what makes `expand` sound. */
module Sampler {
  import opened Bytes
  import opened Outcomes

  /** The n-th value drawn from `Uniform::new(0, range)` over
      `ChaCha20Rng::from_seed(seed)`. */
  type UniformStream = (Hash, nat, nat) -> nat

  ghost predicate Reaches(u: UniformStream, seed: Hash, range: nat, v: nat) {
    exists n: nat :: u(seed, range, n) == v
  }

  /** What the model asks of the generator: every draw is in range, and every
      value in range is drawn sooner or later (true of ChaCha20 with
      probability one). Without the second part the `while` loop of `sample`
      need not terminate. */
  ghost predicate Fair(u: UniformStream) {
    && (forall seed: Hash, range: nat, n: nat :: range > 0 ==> u(seed, range, n) < range)
    && (forall seed: Hash, range: nat, v: nat :: v < range ==> Reaches(u, seed, range, v))
  }

  datatype Stream = Stream(uniform: UniformStream, seed: Hash, range: nat)

  function Draw(s: Stream, n: nat): nat {
    s.uniform(s.seed, s.range, n)
  }

  predicate Distinct<T(==)>(xs: seq<T>) {
    forall i, j :: 0 <= i < j < |xs| ==> xs[i] != xs[j]
  }

  /** The distinct values among the first `n` draws, in order of first appearance. */
  function Firsts(s: Stream, n: nat): (r: seq<nat>)
    ensures Distinct(r)
  {
    if n == 0 then []
    else
      var f := Firsts(s, n - 1);
      var d := Draw(s, n - 1);
      if d in f then f else f + [d]
  }

  lemma {:induction false} FirstsPrefix(s: Stream, m: nat, n: nat)
    requires m <= n
    ensures |Firsts(s, m)| <= |Firsts(s, n)|
    ensures Firsts(s, m) == Firsts(s, n)[..|Firsts(s, m)|]
    decreases n - m
  {
    if m < n {
      FirstsPrefix(s, m, n - 1);
      var f := Firsts(s, n - 1);
      assert Firsts(s, n)[..|f|] == f;
      assert Firsts(s, n)[..|Firsts(s, m)|] == f[..|Firsts(s, m)|];
    }
  }

  lemma {:induction false} FirstsMembers(s: Stream, n: nat, v: nat)
    ensures v in Firsts(s, n) <==> exists i: nat :: i < n && Draw(s, i) == v
    decreases n
  {
    if n > 0 {
      FirstsMembers(s, n - 1, v);
      if exists i: nat :: i < n && Draw(s, i) == v {
        var i: nat :| i < n && Draw(s, i) == v;
        if i < n - 1 {
          assert v in Firsts(s, n - 1);
        }
      }
    }
  }

  lemma FirstsInRange(s: Stream, n: nat)
    requires Fair(s.uniform) && s.range > 0
    ensures forall v :: v in Firsts(s, n) ==> v < s.range
  {
    forall v | v in Firsts(s, n) ensures v < s.range {
      FirstsMembers(s, n, v);
      var i: nat :| i < n && Draw(s, i) == v;
    }
  }

  // ------------------------------------------------------------ coverage

  /** Enough draws give `amount` distinct values. */
  ghost predicate Covers(s: Stream, amount: nat) {
    exists n: nat :: |Firsts(s, n)| >= amount
  }

  /** How many of `0 .. k-1` occur in `xs`. */
  function Count(xs: seq<nat>, k: nat): nat {
    if k == 0 then 0 else Count(xs, k - 1) + (if k - 1 in xs then 1 else 0)
  }

  lemma {:induction false} CountCons(x: nat, rest: seq<nat>, k: nat)
    requires x !in rest
    ensures Count([x] + rest, k) == Count(rest, k) + (if x < k then 1 else 0)
  {
    if k > 0 {
      CountCons(x, rest, k - 1);
      assert (k - 1 in [x] + rest) <==> (k - 1 == x || k - 1 in rest);
    }
  }

  lemma {:induction false} CountBound(xs: seq<nat>, k: nat)
    requires Distinct(xs)
    ensures Count(xs, k) <= |xs|
    decreases |xs|
  {
    if xs == [] {
      CountEmpty(k);
    } else {
      assert xs == [xs[0]] + xs[1..];
      assert xs[0] !in xs[1..];
      CountCons(xs[0], xs[1..], k);
      CountBound(xs[1..], k);
    }
  }

  lemma {:induction false} CountEmpty(k: nat)
    ensures Count([], k) == 0
  {
    if k > 0 { CountEmpty(k - 1); }
  }

  /** Every value below `k` occurs in `xs`. */
  predicate HasAll(xs: seq<nat>, k: nat) {
    forall v: nat :: v < k ==> v in xs
  }

  lemma {:induction false} CountFull(xs: seq<nat>, k: nat)
    requires HasAll(xs, k)
    ensures Count(xs, k) == k
  {
    if k > 0 { CountFull(xs, k - 1); }
  }

  lemma {:induction false} Saturate(s: Stream, k: nat)
    requires Fair(s.uniform) && k <= s.range
    ensures exists n: nat :: HasAll(Firsts(s, n), k)
  {
    if k == 0 {
      assert HasAll(Firsts(s, 0), 0);
    } else {
      Saturate(s, k - 1);
      var n0: nat :| HasAll(Firsts(s, n0), k - 1);
      assert Reaches(s.uniform, s.seed, s.range, k - 1);
      var d: nat :| s.uniform(s.seed, s.range, d) == k - 1;
      var n: nat := if n0 > d then n0 else d + 1;
      FirstsPrefix(s, n0, n);
      assert d < n && Draw(s, d) == k - 1;
      FirstsMembers(s, n, k - 1);
      assert HasAll(Firsts(s, n), k) by {
        forall v: nat | v < k ensures v in Firsts(s, n) {
          if v < k - 1 {
            assert v in Firsts(s, n0);
            assert Firsts(s, n0) == Firsts(s, n)[..|Firsts(s, n0)|];
          }
        }
      }
    }
  }

  /** A fair stream always supplies as many distinct indices as the pool has. */
  lemma FairCovers(s: Stream, amount: nat)
    requires Fair(s.uniform) && amount <= s.range
    ensures Covers(s, amount)
  {
    Saturate(s, amount);
    var n: nat :| HasAll(Firsts(s, n), amount);
    CountFull(Firsts(s, n), amount);
    CountBound(Firsts(s, n), amount);
  }

  // ------------------------------------------------------------ the sample

  /** The indices `sample` returns: the first `amount` distinct draws. */
  ghost function Sampled(s: Stream, amount: nat): seq<nat>
    requires Covers(s, amount)
  {
    var n: nat :| |Firsts(s, n)| >= amount;
    Firsts(s, n)[..amount]
  }

  /** `Sampled` does not depend on how many draws were looked at. */
  lemma SampledCanonical(s: Stream, amount: nat, n: nat)
    requires |Firsts(s, n)| >= amount
    ensures Covers(s, amount) && Sampled(s, amount) == Firsts(s, n)[..amount]
  {
    var m: nat :| |Firsts(s, m)| >= amount && Sampled(s, amount) == Firsts(s, m)[..amount];
    if m <= n {
      FirstsPrefix(s, m, n);
    } else {
      FirstsPrefix(s, n, m);
    }
  }

  /** Prefix stability: with the same seed, the first `k` indices of a sample
      of `k + extra` are the sample of `k`. */
  lemma SamplePrefix(s: Stream, k: nat, extra: nat)
    requires Covers(s, k + extra)
    ensures Covers(s, k)
    ensures Sampled(s, k) == Sampled(s, k + extra)[..k]
  {
    var n: nat :| |Firsts(s, n)| >= k + extra;
    SampledCanonical(s, k + extra, n);
    SampledCanonical(s, k, n);
  }

  /** A sample has `amount` pairwise-distinct indices, each inside the pool. */
  lemma SampledShape(s: Stream, amount: nat)
    requires Fair(s.uniform) && s.range > 0 && Covers(s, amount)
    ensures |Sampled(s, amount)| == amount
    ensures Distinct(Sampled(s, amount))
    ensures forall i :: 0 <= i < amount ==> Sampled(s, amount)[i] < s.range
  {
    var n: nat :| |Firsts(s, n)| >= amount;
    SampledCanonical(s, amount, n);
    FirstsInRange(s, n);
    assert forall i :: 0 <= i < amount ==> Sampled(s, amount)[i] in Firsts(s, n);
  }

  /** `sample(rng, amount, length)`: traps when `amount > length` (the
      `assert!`) and when `length == 0` (`Uniform::new(0, 0)` panics, even for
      `amount == 0`); otherwise redraws each position until it finds an index
      not yet in `cache`. */
  method Sample(s: Stream, amount: nat) returns (r: Result<seq<nat>>)
    requires Fair(s.uniform)
    ensures amount > s.range ==> r == Err(AmountExceedsPool)
    ensures amount <= s.range && s.range == 0 ==> r == Err(EmptyPool)
    ensures amount <= s.range && s.range > 0 ==>
      r.Ok? && Covers(s, amount) && r.value == Sampled(s, amount)
  {
    if amount > s.range {
      return Err(AmountExceedsPool);
    }
    if s.range == 0 {
      return Err(EmptyPool);
    }
    FairCovers(s, amount);
    ghost var enough: nat :| |Firsts(s, enough)| >= amount;
    var cache: set<nat> := {};
    var indices: seq<nat> := [];
    var drawn: nat := 0;
    for i := 0 to amount
      invariant indices == Firsts(s, drawn) && |indices| == i
      invariant forall x :: x in cache <==> x in indices
    {
      var pos;
      pos, drawn := DrawFresh(s, cache, drawn, enough, amount);
      cache := cache + {pos};
      indices := indices + [pos];
    }
    SampledCanonical(s, amount, drawn);
    r := Ok(indices);
  }

  /** The inner loop of `sample`: draw from position `start` on until a
      value not in `cache` comes up. */
  method DrawFresh(s: Stream, cache: set<nat>, start: nat, ghost enough: nat, ghost amount: nat)
    returns (pos: nat, drawn: nat)
    requires |Firsts(s, start)| < amount <= |Firsts(s, enough)|
    requires forall x :: x in cache <==> x in Firsts(s, start)
    ensures start < drawn <= enough
    ensures pos == Draw(s, drawn - 1) && pos !in cache
    ensures Firsts(s, drawn) == Firsts(s, start) + [pos]
  {
    FirstsBelow(s, start, enough, amount);
    pos := Draw(s, start);
    drawn := start + 1;
    while pos in cache
      invariant start < drawn <= enough
      invariant pos == Draw(s, drawn - 1) && Firsts(s, drawn - 1) == Firsts(s, start)
      decreases enough - drawn
    {
      FirstsBelow(s, drawn, enough, amount);
      pos := Draw(s, drawn);
      drawn := drawn + 1;
    }
  }

  /** Fewer than `amount` distinct values so far means fewer draws than `enough`. */
  lemma FirstsBelow(s: Stream, n: nat, enough: nat, amount: nat)
    requires |Firsts(s, n)| < amount <= |Firsts(s, enough)|
    ensures n < enough
  {
    if enough <= n {
      FirstsPrefix(s, enough, n);
    }
  }
}
