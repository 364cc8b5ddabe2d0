/** `make_jury(index, count, seed)`: sample `count` distinct positions of the
    pool at `index` with the generator seeded by `seed`, and return the
    jurors at those positions. Because sampling is prefix-stable, a larger
    jury drawn with the same seed from the same pool starts with the smaller
    one, which is what `expand` relies on. */
module Selection {
  import opened Bytes
  import opened Outcomes
  import opened Histories
  import opened Pool
  import opened Sampler

  /** The entries of `pool` at positions `idx`, in the order of `idx`. */
  function Pick(pool: seq<Blob>, idx: seq<nat>): (r: seq<Blob>)
    requires forall i :: 0 <= i < |idx| ==> idx[i] < |pool|
    ensures |r| == |idx|
    ensures forall i :: 0 <= i < |idx| ==> r[i] == pool[idx[i]]
  {
    if idx == [] then [] else Pick(pool, idx[..|idx| - 1]) + [pool[idx[|idx| - 1]]]
  }

  /** The draws used for a pool of `size` entries. */
  function StreamFor(u: UniformStream, seed: Hash, size: nat): Stream {
    Stream(u, seed, size)
  }

  /** What `make_jury` returns, or the trap it hits inside `sample`. */
  ghost function JuryOf(t: PoolTree, index: int, count: nat, seed: Hash, u: UniformStream): Result<seq<Blob>>
    requires t.Valid() && Fair(u)
  {
    var pool := PoolAt(t, index);
    var s := StreamFor(u, seed, |pool|);
    if count > |pool| then Err(AmountExceedsPool)
    else if |pool| == 0 then Err(EmptyPool)
    else
      FairCovers(s, count);
      SampledShape(s, count);
      Ok(Pick(pool, Sampled(s, count)))
  }

  method MakeJury(t: PoolTree, index: u32, count: u32, seed: Hash, u: UniformStream)
    returns (r: Result<seq<Blob>>)
    requires t.Valid() && Fair(u)
    ensures r == JuryOf(t, index, count, seed, u)
  {
    var pool := CollectPool(t, index);
    var s := StreamFor(u, seed, |pool|);
    var sampled := Sample(s, count);
    if sampled.Err? {
      return Err(sampled.fault);
    }
    var sample := sampled.value;
    SampledShape(s, count);
    var result: seq<Blob> := [];
    for i := 0 to |sample|
      invariant result == Pick(pool, sample[..i])
    {
      assert sample[..i + 1][..i] == sample[..i];
      result := result + [pool[sample[i]]];
    }
    assert sample[..|sample|] == sample;
    r := Ok(result);
  }

  /** `make_jury` traps exactly when the pool is empty or smaller than the
      jury; otherwise it returns `count` different jurors, each active at
      `index`. */
  lemma JuryShape(t: PoolTree, index: int, count: nat, seed: Hash, u: UniformStream)
    requires t.Valid() && Fair(u)
    ensures JuryOf(t, index, count, seed, u).Err? <==> count > |PoolAt(t, index)| || |PoolAt(t, index)| == 0
    ensures JuryOf(t, index, count, seed, u).Ok? ==>
      var jury := JuryOf(t, index, count, seed, u).value;
      && |jury| == count
      && Distinct(jury)
      && forall x :: x in jury ==> x in t.entries && ActiveAt(t.entries[x], index)
  {
    var pool := PoolAt(t, index);
    var s := StreamFor(u, seed, |pool|);
    if count <= |pool| && |pool| > 0 {
      FairCovers(s, count);
      SampledShape(s, count);
      var idx := Sampled(s, count);
      var jury := Pick(pool, idx);
      PoolSorted(t, index);
      assert Distinct(jury) by {
        forall i, j | 0 <= i < j < |jury| ensures jury[i] != jury[j] {
          assert idx[i] != idx[j];
        }
      }
      forall x | x in jury ensures x in t.entries && ActiveAt(t.entries[x], index) {
        PoolMembers(t, index, x);
      }
    }
  }

  /** Prefix stability of `make_jury`: with the same pool and seed, the jury
      of `k` is the first `k` jurors of the jury of `k + extra`. */
  lemma JuryPrefix(t: PoolTree, index: int, k: nat, extra: nat, seed: Hash, u: UniformStream)
    requires t.Valid() && Fair(u)
    requires JuryOf(t, index, k + extra, seed, u).Ok?
    ensures JuryOf(t, index, k, seed, u).Ok?
    ensures JuryOf(t, index, k, seed, u).value == JuryOf(t, index, k + extra, seed, u).value[..k]
  {
    var pool := PoolAt(t, index);
    var s := StreamFor(u, seed, |pool|);
    FairCovers(s, k + extra);
    SamplePrefix(s, k, extra);
    SampledShape(s, k);
    SampledShape(s, k + extra);
  }

  /** The jurors `expand` adds are the tail of the larger jury: together with
      the old jury they make up exactly the jury of `before + extra`, and none
      of them was already on the old jury. */
  lemma ExpandExtends(t: PoolTree, index: int, before: nat, extra: nat, seed: Hash, u: UniformStream)
    requires t.Valid() && Fair(u)
    requires JuryOf(t, index, before + extra, seed, u).Ok?
    ensures JuryOf(t, index, before, seed, u).Ok?
    ensures
      var whole := JuryOf(t, index, before + extra, seed, u).value;
      && JuryOf(t, index, before, seed, u).value + whole[before..] == whole
      && |whole[before..]| == extra
      && forall x :: x in whole[before..] ==> x !in JuryOf(t, index, before, seed, u).value
  {
    JuryPrefix(t, index, before, extra, seed, u);
    JuryShape(t, index, before + extra, seed, u);
    var whole := JuryOf(t, index, before + extra, seed, u).value;
    DistinctSplit(whole, before);
  }

  /** The two parts of a sequence without repeats share no element. */
  lemma DistinctSplit(whole: seq<Blob>, before: nat)
    requires Distinct(whole) && before <= |whole|
    ensures whole[..before] + whole[before..] == whole
    ensures forall x :: x in whole[before..] ==> x !in whole[..before]
  {
    assert whole[..before] + whole[before..] == whole;
    forall x | x in whole[before..] ensures x !in whole[..before] {
      var j :| 0 <= j < |whole[before..]| && whole[before..][j] == x;
      forall i | 0 <= i < before ensures whole[..before][i] != x {
        assert whole[i] != whole[before + j];
      }
    }
  }

  /** The same in terms of the two sizes: the jury of `before` followed by
      the jurors past position `before` of the jury of `total` is the jury
      of `total`, and none of those jurors is on the jury of `before`. */
  lemma JuryTail(t: PoolTree, index: int, before: nat, total: nat, seed: Hash, u: UniformStream)
    requires t.Valid() && Fair(u)
    requires JuryOf(t, index, total, seed, u).Ok? && before <= |JuryOf(t, index, total, seed, u).value|
    ensures var whole := JuryOf(t, index, total, seed, u).value;
      && |whole| == total
      && JuryOf(t, index, before, seed, u).Ok?
      && JuryOf(t, index, before, seed, u).value + whole[before..] == whole
      && forall x :: x in whole[before..] ==> x !in JuryOf(t, index, before, seed, u).value
  {
    JuryShape(t, index, total, seed, u);
    ExpandExtends(t, index, before, total - before, seed, u);
  }

  /** A jury that is the jury of its own size, extended to `count` more
      jurors from the same pool and seed: the recorded jurors followed by
      `count` new ones, none of which is already on it. */
  lemma RecordedTail(t: PoolTree, index: int, recorded: seq<Blob>, total: nat, whole: seq<Blob>,
                     seed: Hash, u: UniformStream)
    requires t.Valid() && Fair(u)
    requires JuryOf(t, index, |recorded|, seed, u) == Ok(recorded)
    requires JuryOf(t, index, total, seed, u) == Ok(whole) && |recorded| <= total
    ensures |whole| == total
    ensures recorded + whole[|recorded|..] == whole
    ensures forall x :: x in whole[|recorded|..] ==> x !in recorded
  {
    JuryTail(t, index, |recorded|, total, seed, u);
  }
}
