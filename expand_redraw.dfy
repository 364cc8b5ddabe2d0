/** A concrete run in which `expand` adds a juror the jury already has.

    `select(index, count)` draws from the pool at `index`, but its event is
    recorded at the current end of the ledger, and `jurors_index` is never
    set. `expand` of that event redraws from the pool at the event's own
    position. When jurors joined in between, the redraw is a different jury
    and its tail can repeat a recorded juror.

    The run: jurors `A` and `B` are added at position 0, `C` at position 1,
    then `select(0, 1)` is recorded at position 2 and `expand(2, 1)` follows.
    The generator below draws `range - 1 - n % range`, which is fair. */
module ExpandRedraw {
  import opened Bytes
  import opened Outcomes
  import opened OrderedMaps
  import opened Histories
  import opened Pool
  import opened Sampler
  import opened Selection
  import opened Ledger
  import opened Canister

  const A: Blob := [1]
  const B: Blob := [2]
  const C: Blob := [3]
  const ADMIN_KEY: Principal := [9]
  const MEMO: Blob := []

  /** Counts down through `0 .. range - 1`, over and over. */
  function Countdown(seed: Hash, range: nat, n: nat): nat {
    if range == 0 then 0 else range - 1 - n % range
  }

  lemma CountdownFair()
    ensures Fair(Countdown)
  {
    forall seed: Hash, range: nat, v: nat | v < range
      ensures Reaches(Countdown, seed, range, v)
    {
      var n: nat := range - 1 - v;
      assert n % range == n;
      assert Countdown(seed, range, n) == v;
    }
  }

  /** Host calls and libraries that play no part in which jurors are drawn. */
  function Lib(): Library {
    Library(
      b => ZERO_HASH,
      d => [],
      b => [],
      b => [],
      t => ZERO_HASH,
      (l, h) => ZERO_HASH,
      (l, t) => [],
      (c, p) => None,
      Countdown)
  }

  /** The pool tree after the two adds. */
  function Tree(): (t: PoolTree)
    ensures t.Valid()
  {
    assert LexLess(A, B) && LexLess(B, C);
    OrderedMap([A, B, C], map[A := [0], B := [0], C := [1]])
  }

  /** The pool tree after `add([A, B])` at position 0. */
  function FirstTree(): (t: PoolTree)
    ensures t.Valid()
  {
    assert LexLess(A, B);
    OrderedMap([A, B], map[A := [0], B := [0]])
  }

  lemma FirstAdd()
    ensures AddJurors(Empty(), [A, B], 0) == Ok(FirstTree())
  {
    assert [A, B][..1] == [A];
    assert AddJurors(Empty(), [A], 0) == Ok(OrderedMap([A], map[A := [0]]));
    assert InsertKey([A], B) == [A, B];
  }

  lemma SecondAdd()
    ensures AddJurors(FirstTree(), [C], 1) == Ok(Tree())
  {
    assert InsertKey([B], C) == [B, C];
    assert InsertKey([A, B], C) == [A, B, C];
    assert FirstTree().entries[C := [1]] == Tree().entries;
  }

  /** The state after installation by `ADMIN_KEY` and `add([A, B])`. */
  function AfterFirstAdd(): (s: State)
    ensures s.tree == FirstTree() && |s.log| == 0 && |s.pending| == 1
    ensures s.IsAuthorized(ADMIN_KEY)
  {
    FirstAdd();
    assert Init(ADMIN_KEY, None).Length() == 0;
    AddSpec(Lib(), Init(ADMIN_KEY, None), ADMIN_KEY, [A, B], MEMO).1
  }

  /** The state after `add([C])` as well. */
  function AfterAdds(): (s: State)
    ensures s.tree == Tree() && |s.log| == 0 && |s.pending| == 2
    ensures s.IsAuthorized(ADMIN_KEY)
  {
    SecondAdd();
    assert AfterFirstAdd().Length() == 1;
    AddSpec(Lib(), AfterFirstAdd(), ADMIN_KEY, [C], MEMO).1
  }

  lemma Pools()
    ensures PoolAt(Tree(), 0) == [A, B]
    ensures PoolAt(Tree(), 2) == [A, B, C]
  {
    assert ActiveAt([0], 0) && ActiveAt([0], 2) && ActiveAt([1], 2) && !ActiveAt([1], 0);
  }

  /** The first draw over a pool of two is 1. */
  lemma SelectStream()
    ensures var s := StreamFor(Countdown, ZERO_HASH, 2);
      Covers(s, 1) && Sampled(s, 1) == [1]
  {
    var s := StreamFor(Countdown, ZERO_HASH, 2);
    assert Draw(s, 0) == 1;
    assert Firsts(s, 1) == [1];
    SampledCanonical(s, 1, 1);
  }

  /** The first two draws over a pool of three are 2 and 1. */
  lemma ExpandStream()
    ensures var s := StreamFor(Countdown, ZERO_HASH, 3);
      Covers(s, 2) && Sampled(s, 2) == [2, 1]
  {
    var s := StreamFor(Countdown, ZERO_HASH, 3);
    assert Draw(s, 0) == 2 && Draw(s, 1) == 1;
    assert Firsts(s, 1) == [2];
    assert Firsts(s, 2) == [2, 1];
    SampledCanonical(s, 2, 2);
  }

  lemma Picks()
    ensures Pick([A, B], [1]) == [B]
    ensures Pick([A, B, C], [2, 1]) == [C, B]
  {
    assert Pick([A, B, C], [2]) == [C];
  }

  /** `select(0, 1)` draws `B`: the pool at 0 is `[A, B]` and the first draw is 1. */
  lemma SelectDraw()
    ensures Fair(Countdown)
    ensures JuryOf(Tree(), 0, 1, ZERO_HASH, Countdown) == Ok([B])
  {
    CountdownFair();
    Pools();
    SelectStream();
    Picks();
  }

  /** Redrawing two jurors at position 2 gives `[C, B]`: the pool there is
      `[A, B, C]` and the first draws are 2 and 1. */
  lemma ExpandDraw()
    ensures Fair(Countdown)
    ensures JuryOf(Tree(), 2, 2, ZERO_HASH, Countdown) == Ok([C, B])
  {
    CountdownFair();
    Pools();
    ExpandStream();
    Picks();
  }

  const SELECTED: Data := Data(Kind.Select, [B], Some(ZERO_HASH), 0, MEMO)
  const EXPANDED: Data := Data(Kind.Expand, [B], Some(ZERO_HASH), 0, MEMO)

  /** The state after `select(0, 1)` as well. */
  function AfterSelect(): (s: State)
    ensures s.tree == Tree() && |s.log| == 0 && |s.pending| == 3 && s.pending[2] == SELECTED
    ensures s.IsAuthorized(ADMIN_KEY)
  {
    Certify(Lib(), Push(AfterAdds(), SELECTED))
  }

  /** `select(0, 1)` after the adds records `[B]` at position 2. */
  lemma SelectRun()
    ensures Fair(Lib().uniform)
    ensures SelectSpec(Lib(), AfterAdds(), ADMIN_KEY, 0, 1, MEMO, Some(ZERO_HASH)) == (Ok(2), AfterSelect())
  {
    SelectDraw();
    assert SelectEvent(Lib(), AfterAdds(), 0, 1, MEMO, Some(ZERO_HASH)) == Ok(SELECTED);
    assert AfterAdds().Length() == 2;
  }

  /** The event `expand(2, 1)` builds: the tail `[B]` of the redraw `[C, B]`. */
  lemma ExpandEventHere()
    ensures Fair(Lib().uniform)
    ensures ExpandEvent(Lib(), AfterSelect(), 2, 1, MEMO) == Ok(EXPANDED)
  {
    ExpandDraw();
    var s1 := AfterSelect();
    assert Lib().uniform == Countdown;
    assert GetBlock(s1, 2) == Ok(PendingBlock(SELECTED));
    assert ToU32(|SELECTED.jurors|) == 1 && ToU32(1 + 1) == 2;
    assert [C, B][1..] == [B];
  }

  /** `expand(2, 1)` then records `[B]` at position 3. */
  lemma ExpandRun()
    ensures Fair(Lib().uniform)
    ensures ExpandSpec(Lib(), AfterSelect(), ADMIN_KEY, 2, 1, MEMO)
            == (Ok(3), Certify(Lib(), Push(AfterSelect(), EXPANDED)))
  {
    ExpandEventHere();
    assert AfterSelect().Length() == 3;
  }

  /** The jury of one at position 2 is `[C]`, not the recorded `[B]`. */
  lemma RedrawOfOne()
    ensures Fair(Countdown)
    ensures JuryOf(Tree(), 2, 1, ZERO_HASH, Countdown) == Ok([C])
  {
    ExpandDraw();
    JuryPrefix(Tree(), 2, 1, 1, ZERO_HASH, Countdown);
    assert [C, B][..1] == [C];
  }

  /** After `select(0, 1)` records `[B]` at position 2, `expand(2, 1)`
      records `[B]` again, so the expanded jury names `B` twice. The
      recorded jury is not the one the pool at 2 gives for its size. */
  lemma RepeatedJuror()
    ensures Fair(Lib().uniform)
    ensures SelectSpec(Lib(), AfterAdds(), ADMIN_KEY, 0, 1, MEMO, Some(ZERO_HASH)) == (Ok(2), AfterSelect())
    ensures AfterSelect().pending[2].jurors == [B]
    ensures JuryOf(AfterSelect().tree, 2, 1, ZERO_HASH, Lib().uniform) == Ok([C])
    ensures var (r, s) := ExpandSpec(Lib(), AfterSelect(), ADMIN_KEY, 2, 1, MEMO);
      r == Ok(3) && s.pending[3].jurors == [B]
  {
    SelectRun();
    ExpandRun();
    RedrawOfOne();
    assert Lib().uniform == Countdown;
  }
}
