/**
  Gathering one block of items per element of a sequence into one flat list, as a loop that
  pushes each element's block onto a growing array does, where computing a block may throw
  and a throw abandons the whole list.
*/
module Blocks {
  import opened Results

  /** The blocks of `xs` concatenated in order, or the error of the first element whose block
      fails. */
  function ConcatBlocks<T, U, E>(xs: seq<T>, block: T -> Result<seq<U>, E>): Result<seq<U>, E>
  {
    if xs == [] then Ok([])
    else
      var before :- ConcatBlocks(xs[..|xs| - 1], block);
      var last :- block(xs[|xs| - 1]);
      Ok(before + last)
  }

  /** The total length of the blocks that succeed. */
  function TotalSize<T, U, E>(xs: seq<T>, block: T -> Result<seq<U>, E>): nat
  {
    if xs == [] then 0
    else
      var last := block(xs[|xs| - 1]);
      TotalSize(xs[..|xs| - 1], block) + (if last.Ok? then |last.value| else 0)
  }

  /** A single element contributes exactly its block. */
  lemma ConcatSingle<T, U, E>(x: T, block: T -> Result<seq<U>, E>)
    ensures ConcatBlocks([x], block) == block(x)
  {
    assert [x][..0] == [];
    if block(x).Ok? {
      assert [] + block(x).value == block(x).value;
    }
  }

  /** An error in a prefix is the error of the whole sequence. */
  lemma {:induction false} PrefixErrorAborts<T, U, E>(xs: seq<T>, block: T -> Result<seq<U>, E>, k: nat)
    requires k <= |xs|
    requires ConcatBlocks(xs[..k], block).Err?
    ensures ConcatBlocks(xs, block) == ConcatBlocks(xs[..k], block)
    decreases |xs| - k
  {
    if k < |xs| {
      assert xs[..k + 1][..k] == xs[..k];
      PrefixErrorAborts(xs, block, k + 1);
    } else {
      assert xs[..k] == xs;
    }
  }

  /** Two consecutive stretches: the blocks of the first, then those of the second; the
      first error met aborts. */
  lemma {:induction false} ConcatAppend<T, U, E>(a: seq<T>, b: seq<T>, block: T -> Result<seq<U>, E>)
    ensures ConcatBlocks(a + b, block) ==
      if ConcatBlocks(a, block).Err? then ConcatBlocks(a, block)
      else if ConcatBlocks(b, block).Err? then ConcatBlocks(b, block)
      else Ok(ConcatBlocks(a, block).value + ConcatBlocks(b, block).value)
    decreases |b|
  {
    if b == [] {
      assert a + b == a;
      if ConcatBlocks(a, block).Ok? {
        assert ConcatBlocks(a, block).value + [] == ConcatBlocks(a, block).value;
      }
    } else {
      var n := |b| - 1;
      ConcatAppend(a, b[..n], block);
      assert (a + b)[..|a + b| - 1] == a + b[..n];
      assert (a + b)[|a + b| - 1] == b[n];
      var ra, ri, rl := ConcatBlocks(a, block), ConcatBlocks(b[..n], block), block(b[n]);
      if ra.Ok? && ri.Ok? && rl.Ok? {
        assert ra.value + ri.value + rl.value == ra.value + (ri.value + rl.value);
      }
    }
  }

  /** The list is built exactly when every block is, and then its length is the sum of the
      block lengths. */
  lemma {:induction false} ConcatSize<T, U, E>(xs: seq<T>, block: T -> Result<seq<U>, E>)
    ensures ConcatBlocks(xs, block).Ok? <==> forall k | 0 <= k < |xs| :: block(xs[k]).Ok?
    ensures ConcatBlocks(xs, block).Ok? ==> |ConcatBlocks(xs, block).value| == TotalSize(xs, block)
    decreases |xs|
  {
    if xs != [] {
      var n := |xs| - 1;
      ConcatSize(xs[..n], block);
      assert forall k | 0 <= k < n :: xs[..n][k] == xs[k];
    }
  }

  /** When the list cannot be built, its error is that of the first element whose block
      fails. */
  lemma {:induction false} FirstErrorWins<T, U, E>(xs: seq<T>, block: T -> Result<seq<U>, E>)
    requires ConcatBlocks(xs, block).Err?
    ensures exists k | 0 <= k < |xs| ::
      block(xs[k]) == ConcatBlocks(xs, block) &&
      forall j | 0 <= j < k :: block(xs[j]).Ok?
    decreases |xs|
  {
    var n := |xs| - 1;
    var init := xs[..n];
    assert forall k | 0 <= k < n :: init[k] == xs[k];
    if ConcatBlocks(init, block).Err? {
      FirstErrorWins(init, block);
      var k :| 0 <= k < |init| &&
        block(init[k]) == ConcatBlocks(init, block) &&
        forall j | 0 <= j < k :: block(init[j]).Ok?;
      assert block(xs[k]) == ConcatBlocks(xs, block);
    } else {
      ConcatSize(init, block);
      assert block(xs[n]) == ConcatBlocks(xs, block);
    }
  }

  /** Element k's block sits, whole and in order, right after the blocks of the elements
      before it. */
  lemma BlockPlacement<T, U, E>(xs: seq<T>, block: T -> Result<seq<U>, E>, k: nat)
    requires k < |xs|
    requires ConcatBlocks(xs, block).Ok?
    ensures block(xs[k]).Ok?
    ensures
      var all := ConcatBlocks(xs, block).value;
      var mine := block(xs[k]).value;
      var start := TotalSize(xs[..k], block);
      start + |mine| <= |all| && all[start..start + |mine|] == mine
  {
    var before, here, after := xs[..k], [xs[k]], xs[k + 1..];
    assert xs == before + here + after;
    ConcatAppend(before + here, after, block);
    ConcatAppend(before, here, block);
    ConcatSingle(xs[k], block);
    ConcatSize(before, block);
    var rb, mine, ra := ConcatBlocks(before, block).value, block(xs[k]).value, ConcatBlocks(after, block).value;
    assert ConcatBlocks(xs, block).value == rb + mine + ra;
    assert (rb + mine + ra)[|rb|..|rb| + |mine|] == mine;
  }
}
