/** Splitting one text block into the pieces the bot sends as separate chat
    messages: `block[i:i+4096]` for `i` in `range(0, len(block), 4096)`. */
module Chunking {
  import opened Strings

  /** The largest text, in characters, that one chat message may carry. */
  const MaxMessageLength: nat := 4096

  function Min(a: int, b: int): int {
    if a <= b then a else b
  }

  /** The slices `block[i:i+4096]` for `i` in `range(start, len(block), 4096)`.
      Each is between 1 and 4096 characters long, and every one but the last
      is exactly 4096 characters long. */
  function ChunksFrom(block: string, start: nat): (r: seq<string>)
    ensures forall k :: 0 <= k < |r| ==> 1 <= |r[k]| <= MaxMessageLength
    ensures forall k :: 0 <= k < |r| - 1 ==> |r[k]| == MaxMessageLength
    decreases |block| - start
  {
    if start >= |block| then []
    else [block[start..Min(start + MaxMessageLength, |block|)]] + ChunksFrom(block, start + MaxMessageLength)
  }

  /** The pieces of a whole block. An empty block has none, and a block that
      fits in one message is its own single piece. */
  function Chunks(block: string): (r: seq<string>)
    ensures r == [] <==> block == []
    ensures 0 < |block| <= MaxMessageLength ==> r == [block]
  {
    assert 0 < |block| <= MaxMessageLength ==>
      block[0..|block|] == block && ChunksFrom(block, MaxMessageLength) == [];
    ChunksFrom(block, 0)
  }

  /** The pieces from `start` on, put back together, are the rest of the
      block from `start`: nothing lost, nothing repeated, order kept. */
  lemma {:induction false} ChunksFromConcat(block: string, start: nat)
    requires start <= |block|
    ensures Concat(ChunksFrom(block, start)) == block[start..]
    decreases |block| - start
  {
    if start < |block| {
      var end := Min(start + MaxMessageLength, |block|);
      var piece := block[start..end];
      var rest := ChunksFrom(block, start + MaxMessageLength);
      assert ChunksFrom(block, start) == [piece] + rest;
      if end < |block| {
        ChunksFromConcat(block, end);
      } else {
        assert rest == [];
      }
      assert Concat(rest) == block[end..];
      ConcatAppend([piece], rest);
      assert Concat([piece]) == piece by {
        assert [piece][..0] == [];
      }
      assert block[start..] == piece + block[end..];
    }
  }

  lemma ChunksConcat(block: string)
    ensures Concat(Chunks(block)) == block
  {
    ChunksFromConcat(block, 0);
  }

  /** There are ⌈(len(block) - start) / 4096⌉ pieces from `start` on. */
  lemma {:induction false} ChunksFromCount(block: string, start: nat)
    requires start <= |block|
    ensures |ChunksFrom(block, start)| == (|block| - start + MaxMessageLength - 1) / MaxMessageLength
    decreases |block| - start
  {
    if start < |block| && start + MaxMessageLength <= |block| {
      ChunksFromCount(block, start + MaxMessageLength);
    }
  }

  /** A block of `len` characters yields ⌈len / 4096⌉ pieces. */
  lemma ChunksCount(block: string)
    ensures |Chunks(block)| == (|block| + MaxMessageLength - 1) / MaxMessageLength
  {
    ChunksFromCount(block, 0);
  }

  /** A block longer than one message but no longer than two is sent as its
      first 4096 characters, then the rest. */
  lemma ChunksTwo(block: string)
    requires MaxMessageLength < |block| <= 2 * MaxMessageLength
    ensures Chunks(block) == [block[..MaxMessageLength], block[MaxMessageLength..]]
  {
    assert ChunksFrom(block, 2 * MaxMessageLength) == [];
    assert block[MaxMessageLength..|block|] == block[MaxMessageLength..];
    assert ChunksFrom(block, MaxMessageLength) == [block[MaxMessageLength..]];
  }

}
