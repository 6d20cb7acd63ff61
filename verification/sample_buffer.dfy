/**
 * The capture buffer of every recording page: an array of sample blocks
 * (one per audio-process callback) that exportWAV flattens into one
 * contiguous sample array before encoding.
 */
module SampleBuffer {

  /** Reference meaning of the flattened buffer: the blocks joined in delivery order. */
  function Flatten(blocks: seq<seq<real>>): seq<real>
  {
    if |blocks| == 0 then [] else Flatten(blocks[..|blocks| - 1]) + blocks[|blocks| - 1]
  }

  /** `buffers.reduce((acc, cur) => acc + cur.length, 0)`. */
  function TotalLength(blocks: seq<seq<real>>): nat
  {
    if |blocks| == 0 then 0 else TotalLength(blocks[..|blocks| - 1]) + |blocks[|blocks| - 1]|
  }

  /** The flattened buffer is exactly as long as the blocks together. */
  lemma {:induction false} FlattenLength(blocks: seq<seq<real>>)
    ensures |Flatten(blocks)| == TotalLength(blocks)
  {
    if |blocks| > 0 {
      FlattenLength(blocks[..|blocks| - 1]);
    }
  }

  /** Flattening distributes over appending further blocks: nothing is reordered. */
  lemma {:induction false} FlattenAppend(a: seq<seq<real>>, b: seq<seq<real>>)
    ensures Flatten(a + b) == Flatten(a) + Flatten(b)
    decreases |b|
  {
    if |b| == 0 {
      assert a + b == a;
    } else {
      var b' := b[..|b| - 1];
      assert (a + b)[..|a + b| - 1] == a + b';
      FlattenAppend(a, b');
    }
  }

  /** The length of a prefix of the blocks never exceeds the length of all of them. */
  lemma {:induction false} TotalLengthPrefix(blocks: seq<seq<real>>, k: nat)
    requires k <= |blocks|
    ensures TotalLength(blocks[..k]) <= TotalLength(blocks)
    decreases |blocks| - k
  {
    if k < |blocks| {
      TotalLengthPrefix(blocks, k + 1);
      assert blocks[..k + 1][..k] == blocks[..k];
    } else {
      assert blocks[..k] == blocks;
    }
  }

  /**
   * Block k occupies, unchanged, the slice of the flattened buffer that starts
   * after the blocks delivered before it.
   */
  lemma BlockInPlace(blocks: seq<seq<real>>, k: nat)
    requires k < |blocks|
    ensures TotalLength(blocks[..k]) + |blocks[k]| <= |Flatten(blocks)|
    ensures Flatten(blocks)[TotalLength(blocks[..k])..TotalLength(blocks[..k]) + |blocks[k]|] == blocks[k]
  {
    var pre, post := blocks[..k + 1], blocks[k + 1..];
    assert blocks == pre + post;
    FlattenAppend(pre, post);
    assert pre[..k] == blocks[..k];
    FlattenLength(blocks[..k]);
  }

  /**
   * exportWAV's copy loop: allocate a zero-filled array of the total length,
   * then `data.set(b, offset); offset += b.length` for each block in order.
   */
  method Concatenate(blocks: seq<seq<real>>) returns (data: seq<real>)
    ensures |data| == TotalLength(blocks)
    ensures data == Flatten(blocks)
  {
    var bufferLength := TotalLength(blocks);
    data := seq(bufferLength, _ => 0.0);
    var offset := 0;
    var k := 0;
    while k < |blocks|
      invariant 0 <= k <= |blocks|
      invariant offset == TotalLength(blocks[..k])
      invariant |data| == bufferLength
      invariant offset <= bufferLength
      invariant data[..offset] == Flatten(blocks[..k])
    {
      var b := blocks[k];
      assert blocks[..k + 1][..k] == blocks[..k];
      TotalLengthPrefix(blocks, k + 1);
      data := data[..offset] + b + data[offset + |b|..];
      offset := offset + |b|;
      k := k + 1;
    }
    assert blocks[..k] == blocks;
  }
}
