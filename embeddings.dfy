/** Splitting the catalog rows into batches for the embedding job. */
module Embeddings {

  /** The batch size the embedding job uses. */
  const BatchSize: nat := 100

  /** Consecutive slices of `size` elements of `s`, the last one possibly shorter. */
  function Chunks<T>(s: seq<T>, size: nat): seq<seq<T>>
    decreases |s|
  {
    if size == 0 || s == [] then []
    else
      var k := if |s| < size then |s| else size;
      [s[..k]] + Chunks(s[k..], size)
  }

  /** The concatenation of all batches. */
  function Flatten<T>(bs: seq<seq<T>>): seq<T> {
    if bs == [] then [] else bs[0] + Flatten(bs[1..])
  }

  /**
   * get_batches: pull up to `batchSize` items at a time from one shared
   * position until a pull comes back empty, yielding every non-empty pull.
   */
  method GetBatches<T>(items: seq<T>, batchSize: nat) returns (batches: seq<seq<T>>)
    ensures batches == Chunks(items, batchSize)
    ensures batches == [] <==> batchSize == 0 || items == []
  {
    batches := [];
    var i := 0;
    while true
      invariant 0 <= i <= |items|
      invariant batches + Chunks(items[i..], batchSize) == Chunks(items, batchSize)
      decreases |items| - i
    {
      var end := if i + batchSize <= |items| then i + batchSize else |items|;
      var batch := items[i..end];
      if batch == [] {
        break;
      }
      assert Chunks(items[i..], batchSize) == [batch] + Chunks(items[end..], batchSize) by {
        assert items[i..][..end - i] == batch;
        assert items[i..][end - i..] == items[end..];
      }
      batches := batches + [batch];
      i := end;
    }
    assert Chunks(items[i..], batchSize) == [];
    if batchSize > 0 && items != [] {
      assert Chunks(items, batchSize) != [];
    }
  }

  /** Concatenating the batches gives back the input. */
  lemma {:induction false} FlattenChunks<T>(s: seq<T>, size: nat)
    requires size >= 1
    ensures Flatten(Chunks(s, size)) == s
    decreases |s|
  {
    if s != [] {
      var k := if |s| < size then |s| else size;
      FlattenChunks(s[k..], size);
      assert s[..k] + s[k..] == s;
    }
  }

  /**
   * Every batch is non-empty and holds at most `size` items, and every batch
   * but the last holds exactly `size`.
   */
  lemma {:induction false} ChunkSizes<T>(s: seq<T>, size: nat)
    ensures forall k :: 0 <= k < |Chunks(s, size)| ==> 0 < |Chunks(s, size)[k]| <= size
    ensures forall k :: 0 <= k < |Chunks(s, size)| - 1 ==> |Chunks(s, size)[k]| == size
    decreases |s|
  {
    if size != 0 && s != [] {
      var k := if |s| < size then |s| else size;
      ChunkSizes(s[k..], size);
      var cs := Chunks(s, size);
      assert cs == [s[..k]] + Chunks(s[k..], size);
      if k < size {
        assert s[k..] == [];
      }
      forall j | 0 <= j < |cs| ensures 0 < |cs[j]| <= size {
        if j > 0 { assert cs[j] == Chunks(s[k..], size)[j - 1]; }
      }
      forall j | 0 <= j < |cs| - 1 ensures |cs[j]| == size {
        if j > 0 { assert cs[j] == Chunks(s[k..], size)[j - 1]; }
      }
    }
  }

  /** With a positive size there are ceil(n / size) batches. */
  lemma {:induction false} ChunkCount<T>(s: seq<T>, size: nat)
    requires size >= 1
    ensures |Chunks(s, size)| == (|s| + size - 1) / size
    decreases |s|
  {
    if s != [] {
      var k := if |s| < size then |s| else size;
      ChunkCount(s[k..], size);
      if k == size {
        DivStep(|s| - size + size - 1, size);
      } else {
        DivOne(|s| + size - 1, size);
      }
    }
  }

  /** Adding the divisor once adds one to the quotient. */
  lemma DivStep(a: nat, d: nat)
    requires d >= 1
    ensures (a + d) / d == a / d + 1
  {
    var q, r := a / d, a % d;
    var q', r' := (a + d) / d, (a + d) % d;
    assert a == q * d + r && 0 <= r < d;
    assert a + d == q' * d + r' && 0 <= r' < d;
    assert (q' - q - 1) * d == r - r' by {
      assert (q' - q - 1) * d == q' * d - q * d - d;
    }
    SmallMultipleIsZero(q' - q - 1, d, r - r');
  }

  /** A multiple of `d` strictly between -d and d is zero times `d`. */
  lemma SmallMultipleIsZero(x: int, d: int, y: int)
    requires d >= 1 && x * d == y && -d < y < d
    ensures x == 0
  {
  }

  /** A number from the divisor up to twice it, exclusive, has quotient one. */
  lemma DivOne(a: nat, d: nat)
    requires 1 <= d <= a < 2 * d
    ensures a / d == 1
  {
    assert a == 1 * d + (a - d);
  }
}
