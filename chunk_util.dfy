/** The array helper `chunkArray` that the bulk committer imports from
    packages/seeder/src/utils/array.ts. That file is not part of this model;
    the function below gives it its usual meaning: consecutive slices of the
    given size, the last one possibly shorter. */
module ChunkUtil {
  import opened Util

  /** The concatenation of a sequence of chunks. */
  function Flatten<T>(chunks: seq<seq<T>>): seq<T>
  {
    if chunks == [] then [] else chunks[0] + Flatten(chunks[1..])
  }

  /** Adding a chunk at the end adds its elements at the end. */
  lemma {:induction false} FlattenSnoc<T>(chunks: seq<seq<T>>, chunk: seq<T>)
    ensures Flatten(chunks + [chunk]) == Flatten(chunks) + chunk
  {
    if chunks != [] {
      assert (chunks + [chunk])[1..] == chunks[1..] + [chunk];
      FlattenSnoc(chunks[1..], chunk);
    } else {
      assert [chunk][1..] == [];
    }
  }

  /** Splits xs into consecutive chunks: every chunk is non-empty and holds at
      most size elements, all but the last hold exactly size, the chunks
      concatenate back to xs, and there are ceil(|xs| / size) of them. */
  function ChunkArray<T>(xs: seq<T>, size: nat): (chunks: seq<seq<T>>)
    requires size > 0
    ensures Flatten(chunks) == xs
    ensures forall i :: 0 <= i < |chunks| ==> 0 < |chunks[i]| <= size
    ensures forall i :: 0 <= i < |chunks| - 1 ==> |chunks[i]| == size
    ensures |chunks| == (|xs| + size - 1) / size
    decreases |xs|
  {
    if xs == [] then
      DivUnique(size - 1, size, 0, size - 1);
      []
    else if |xs| <= size then
      DivUnique(|xs| + size - 1, size, 1, |xs| - 1);
      [xs]
    else
      var rest := ChunkArray(xs[size..], size);
      ChunkStep(xs, size, rest);
      [xs[..size]] + rest
  }

  /** Putting the first size elements in front of a chunking of the rest
      gives a chunking of the whole. */
  lemma ChunkStep<T>(xs: seq<T>, size: nat, rest: seq<seq<T>>)
    requires 0 < size < |xs|
    requires Flatten(rest) == xs[size..]
    requires forall i :: 0 <= i < |rest| ==> 0 < |rest[i]| <= size
    requires forall i :: 0 <= i < |rest| - 1 ==> |rest[i]| == size
    requires |rest| == (|xs| - size + size - 1) / size
    ensures var chunks := [xs[..size]] + rest;
      Flatten(chunks) == xs
      && (forall i :: 0 <= i < |chunks| ==> 0 < |chunks[i]| <= size)
      && (forall i :: 0 <= i < |chunks| - 1 ==> |chunks[i]| == size)
      && |chunks| == (|xs| + size - 1) / size
  {
    var chunks := [xs[..size]] + rest;
    assert chunks[1..] == rest;
    assert forall i :: 1 <= i < |chunks| ==> chunks[i] == rest[i - 1];
    assert xs[..size] + xs[size..] == xs;
    DivPlusDivisor(|xs| - size + size - 1, size);
  }
}
