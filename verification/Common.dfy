/** Values that may be absent: SQL NULL, an empty result set, nil. */
module Common {
  datatype Option<T> = None | Some(value: T)
}

/** Byte strings. */
module ByteStrings {
  type byte = b: int | 0 <= b < 256
  type Bytes = seq<byte>

  function Concat(chunks: seq<Bytes>): Bytes {
    if chunks == [] then [] else Concat(chunks[..|chunks| - 1]) + chunks[|chunks| - 1]
  }

  lemma AppendChunk(chunks: seq<Bytes>, datum: Bytes)
    ensures Concat(chunks + [datum]) == Concat(chunks) + datum
  {
    assert (chunks + [datum])[..|chunks|] == chunks;
  }
}

/** Finite sets of numbers. */
module NatSets {
  lemma SubsetIsSmaller(m: set<nat>, n: set<nat>)
    requires m <= n
    ensures |m| <= |n|
  {
    assert n == m + (n - m);
  }

  ghost function Range(lo: nat, hi: nat): (s: set<nat>)
    requires lo <= hi
    ensures forall n :: n in s <==> lo <= n < hi
    ensures |s| == hi - lo
  {
    if lo == hi then {} else Range(lo, hi - 1) + {hi - 1}
  }
}
