/** Option and Result types used in place of Python's `None` and of the
    exceptions the backup script lets propagate. */
module Outcomes {

  /** An optional value: `None` is Python's `None`. */
  datatype Option<+T> = None | Some(value: T)

  /** A value or an error. */
  datatype Result<+T, +E> = Ok(value: T) | Err(error: E)
}

/** File contents and their fingerprints. */
module Content {

  /** The bytes of a file. */
  type Bytes = seq<bv8>

  /** A content digest (`hashlib.md5(...).hexdigest()` in the script). The
      model never looks inside it: the digest function is a parameter. */
  type Digest = string
}

/** Small facts about slicing, proved once for any element type. */
module Sequences {
  /** The head and tail of a non-empty prefix. */
  lemma PrefixCons<T>(xs: seq<T>, j: nat)
    requires j + 1 < |xs|
    ensures xs[..j + 1][0] == xs[0]
    ensures xs[..j + 1][1..] == xs[1..][..j]
    ensures xs[j + 1] == xs[1..][j]
  {
  }

  /** The head and tail of a sequence with one element appended. */
  lemma SnocCons<T>(xs: seq<T>, x: T)
    requires |xs| > 0
    ensures (xs + [x])[0] == xs[0]
    ensures (xs + [x])[1..] == xs[1..] + [x]
  {
  }

  /** A slice that lies in the second half of a concatenation. */
  lemma SliceOfRight<T>(a: seq<T>, b: seq<T>, lo: nat, hi: nat)
    requires |a| <= lo <= hi <= |a| + |b|
    ensures (a + b)[lo..hi] == b[lo - |a|..hi - |a|]
  {
  }

  /** Overwriting the only key of a one-entry map. */
  lemma OverwriteSingleton<K, V>(k: K, a: V, b: V)
    ensures map[k := a][k := b] == map[k := b]
  {
  }
}
