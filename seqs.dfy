/** Small facts about sequences that the buffer and text proofs share. */
module Seqs {

  /** Concatenation is associative; stated once so that longer proofs about
      streamed text need not rediscover it. */
  lemma AppendAssoc<T>(a: seq<T>, b: seq<T>, c: seq<T>)
    ensures (a + b) + c == a + (b + c)
  {
  }

  /** The prefix as long as the whole sequence is the sequence. */
  lemma TakeAll<T>(s: seq<T>)
    ensures s[..|s|] == s
  {
  }

  /** After writing `b` at offset `k` of a sequence whose first `k` elements
      are kept, its first `k + |b|` elements are the old prefix followed by `b`. */
  lemma PrefixExtend<T>(before: seq<T>, after: seq<T>, k: nat, b: seq<T>)
    requires k + |b| <= |before| == |after|
    requires after[..k] == before[..k]
    requires after[k..k + |b|] == b
    ensures after[..k + |b|] == before[..k] + b
  {
    assert after[..k + |b|] == after[..k] + after[k..k + |b|];
  }

  /** `f` applied to each element, in order. */
  function Map<T, U>(f: T -> U, s: seq<T>): (r: seq<U>)
    ensures |r| == |s|
  {
    seq(|s|, k requires 0 <= k < |s| => f(s[k]))
  }

  /** Mapping a sequence that is one element longer adds one image. */
  lemma MapLast<T, U>(f: T -> U, s: seq<T>)
    requires |s| > 0
    ensures Map(f, s) == Map(f, s[..|s| - 1]) + [f(s[|s| - 1])]
  {
  }

  /** Mapping the run `s[lo..hi + 1]` adds the image of `s[hi]`. */
  lemma MapSnoc<T, U>(f: T -> U, s: seq<T>, lo: nat, hi: nat)
    requires lo <= hi < |s|
    ensures Map(f, s[lo..hi + 1]) == Map(f, s[lo..hi]) + [f(s[hi])]
  {
  }

  /** Mapping distributes over cutting a prefix at `lo`. */
  lemma MapSplit<T, U>(f: T -> U, s: seq<T>, lo: nat, hi: nat)
    requires lo <= hi <= |s|
    ensures Map(f, s[..hi]) == Map(f, s[..lo]) + Map(f, s[lo..hi])
  {
  }

  /** The middle part of a three-part concatenation. */
  lemma SliceMiddle<T>(a: seq<T>, b: seq<T>, c: seq<T>)
    ensures |a| + |b| <= |a + b + c|
    ensures (a + b + c)[|a|..|a| + |b|] == b
  {
  }
}
