/** 32-bit settings as the sets of their one-bits: masked updates, and packing into two words. */
module Bits {

  type Word = w: set<nat> | forall k <- w :: k < 32

  /** (x & ~m) | (v & m) */
  function Merge(x: Word, v: Word, m: Word): Word {
    (x - m) + (v * m)
  }

  /** (m[15:0] << 16) | v[15:0] */
  function WordA(v: Word, m: Word): Word {
    set k: nat | k < 32 && (if k < 16 then k in v else k - 16 in m)
  }

  /** (m[31:16] << 16) | v[31:16] */
  function WordB(v: Word, m: Word): Word {
    set k: nat | k < 32 && (if k < 16 then k + 16 in v else k in m)
  }

  /** What the device reads back out of a register's two words. */
  function SentMask(a: Word, b: Word): Word {
    set k: nat | k < 32 && (if k < 16 then k + 16 in a else k in b)
  }

  function SentValue(a: Word, b: Word): Word {
    set k: nat | k < 32 && (if k < 16 then k in a else k - 16 in b)
  }

  lemma PackingRoundTrip(v: Word, m: Word)
    ensures SentMask(WordA(v, m), WordB(v, m)) == m
    ensures SentValue(WordA(v, m), WordB(v, m)) == v
  {
  }

  /** Coalescing loses nothing: the merged cache entry acts like the two writes in order. */
  lemma Coalesce(x: Word, v0: Word, m0: Word, v: Word, m: Word)
    ensures Merge(x, Merge(v0, v, m), m0 + m) == Merge(Merge(x, v0, m0), v, m)
  {
  }

  lemma MergeNothing(x: Word, v: Word)
    ensures Merge(x, v, {}) == x
  {
  }

  lemma MergeKeeps(x: Word, v: Word, m: Word, bits: Word)
    requires m !! bits
    ensures Merge(x, v, m) * bits == x * bits
  {
  }

  lemma MergePicks(x: Word, v: Word, m: Word, bits: Word)
    requires bits <= m
    ensures Merge(x, v, m) * bits == v * bits
  {
  }

  /** Where x and v already agree, any masked update from v leaves them agreeing. */
  lemma MergeAgrees(x: Word, v: Word, m: Word, bits: Word)
    requires bits * v == bits * x
    ensures Merge(x, v, m) * bits == v * bits
  {
    assert forall k :: k in bits ==> (k in x <==> k in bits * x);
    assert forall k :: k in bits ==> (k in v <==> k in bits * v);
  }
}
