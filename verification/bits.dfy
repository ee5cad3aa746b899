/** Bit-level view of byte strings, as used by every command of `bitops.c`:
    bit 0 is the most significant bit of byte 0, and a string is read as if it
    were padded with zero bytes on the right. */
module Bits {

  /** The mask selecting bit `k` of a byte, counted from the most significant. */
  function Mask(k: nat): bv8
    requires k < 8
  {
    if k == 0 then 0x80 else if k == 1 then 0x40 else if k == 2 then 0x20 else if k == 3 then 0x10
    else if k == 4 then 0x08 else if k == 5 then 0x04 else if k == 6 then 0x02 else 0x01
  }

  predicate BitOf(b: bv8, k: nat)
    requires k < 8
  {
    b & Mask(k) != 0
  }

  /** Bit `i` of the zero-padded string `s`. */
  predicate Bit(s: seq<bv8>, i: nat) {
    i / 8 < |s| && BitOf(s[i / 8], i % 8)
  }

  function One(b: bool): nat { if b then 1 else 0 }

  /** How many of the bits `lo, lo+1, .., hi-1` of `s` are set. */
  function CountRange(s: seq<bv8>, lo: nat, hi: nat): nat {
    if lo >= hi then 0 else CountRange(s, lo, hi - 1) + One(Bit(s, hi - 1))
  }

  lemma {:induction false} CountRangeSplit(s: seq<bv8>, lo: nat, mid: nat, hi: nat)
    requires lo <= mid <= hi
    ensures CountRange(s, lo, hi) == CountRange(s, lo, mid) + CountRange(s, mid, hi)
    decreases hi - mid
  {
    hide Bit;
    if mid < hi { CountRangeSplit(s, lo, mid, hi - 1); }
  }

  /** The number of ones among the first `k` bits of a byte. */
  function OnesUpTo(b: bv8, k: nat): nat
    requires k <= 8
  {
    if k == 0 then 0 else OnesUpTo(b, k - 1) + One(BitOf(b, k - 1))
  }

  function Ones(b: bv8): nat { OnesUpTo(b, 8) }

  lemma OnesUnfold(b: bv8)
    ensures Ones(b) == One(BitOf(b, 0)) + One(BitOf(b, 1)) + One(BitOf(b, 2)) + One(BitOf(b, 3))
                       + One(BitOf(b, 4)) + One(BitOf(b, 5)) + One(BitOf(b, 6)) + One(BitOf(b, 7))
  {
    hide BitOf;
    assert OnesUpTo(b, 1) == One(BitOf(b, 0));
    assert OnesUpTo(b, 2) == OnesUpTo(b, 1) + One(BitOf(b, 1));
    assert OnesUpTo(b, 3) == OnesUpTo(b, 2) + One(BitOf(b, 2));
    assert OnesUpTo(b, 4) == OnesUpTo(b, 3) + One(BitOf(b, 3));
    assert OnesUpTo(b, 5) == OnesUpTo(b, 4) + One(BitOf(b, 4));
    assert OnesUpTo(b, 6) == OnesUpTo(b, 5) + One(BitOf(b, 5));
    assert OnesUpTo(b, 7) == OnesUpTo(b, 6) + One(BitOf(b, 6));
  }

  lemma BitInByte(s: seq<bv8>, j: nat, k: nat)
    requires j < |s| && k < 8
    ensures Bit(s, 8 * j + k) == BitOf(s[j], k)
  {
    assert (8 * j + k) / 8 == j && (8 * j + k) % 8 == k;
  }

  lemma {:induction false} CountInByte(s: seq<bv8>, j: nat, k: nat)
    requires j < |s| && k <= 8
    ensures CountRange(s, 8 * j, 8 * j + k) == OnesUpTo(s[j], k)
  {
    hide BitOf, Bit;
    if k > 0 {
      CountInByte(s, j, k - 1);
      BitInByte(s, j, k - 1);
    }
  }

  /** A byte is determined by its bits. */
  lemma ByteExtensional(a: bv8, b: bv8)
    requires forall k | 0 <= k < 8 :: BitOf(a, k) == BitOf(b, k)
    ensures a == b
  {
    assert BitOf(a, 0) == BitOf(b, 0) && BitOf(a, 1) == BitOf(b, 1);
    assert BitOf(a, 2) == BitOf(b, 2) && BitOf(a, 3) == BitOf(b, 3);
    assert BitOf(a, 4) == BitOf(b, 4) && BitOf(a, 5) == BitOf(b, 5);
    assert BitOf(a, 6) == BitOf(b, 6) && BitOf(a, 7) == BitOf(b, 7);
  }
}
