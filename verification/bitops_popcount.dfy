/** `redisPopcount` and the range handling of `bitcountCommand` (bitops.c):
    the word-parallel population count equals the bit-by-bit count. */
module Popcount {
  import opened Base
  import opened Bits
  import opened BitRange

  // ---------------------------------------------------------------------
  // The 256-entry table, generated by the nested macros B2, B4 and B6.

  function Pair(x: bv8): nat
    requires x < 4
  {
    if x == 0 then 0 else if x == 3 then 2 else 1
  }

  /** `bitsinbyte[b]`: two bits of the index at a time select the macro offset. */
  function BitsInByte(b: bv8): (n: nat)
    ensures n <= 8
  {
    Pair(b >> 6) + Pair((b >> 4) & 3) + Pair((b >> 2) & 3) + Pair(b & 3)
  }

  lemma TableIsOnes(b: bv8)
    ensures BitsInByte(b) == Ones(b)
  {
    hide OnesUpTo;
    OnesUnfold(b);
    assert One(BitOf(b, 0)) + One(BitOf(b, 1)) == Pair(b >> 6);
    assert One(BitOf(b, 2)) + One(BitOf(b, 3)) == Pair((b >> 4) & 3);
    assert One(BitOf(b, 4)) + One(BitOf(b, 5)) == Pair((b >> 2) & 3);
    assert One(BitOf(b, 6)) + One(BitOf(b, 7)) == Pair(b & 3);
  }

  // ---------------------------------------------------------------------
  // SIMD-within-a-register arithmetic on 32-bit words.

  /** The three masking steps applied to each of the seven words. */
  function Swar(x: bv32): bv32 {
    var a := x - ((x >> 1) & 0x55555555);
    var b := (a & 0x33333333) + ((a >> 2) & 0x33333333);
    (b + (b >> 4)) & 0x0F0F0F0F
  }

  /** Byte lane `k` of a word. */
  function Lane(x: bv32, k: nat): bv8
    requires k < 4
  {
    if k == 0 then (x & 0xff) as bv8 else if k == 1 then ((x >> 8) & 0xff) as bv8
    else if k == 2 then ((x >> 16) & 0xff) as bv8 else (x >> 24) as bv8
  }

  /** The table lookup redone in eight-bit arithmetic. */
  function Pair8(x: bv8): bv8 { if x == 0 then 0 else if x == 3 then 2 else 1 }

  function Table8(b: bv8): bv8 {
    Pair8(b >> 6) + Pair8((b >> 4) & 3) + Pair8((b >> 2) & 3) + Pair8(b & 3)
  }

  function Down(x: bv32): bv32 { x >> 8 }

  lemma NextLane(x: bv32, k: nat)
    requires 0 < k < 4
    ensures Lane(x, k) == Lane(Down(x), k - 1)
  {
  }

  /** No lane borrows from or carries into its neighbour. */
  lemma SwarDown(x: bv32)
    ensures Swar(Down(x)) == Down(Swar(x))
  {
  }

  lemma SwarFirst(x: bv32)
    ensures Lane(Swar(x), 0) == Table8(Lane(x, 0))
  {
  }

  lemma {:induction false} SwarLane(x: bv32, k: nat)
    requires k < 4
    ensures Lane(Swar(x), k) == Table8(Lane(x, k))
    decreases k
  {
    hide Lane, Swar, Table8, Down;
    if k == 0 {
      SwarFirst(x);
    } else {
      NextLane(x, k);
      NextLane(Swar(x), k);
      SwarDown(x);
      SwarLane(Down(x), k - 1);
    }
  }

  /** A byte counted down to zero: its integer value, without conversions. */
  ghost function Value(a: bv8): nat
    decreases a
  {
    if a == 0 then 0 else 1 + Value(a - 1)
  }

  lemma {:induction false} ValueIsInt(a: bv8)
    ensures Value(a) == Int8(a)
    decreases a
  {
    if a != 0 { ValueIsInt(a - 1); }
  }

  /** Eight-bit addition agrees with integer addition while it does not wrap. */
  lemma {:induction false} Add8(a: bv8, b: bv8)
    requires a <= 128 && b <= 127
    ensures Value(a + b) == Value(a) + Value(b)
    decreases b
  {
    if b != 0 {
      Add8(a, b - 1);
      assert a + (b - 1) == a + b - 1;
    }
  }

  lemma PairValue(x: bv8)
    requires x < 4
    ensures Value(Pair8(x)) == Pair(x)
  {
    assert Value(1) == 1 + Value(0);
    assert Value(2) == 1 + Value(1);
  }

  lemma TableValue(b: bv8)
    ensures Value(Table8(b)) == BitsInByte(b) && Table8(b) <= 8
  {
    hide Value;
    var p, q, r, s := b >> 6, (b >> 4) & 3, (b >> 2) & 3, b & 3;
    PairValue(p); PairValue(q); PairValue(r); PairValue(s);
    Add8(Pair8(p), Pair8(q));
    Add8(Pair8(p) + Pair8(q), Pair8(r));
    Add8(Pair8(p) + Pair8(q) + Pair8(r), Pair8(s));
  }

  function Int8(b: bv8): nat { b as nat }

  lemma TableInt(b: bv8)
    ensures Int8(Table8(b)) == BitsInByte(b)
  {
    hide Value, BitsInByte, Table8, Int8;
    TableValue(b);
    ValueIsInt(Table8(b));
  }

  // ---------------------------------------------------------------------
  // From here on words are integers below 2^32.

  lemma HighHalf(w: bv32)
    requires w & 0xF0F0F0F0 == 0
    ensures w as int == (w & 0xffff) as int + 65536 * (w >> 16) as int
  {
  }

  lemma LowHalf(w: bv32)
    requires w & 0xFFFF0000 == 0
    ensures w as int == Int8(Lane(w, 0)) + 256 * Int8(Lane(w, 1))
  {
    assert w as int == (w & 0xff) as int + 256 * (w >> 8) as int;
    assert w & 0xff == Lane(w, 0) as bv32 && w >> 8 == Lane(w, 1) as bv32;
  }

  lemma HalvesHaveLanes(w: bv32)
    ensures (w & 0xffff) & 0xFFFF0000 == 0 && (w >> 16) & 0xFFFF0000 == 0
    ensures Lane(w & 0xffff, 0) == Lane(w, 0) && Lane(w & 0xffff, 1) == Lane(w, 1)
    ensures Lane(w >> 16, 0) == Lane(w, 2) && Lane(w >> 16, 1) == Lane(w, 3)
  {
  }

  lemma WordFromLanes(w: bv32)
    requires w & 0xF0F0F0F0 == 0
    ensures w as int == Int8(Lane(w, 0)) + 0x100 * Int8(Lane(w, 1))
                        + 0x10000 * Int8(Lane(w, 2)) + 0x1000000 * Int8(Lane(w, 3))
  {
    hide Lane, Int8;
    HighHalf(w);
    HalvesHaveLanes(w);
    LowHalf(w & 0xffff);
    LowHalf(w >> 16);
  }

  /** An aligned 32-bit load (little endian; the count does not depend on it). */
  function Load32(s: seq<bv8>, p: nat): bv32
    requires p + 4 <= |s|
  {
    s[p] as bv32 | (s[p + 1] as bv32 << 8) | (s[p + 2] as bv32 << 16) | (s[p + 3] as bv32 << 24)
  }

  lemma LoadLanes(a: bv8, b: bv8, c: bv8, d: bv8)
    ensures var x := a as bv32 | (b as bv32 << 8) | (c as bv32 << 16) | (d as bv32 << 24);
            Lane(x, 0) == a && Lane(x, 1) == b && Lane(x, 2) == c && Lane(x, 3) == d
  {
  }

  /** One masked word, as the 32-bit integer it is. */
  function Masked(s: seq<bv8>, p: nat): nat
    requires p + 4 <= |s|
  {
    Swar(Load32(s, p)) as nat
  }

  lemma SwarIsMasked(x: bv32)
    ensures Swar(x) & 0xF0F0F0F0 == 0
  {
  }

  lemma SwarLanes(x: bv32)
    ensures Swar(x) as int == BitsInByte(Lane(x, 0)) + 0x100 * BitsInByte(Lane(x, 1))
                              + 0x10000 * BitsInByte(Lane(x, 2)) + 0x1000000 * BitsInByte(Lane(x, 3))
  {
    hide Lane, Swar, BitsInByte, Table8, Int8;
    SwarIsMasked(x);
    WordFromLanes(Swar(x));
    SwarLane(x, 0); SwarLane(x, 1); SwarLane(x, 2); SwarLane(x, 3);
    TableInt(Lane(x, 0)); TableInt(Lane(x, 1)); TableInt(Lane(x, 2)); TableInt(Lane(x, 3));
  }

  lemma MaskedLanes(s: seq<bv8>, p: nat)
    requires p + 4 <= |s|
    ensures Masked(s, p) == Packed(BitsInByte(s[p]), BitsInByte(s[p + 1]), BitsInByte(s[p + 2]), BitsInByte(s[p + 3]))
  {
    hide Lane, Swar, BitsInByte;
    LoadLanes(s[p], s[p + 1], s[p + 2], s[p + 3]);
    SwarLanes(Load32(s, p));
  }

  const WORD := 0x1_0000_0000

  /** The first `n` masked words of a block added up in unsigned 32-bit arithmetic. */
  function Accumulate(s: seq<bv8>, p: nat, n: nat): nat
    requires p + 4 * n <= |s|
  {
    if n == 0 then 0 else (Accumulate(s, p, n - 1) + Masked(s, p + 4 * (n - 1))) % WORD
  }

  /** The value added to `bits` by one iteration of the 28-byte loop. */
  function Block28(s: seq<bv8>, p: nat): nat
    requires p + 28 <= |s|
  {
    Accumulate(s, p, 7) * 0x01010101 % WORD / 0x1000000
  }

  /** Number of ones in lane `k` of the first `n` words of a block. */
  function LaneOnes(s: seq<bv8>, p: nat, n: nat, k: nat): nat
    requires k < 4 && p + 4 * n <= |s|
  {
    if n == 0 then 0 else LaneOnes(s, p, n - 1, k) + BitsInByte(s[p + 4 * (n - 1) + k])
  }

  function Packed(a: nat, b: nat, c: nat, d: nat): nat { a + 0x100 * b + 0x10000 * c + 0x1000000 * d }

  /** Lanes that stay below 256 never carry into each other. */
  lemma LanesAdd(a: nat, b: nat, c: nat, d: nat, e: nat, f: nat, g: nat, h: nat)
    requires a + e < 0x100 && b + f < 0x100 && c + g < 0x100 && d + h < 0x100
    ensures (Packed(a, b, c, d) + Packed(e, f, g, h)) % WORD == Packed(a + e, b + f, c + g, d + h)
  {
    assert Packed(a, b, c, d) + Packed(e, f, g, h) == Packed(a + e, b + f, c + g, d + h);
    NoWrap(Packed(a + e, b + f, c + g, d + h));
  }

  lemma {:induction false} LaneBound(s: seq<bv8>, p: nat, n: nat, k: nat)
    requires k < 4 && p + 4 * n <= |s|
    ensures LaneOnes(s, p, n, k) <= 8 * n
  {
    hide BitsInByte;
    if n > 0 {
      LaneBound(s, p, n - 1, k);
    }
  }

  /** Seven words leave every lane at most 56. */
  lemma {:induction false} AccumulateLanes(s: seq<bv8>, p: nat, n: nat)
    requires n <= 7 && p + 4 * n <= |s|
    ensures Accumulate(s, p, n) == Packed(LaneOnes(s, p, n, 0), LaneOnes(s, p, n, 1), LaneOnes(s, p, n, 2), LaneOnes(s, p, n, 3))
  {
    hide BitsInByte, Masked, Packed;
    if n == 0 {
      assert Packed(0, 0, 0, 0) == 0 by { PackedNone(); }
    } else {
      var q := p + 4 * (n - 1);
      AccumulateLanes(s, p, n - 1);
      MaskedLanes(s, q);
      LaneBound(s, p, n - 1, 0); LaneBound(s, p, n - 1, 1); LaneBound(s, p, n - 1, 2); LaneBound(s, p, n - 1, 3);
      LanesAdd(LaneOnes(s, p, n - 1, 0), LaneOnes(s, p, n - 1, 1), LaneOnes(s, p, n - 1, 2), LaneOnes(s, p, n - 1, 3),
               BitsInByte(s[q]), BitsInByte(s[q + 1]), BitsInByte(s[q + 2]), BitsInByte(s[q + 3]));
    }
  }

  lemma PackedNone()
    ensures Packed(0, 0, 0, 0) == 0
  {
  }

  lemma NoWrap(x: nat)
    ensures x < WORD ==> x % WORD == x
  {
  }

  /** Multiplying by 0x01010101 leaves the sum of the four lanes in the top byte:
      they add up to at most 224, so nothing is lost. */
  lemma HorizontalSum(a: nat, b: nat, c: nat, d: nat)
    requires a <= 56 && b <= 56 && c <= 56 && d <= 56
    ensures Packed(a, b, c, d) * 0x01010101 % WORD / 0x1000000 == a + b + c + d
  {
    var rest := a + 0x100 * (a + b) + 0x10000 * (a + b + c);
    var top := a + b + c + d;
    var high := (b + c + d) + 0x100 * (c + d) + 0x10000 * d;
    assert (a + 0x100 * b + 0x10000 * c + 0x1000000 * d) * 0x01010101 == rest + 0x1000000 * top + WORD * high;
    TopByte(rest, top, high);
  }

  lemma TopByte(rest: nat, top: nat, high: nat)
    requires rest < 0x1000000 && top < 0x100
    ensures (rest + 0x1000000 * top + WORD * high) % WORD / 0x1000000 == top
  {
    var low := rest + 0x1000000 * top;
    assert (low + WORD * high) % WORD == low;
  }

  lemma TableByte(s: seq<bv8>, j: nat)
    requires j < |s|
    ensures CountRange(s, 8 * j, 8 * (j + 1)) == BitsInByte(s[j])
  {
    hide CountRange, OnesUpTo, BitsInByte;
    CountInByte(s, j, 8);
    TableIsOnes(s[j]);
  }

  lemma FourBytes(s: seq<bv8>, p: nat)
    requires p + 4 <= |s|
    ensures CountRange(s, 8 * p, 8 * (p + 4)) ==
            BitsInByte(s[p]) + BitsInByte(s[p + 1]) + BitsInByte(s[p + 2]) + BitsInByte(s[p + 3])
  {
    hide CountRange, BitsInByte;
    TableByte(s, p); TableByte(s, p + 1); TableByte(s, p + 2); TableByte(s, p + 3);
    CountRangeSplit(s, 8 * p, 8 * (p + 1), 8 * (p + 4));
    CountRangeSplit(s, 8 * (p + 1), 8 * (p + 2), 8 * (p + 4));
    CountRangeSplit(s, 8 * (p + 2), 8 * (p + 3), 8 * (p + 4));
  }

  lemma {:induction false} LanesCount(s: seq<bv8>, p: nat, n: nat)
    requires p + 4 * n <= |s|
    ensures LaneOnes(s, p, n, 0) + LaneOnes(s, p, n, 1) + LaneOnes(s, p, n, 2) + LaneOnes(s, p, n, 3)
            == CountRange(s, 8 * p, 8 * (p + 4 * n))
  {
    hide BitsInByte, Bit;
    if n > 0 {
      hide CountRange;
      var q := p + 4 * (n - 1);
      LanesCount(s, p, n - 1);
      FourBytes(s, q);
      CountRangeSplit(s, 8 * p, 8 * q, 8 * (q + 4));
    }
  }

  lemma Block28Counts(s: seq<bv8>, p: nat)
    requires p + 28 <= |s|
    ensures Block28(s, p) == CountRange(s, 8 * p, 8 * (p + 28))
  {
    hide Accumulate, LaneOnes, CountRange;
    AccumulateLanes(s, p, 7);
    LaneBound(s, p, 7, 0); LaneBound(s, p, 7, 1); LaneBound(s, p, 7, 2); LaneBound(s, p, 7, 3);
    HorizontalSum(LaneOnes(s, p, 7, 0), LaneOnes(s, p, 7, 1), LaneOnes(s, p, 7, 2), LaneOnes(s, p, 7, 3));
    LanesCount(s, p, 7);
  }

  // ---------------------------------------------------------------------
  // redisPopcount

  /** The POPCNT instruction on the eight bytes at `p`. */
  function PopcountInstruction(s: seq<bv8>, p: nat): nat
    requires p + 8 <= |s|
  {
    CountRange(s, 8 * p, 8 * (p + 8))
  }

  /** Set bits in the bytes `from .. to-1`. */
  function BitsBetween(s: seq<bv8>, from: nat, to: nat): nat {
    CountRange(s, 8 * from, 8 * to)
  }

  predicate Misaligned(addr: nat, usePopcnt: bool) {
    if usePopcnt then addr % 8 != 0 else addr % 4 != 0
  }

  lemma NoBytes(s: seq<bv8>, from: nat)
    ensures BitsBetween(s, from, from) == 0
  {
  }

  /** `redisPopcount`: `addr` is the machine address of `s[0]`, which decides how
      many leading bytes are counted one by one before the word loop starts. */
  method RedisPopcount(s: seq<bv8>, from: nat, length: nat, addr: nat, usePopcnt: bool) returns (bits: nat)
    requires from + length <= |s|
    ensures bits == BitsBetween(s, from, from + length)
  {
    hide BitsBetween, BitsInByte, Block28, PopcountInstruction, Misaligned;
    NoBytes(s, from);
    bits := 0;
    var p: nat, count: nat := from, length;
    while Misaligned(addr + p, usePopcnt) && count != 0
      invariant from <= p && p + count == from + length
      invariant bits == BitsBetween(s, from, p)
      decreases count
    {
      bits := bits + BitsInByte(s[p]);
      CountedByte(s, from, p);
      p, count := p + 1, count - 1;
    }
    if usePopcnt {
      var cnt0, cnt1, cnt2, cnt3 := 0, 0, 0, 0;
      while count >= 32
        invariant from <= p && p + count == from + length
        invariant bits + cnt0 + cnt1 + cnt2 + cnt3 == BitsBetween(s, from, p)
        decreases count
      {
        cnt0 := cnt0 + PopcountInstruction(s, p);
        cnt1 := cnt1 + PopcountInstruction(s, p + 8);
        cnt2 := cnt2 + PopcountInstruction(s, p + 16);
        cnt3 := cnt3 + PopcountInstruction(s, p + 24);
        Counted32(s, from, p);
        count, p := count - 32, p + 32;
      }
      bits := bits + cnt0 + cnt1 + cnt2 + cnt3;
    } else {
      while count >= 28
        invariant from <= p && p + count == from + length
        invariant bits == BitsBetween(s, from, p)
        decreases count
      {
        bits := bits + Block28(s, p);
        Counted28(s, from, p);
        count, p := count - 28, p + 28;
      }
    }
    while count > 0
      invariant from <= p && p + count == from + length
      invariant bits == BitsBetween(s, from, p)
      decreases count
    {
      bits := bits + BitsInByte(s[p]);
      CountedByte(s, from, p);
      p, count := p + 1, count - 1;
    }
  }

  lemma CountedByte(s: seq<bv8>, from: nat, p: nat)
    requires from <= p < |s|
    ensures BitsBetween(s, from, p + 1) == BitsBetween(s, from, p) + BitsInByte(s[p])
  {
    hide CountRange, BitsInByte;
    TableByte(s, p);
    CountRangeSplit(s, 8 * from, 8 * p, 8 * (p + 1));
  }

  lemma Counted28(s: seq<bv8>, from: nat, p: nat)
    requires from <= p && p + 28 <= |s|
    ensures BitsBetween(s, from, p + 28) == BitsBetween(s, from, p) + Block28(s, p)
  {
    hide CountRange, Block28;
    Block28Counts(s, p);
    CountRangeSplit(s, 8 * from, 8 * p, 8 * (p + 28));
  }

  lemma Counted32(s: seq<bv8>, from: nat, p: nat)
    requires from <= p && p + 32 <= |s|
    ensures BitsBetween(s, from, p + 32) == BitsBetween(s, from, p)
      + PopcountInstruction(s, p) + PopcountInstruction(s, p + 8)
      + PopcountInstruction(s, p + 16) + PopcountInstruction(s, p + 24)
  {
    hide CountRange;
    CountRangeSplit(s, 8 * from, 8 * p, 8 * (p + 32));
    CountRangeSplit(s, 8 * p, 8 * (p + 8), 8 * (p + 32));
    CountRangeSplit(s, 8 * (p + 8), 8 * (p + 16), 8 * (p + 32));
    CountRangeSplit(s, 8 * (p + 16), 8 * (p + 24), 8 * (p + 32));
  }

  // ---------------------------------------------------------------------
  // bitcountCommand

  lemma FirstMaskBits(b: bv8, k: nat, i: nat)
    requires k < 8 && i < 8
    ensures BitOf(b & FirstNegMask(k), i) == (i < k && BitOf(b, i))
  {
  }

  lemma LastMaskBits(b: bv8, k: nat, i: nat)
    requires k < 8 && i < 8
    ensures BitOf(b & LastNegMask(k), i) == (i > k && BitOf(b, i))
  {
  }

  lemma {:induction false} FirstMaskOnes(b: bv8, k: nat, n: nat)
    requires k < 8 && n <= 8
    ensures OnesUpTo(b & FirstNegMask(k), n) == OnesUpTo(b, if n <= k then n else k)
  {
    hide BitOf, FirstNegMask;
    if n > 0 {
      FirstMaskOnes(b, k, n - 1);
      FirstMaskBits(b, k, n - 1);
    }
  }

  lemma {:induction false} LastMaskOnes(b: bv8, k: nat, n: nat)
    requires k < 8 && n <= 8
    ensures OnesUpTo(b & LastNegMask(k), n) == if n <= k then 0 else OnesUpTo(b, n) - OnesUpTo(b, k + 1)
  {
    hide BitOf, LastNegMask;
    if n > 0 {
      LastMaskOnes(b, k, n - 1);
      LastMaskBits(b, k, n - 1);
    }
  }

  /** The bits of byte `j` in front of its bit `k`. */
  lemma BitsBefore(s: seq<bv8>, j: nat, k: nat)
    requires j < |s| && k < 8
    ensures CountRange(s, 8 * j, 8 * j + k) == Ones(s[j] & FirstNegMask(k))
  {
    hide CountRange, OnesUpTo, FirstNegMask;
    CountInByte(s, j, k);
    FirstMaskOnes(s[j], k, 8);
  }

  /** The bits of byte `j` behind its bit `k`. */
  lemma BitsBehind(s: seq<bv8>, j: nat, k: nat)
    requires j < |s| && k < 8
    ensures CountRange(s, 8 * j + k + 1, 8 * j + 8) == Ones(s[j] & LastNegMask(k))
  {
    hide CountRange, OnesUpTo, LastNegMask;
    CountInByte(s, j, k + 1);
    CountInByte(s, j, 8);
    CountRangeSplit(s, 8 * j, 8 * j + k + 1, 8 * j + 8);
    LastMaskOnes(s[j], k, 8);
  }

  /** Counting whole bytes and subtracting the masked edges counts the bits from
      bit `f` of byte `i` up to and including bit `l` of byte `j`. */
  lemma EdgesSubtracted(s: seq<bv8>, i: nat, f: nat, j: nat, l: nat)
    requires i <= j < |s| && f < 8 && l < 8 && (i < j || f <= l)
    ensures BitsBetween(s, i, j + 1) - Ones(s[i] & FirstNegMask(f)) - Ones(s[j] & LastNegMask(l))
            == CountRange(s, 8 * i + f, 8 * j + l + 1)
  {
    hide CountRange, Ones, FirstNegMask, LastNegMask;
    BitsBefore(s, i, f);
    BitsBehind(s, j, l);
    CountRangeSplit(s, 8 * i, 8 * i + f, 8 * (j + 1));
    CountRangeSplit(s, 8 * i + f, 8 * j + l + 1, 8 * (j + 1));
  }

  lemma TwoBytes(a: bv8, b: bv8)
    ensures BitsBetween([a, b], 0, 2) == Ones(a) + Ones(b)
  {
    hide CountRange, OnesUpTo;
    CountInByte([a, b], 0, 8);
    CountInByte([a, b], 1, 8);
    CountRangeSplit([a, b], 0, 8, 16);
  }

  ghost function RangeCount(key: Option<seq<bv8>>, r: Range): nat {
    if key.None? || Reversed(r) then 0
    else CountRange(key.value, FirstBit(r, |key.value|), LimitBit(r, |key.value|))
  }

  /** The computing part of `bitcountCommand`, after its arguments were parsed (a
      start without an end is a syntax error there) and the key was found to be
      missing or to hold the string `key.value`. */
  method BitcountCommand(key: Option<seq<bv8>>, r: Range, addr: nat, scratch: nat, usePopcnt: bool) returns (reply: nat)
    requires !r.From?
    ensures reply == RangeCount(key, r)
  {
    hide CountRange, Ones, FirstNegMask, LastNegMask, FirstBit, LimitBit;
    if r.Between? && r.start < 0 && r.end < 0 && r.start > r.end { return 0; }
    if key.None? { return 0; }
    var s := key.value;
    var start, end, first, last := Normalize(r, |s|);
    if start > end {
      EmptyRange(s, FirstBit(r, |s|), LimitBit(r, |s|));
      return 0;
    }
    ghost var lo, hi := FirstBit(r, |s|), LimitBit(r, |s|) - 1;
    var count := CountMasked(s, start, end, first, last, addr, scratch, usePopcnt);
    EdgesSubtracted(s, lo / 8, lo % 8, hi / 8, hi % 8);
    reply := count;
  }

  /** Count whole bytes, then take back the bits that the edge masks exclude. */
  method CountMasked(s: seq<bv8>, start: nat, end: nat, first: bv8, last: bv8,
                     addr: nat, scratch: nat, usePopcnt: bool) returns (reply: int)
    requires start <= end < |s|
    ensures reply == BitsBetween(s, start, end + 1) - Ones(s[start] & first) - Ones(s[end] & last)
  {
    hide CountRange, OnesUpTo, BitsBetween;
    reply := RedisPopcount(s, start, end - start + 1, addr, usePopcnt);
    NoMask(s[start]);
    NoMask(s[end]);
    if first != 0 || last != 0 {
      var firstByte: bv8, lastByte: bv8 := 0, 0;
      if first != 0 { firstByte := s[start] & first; }
      if last != 0 { lastByte := s[end] & last; }
      var outside := RedisPopcount([firstByte, lastByte], 0, 2, scratch, usePopcnt);
      TwoBytes(firstByte, lastByte);
      reply := reply - outside;
    }
  }

  lemma NoMask(b: bv8)
    ensures b & 0 == 0 && Ones(0) == 0
  {
    OnesUnfold(0);
  }

  lemma EmptyRange(s: seq<bv8>, lo: nat, hi: nat)
    requires lo >= hi
    ensures CountRange(s, lo, hi) == 0
  {
  }
}
