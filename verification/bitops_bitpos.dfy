/** `redisBitpos` and the range search of `bitposCommand` (bitops.c): the search by
    words returns the least matching bit index. */
module BitPos {
  import opened Base
  import opened Bits
  import opened BitRange
  import opened Words

  /** `pos` is the first bit of the zero-padded string `t` that equals `bit`. */
  ghost predicate Least(t: seq<bv8>, bit: bool, pos: int) {
    0 <= pos && Bit(t, pos) == bit && NoneBefore(t, bit, pos)
  }

  /** No bit below `n` equals `bit`. */
  ghost predicate NoneBefore(t: seq<bv8>, bit: bool, n: nat) {
    forall i: nat | i < n :: Bit(t, i) != bit
  }

  /** The byte none of whose bits equals `bit`. */
  function SkipByte(bit: bool): bv8 { if bit then 0x00 else 0xff }

  lemma SkipByteBits(b: bv8, bit: bool)
    ensures b == SkipByte(bit) <==> forall r: nat | r < 8 :: BitOf(b, r) != bit
  {
    if forall r: nat | r < 8 :: BitOf(b, r) != bit {
      ByteExtensional(b, SkipByte(bit));
    }
  }

  /** Passing a skip byte extends the prefix known to hold no match. */
  lemma SkipOne(t: seq<bv8>, bit: bool, j: nat)
    requires j < |t| && t[j] == SkipByte(bit)
    requires NoneBefore(t, bit, 8 * j)
    ensures NoneBefore(t, bit, 8 * (j + 1))
  {
    hide BitOf, SkipByte;
    SkipByteBits(t[j], bit);
  }

  // ---------------------------------------------------------------------
  // 64-bit words

  /** A native load of the eight bytes at `j` (little endian). */
  function Load64(t: seq<bv8>, j: nat): bv64
    requires j + 8 <= |t|
  {
    Pack(t[j + 7], t[j + 6], t[j + 5], t[j + 4], t[j + 3], t[j + 2], t[j + 1], t[j])
  }

  function SkipWord(bit: bool): bv64 { if bit then 0 else 0xffff_ffff_ffff_ffff }

  lemma PackSkip(a: bv8, b: bv8, c: bv8, d: bv8, e: bv8, f: bv8, g: bv8, h: bv8, bit: bool)
    ensures var s := SkipByte(bit);
      Pack(a, b, c, d, e, f, g, h) == SkipWord(bit) <==>
      a == s && b == s && c == s && d == s && e == s && f == s && g == s && h == s
  {
  }

  /** Mask `one` of the scan at bit `r` of byte `k`, counted from the most significant. */
  function MaskWord(k: nat, r: nat): bv64
    requires k < 8 && r < 8
  {
    var m := Mask(r) as bv64;
    if k == 0 then m << 56 else if k == 1 then m << 48 else if k == 2 then m << 40 else if k == 3 then m << 32
    else if k == 4 then m << 24 else if k == 5 then m << 16 else if k == 6 then m << 8 else m
  }

  lemma NextMask(k: nat, r: nat)
    requires k < 8 && r < 8
    ensures MaskWord(k, r) != 0
    ensures HalfMask(MaskWord(k, r)) ==
            if r < 7 then MaskWord(k, r + 1) else if k < 7 then MaskWord(k + 1, 0) else 0
  {
  }

  predicate Meets(m: bv64, w: bv64) { m & w != 0 }

  /** The comparison made by the scan: is the bit under the mask set? */
  predicate TestBit(w: bv64, k: nat, r: nat)
    requires k < 8 && r < 8
  {
    Meets(MaskWord(k, r), w)
  }

  lemma TopBit(w: bv64, r: nat)
    requires r < 8
    ensures TestBit(w, 0, r) == BitOf(ByteOf(w, 0), r)
  {
  }

  lemma MaskRot(k: nat, r: nat)
    requires 0 < k < 8 && r < 8
    ensures MaskWord(k - 1, r) == Rot(MaskWord(k, r))
  {
  }

  lemma MeetsRot(m: bv64, w: bv64)
    ensures Meets(m, w) <==> Meets(Rot(m), Rot(w))
  {
  }

  lemma TestRot(w: bv64, k: nat, r: nat)
    requires 0 < k < 8 && r < 8
    ensures TestBit(w, k, r) == TestBit(Rot(w), k - 1, r)
  {
    hide MaskWord, Meets, Rot;
    MaskRot(k, r);
    MeetsRot(MaskWord(k, r), w);
  }

  /** Testing a bit under the mask of the scan is testing a bit of a byte. */
  lemma {:induction false} WordBit(w: bv64, k: nat, r: nat)
    requires k < 8 && r < 8
    ensures TestBit(w, k, r) == BitOf(ByteOf(w, k), r)
    decreases k
  {
    hide *;
    if k == 0 {
      TopBit(w, r);
    } else {
      NextByte(w, k);
      TestRot(w, k, r);
      WordBit(Rot(w), k - 1, r);
    }
  }

  lemma SkipWordBytes(w: bv64, bit: bool)
    ensures w == SkipWord(bit) <==> forall k: nat | k < 8 :: ByteOf(w, k) == SkipByte(bit)
  {
    var s := SkipByte(bit);
    if w == SkipWord(bit) {
      assert forall k: nat | k < 8 :: ByteOf(w, k) == s;
    }
    if forall k: nat | k < 8 :: ByteOf(w, k) == s {
      assert ByteOf(w, 0) == s && ByteOf(w, 1) == s && ByteOf(w, 2) == s && ByteOf(w, 3) == s;
      assert ByteOf(w, 4) == s && ByteOf(w, 5) == s && ByteOf(w, 6) == s && ByteOf(w, 7) == s;
      FromEightBytes(w, bit);
    }
  }

  lemma FromEightBytes(w: bv64, bit: bool)
    requires var s := SkipByte(bit);
      ByteOf(w, 0) == s && ByteOf(w, 1) == s && ByteOf(w, 2) == s && ByteOf(w, 3) == s
      && ByteOf(w, 4) == s && ByteOf(w, 5) == s && ByteOf(w, 6) == s && ByteOf(w, 7) == s
    ensures w == SkipWord(bit)
  {
  }

  /** A word that is not a skip word has a matching bit. */
  lemma NotAllSkipped(w: bv64, bit: bool)
    requires forall k: nat, r: nat | k < 8 && r < 8 :: TestBit(w, k, r) != bit
    ensures w == SkipWord(bit)
  {
    hide TestBit, ByteOf, BitOf, SkipWord, SkipByte;
    forall k: nat | k < 8 ensures ByteOf(w, k) == SkipByte(bit) {
      forall r: nat | r < 8 ensures BitOf(ByteOf(w, k), r) != bit { WordBit(w, k, r); }
      SkipByteBits(ByteOf(w, k), bit);
    }
    SkipWordBytes(w, bit);
  }

  predicate Hits(one: bv64, word: bv64) { one & word != 0 }

  function HalfMask(one: bv64): bv64 { one >> 1 }

  lemma HitsIsTestBit(word: bv64, k: nat, r: nat)
    requires k < 8 && r < 8
    ensures Hits(MaskWord(k, r), word) == TestBit(word, k, r)
  {
  }

  lemma FirstMask()
    ensures !((0xffff_ffff_ffff_ffff as bv64) >> 1) == MaskWord(0, 0)
  {
  }

  /** The final scan of `redisBitpos`: the mask always meets a matching bit, so the
      panic behind the loop is not reached. */
  method ScanWord(word: bv64, bit: bool) returns (i: nat)
    requires word != SkipWord(bit)
    ensures i < 64
    ensures forall k: nat, r: nat | k < 8 && r < 8 && 8 * k + r == i :: TestBit(word, k, r) == bit
    ensures forall k: nat, r: nat | k < 8 && r < 8 && 8 * k + r < i :: TestBit(word, k, r) != bit
  {
    hide MaskWord, SkipWord, Hits, HalfMask, TestBit;
    var one := !((0xffff_ffff_ffff_ffff as bv64) >> 1);
    FirstMask();
    i := 0;
    ghost var k, r := 0, 0;
    while one != 0 && Hits(one, word) != bit
      invariant i == 8 * k + r && i <= 64
      invariant one != 0 ==> 0 <= k < 8 && 0 <= r < 8 && one == MaskWord(k, r)
      invariant one == 0 ==> k == 8 && r == 0
      invariant forall k: nat, r: nat | k < 8 && r < 8 && 8 * k + r < i :: TestBit(word, k, r) != bit
      decreases 64 - i
    {
      NextMask(k, r);
      HitsIsTestBit(word, k, r);
      one := HalfMask(one);
      i := i + 1;
      if r < 7 { r := r + 1; } else { k, r := k + 1, 0; }
      if k < 8 { NextMask(k, r); }
    }
    if one == 0 { NotAllSkipped(word, bit); }
    assert one != 0;
    HitsIsTestBit(word, k, r);
  }

  // ---------------------------------------------------------------------
  // redisBitpos

  /** Byte `j` of the zero-padded string. */
  function PaddedByte(t: seq<bv8>, j: nat): bv8 { if j < |t| then t[j] else 0 }

  lemma PaddedBit(t: seq<bv8>, j: nat, r: nat)
    requires r < 8
    ensures Bit(t, 8 * j + r) == BitOf(PaddedByte(t, j), r)
  {
    assert (8 * j + r) / 8 == j && (8 * j + r) % 8 == r;
  }

  function PushByte(w: bv64, b: bv8): bv64 { (w << 8) | b as bv64 }

  lemma PushBytes(w: bv64, b: bv8, k: nat)
    requires k < 8
    ensures ByteOf(PushByte(w, b), k) == if k < 7 then ByteOf(w, k + 1) else b
  {
  }

  /** Load eight bytes, the first one most significant, padding with zero. */
  method LoadBigEndian(t: seq<bv8>, from: nat) returns (word: bv64)
    requires from <= |t|
    ensures forall k: nat | k < 8 :: ByteOf(word, k) == PaddedByte(t, from + k)
  {
    hide ByteOf, PushByte;
    word := 0;
    var c, count := from, |t| - from;
    for j := 0 to 8
      invariant 0 <= count && c + count == |t| && (count > 0 ==> c == from + j) && (count == 0 ==> from + j >= |t|)
      invariant forall k: nat | 8 - j <= k < 8 :: ByteOf(word, k) == PaddedByte(t, from + k - (8 - j))
    {
      ghost var old_word, b := word, PaddedByte(t, from + j);
      if count > 0 {
        word := PushByte(word, t[c]);
        c, count := c + 1, count - 1;
      } else {
        word := PushByte(word, 0);
      }
      forall k: nat | 8 - (j + 1) <= k < 8
        ensures ByteOf(word, k) == PaddedByte(t, from + k - (8 - (j + 1)))
      {
        PushBytes(old_word, b, k);
      }
    }
  }

  /** `redisBitpos` on the bytes `t`, the first of which is stored at address `addr`. */
  method RedisBitpos(t: seq<bv8>, addr: nat, bit: bool) returns (pos: int)
    ensures pos != -1 ==> Least(t, bit, pos)
    ensures pos == -1 ==> bit && forall n: nat :: NoneBefore(t, bit, n)
  {
    hide BitOf, SkipByte, SkipWord, Load64, NoneBefore;
    pos := 0;
    var c, count, found := 0, |t|, false;
    assert NoneBefore(t, bit, 0) by { NothingBefore(t, bit); }
    while (addr + c) % 8 != 0 && count != 0
      invariant c + count == |t| && 0 <= count && pos == 8 * c && !found
      invariant NoneBefore(t, bit, 8 * c)
      decreases count
    {
      if t[c] != SkipByte(bit) {
        found := true;
        break;
      }
      SkipOne(t, bit, c);
      c, count, pos := c + 1, count - 1, pos + 8;
    }
    if !found {
      while count >= 8
        invariant c + count == |t| && 0 <= count && pos == 8 * c && !found
        invariant NoneBefore(t, bit, 8 * c)
        decreases count
      {
        if Load64(t, c) != SkipWord(bit) { break; }
        SkipEight(t, bit, c);
        c, count, pos := c + 8, count - 8, pos + 64;
      }
    }
    assert Stopped(t, bit, c, found);
    var word := LoadBigEndian(t, c);
    if bit && word == 0 {
      NoneAtAll(t, c, found, word);
      pos := -1;
    } else {
      WindowHasMatch(t, bit, c, found, word);
      var i := ScanWord(word, bit);
      MatchInWindow(t, bit, c, word, i);
      pos := pos + i;
    }
  }

  lemma NothingBefore(t: seq<bv8>, bit: bool)
    ensures NoneBefore(t, bit, 0)
  {
  }

  lemma SkipEight(t: seq<bv8>, bit: bool, j: nat)
    requires j + 8 <= |t| && Load64(t, j) == SkipWord(bit)
    requires NoneBefore(t, bit, 8 * j)
    ensures NoneBefore(t, bit, 8 * (j + 8))
  {
    hide Pack, SkipByte, SkipWord, NoneBefore;
    PackSkip(t[j + 7], t[j + 6], t[j + 5], t[j + 4], t[j + 3], t[j + 2], t[j + 1], t[j], bit);
    SkipOne(t, bit, j); SkipOne(t, bit, j + 1); SkipOne(t, bit, j + 2); SkipOne(t, bit, j + 3);
    SkipOne(t, bit, j + 4); SkipOne(t, bit, j + 5); SkipOne(t, bit, j + 6); SkipOne(t, bit, j + 7);
  }

  /** The byte or word at which the skipping loops stopped. */
  ghost predicate Stopped(t: seq<bv8>, bit: bool, c: nat, found: bool) {
    && c <= |t|
    && (found ==> c < |t| && t[c] != SkipByte(bit))
    && (!found ==> |t| - c < 8 || Load64(t, c) != SkipWord(bit))
  }

  ghost predicate Window(t: seq<bv8>, c: nat, word: bv64) {
    forall k: nat | k < 8 :: ByteOf(word, k) == PaddedByte(t, c + k)
  }

  /** If the last word is a skip word then the string ends inside it. */
  lemma SkippedWindow(t: seq<bv8>, bit: bool, c: nat, found: bool, word: bv64)
    requires Stopped(t, bit, c, found) && Window(t, c, word) && word == SkipWord(bit)
    ensures |t| - c < 8
    ensures forall j | c <= j < c + 8 :: PaddedByte(t, j) == SkipByte(bit)
  {
    hide ByteOf, SkipByte, SkipWord, Pack;
    SkipWordBytes(word, bit);
    forall j | c <= j < c + 8 ensures PaddedByte(t, j) == SkipByte(bit) {
      assert ByteOf(word, j - c) == PaddedByte(t, c + (j - c));
    }
    assert c < |t| ==> PaddedByte(t, c) == t[c];
    if |t| - c >= 8 {
      assert forall j | c <= j < c + 8 :: PaddedByte(t, j) == t[j];
      PackSkip(t[c + 7], t[c + 6], t[c + 5], t[c + 4], t[c + 3], t[c + 2], t[c + 1], t[c], bit);
    }
  }

  lemma WindowHasMatch(t: seq<bv8>, bit: bool, c: nat, found: bool, word: bv64)
    requires Stopped(t, bit, c, found) && Window(t, c, word)
    requires bit ==> word != 0
    ensures word != SkipWord(bit)
  {
    hide ByteOf;
    assert |t| - c < 8 ==> PaddedByte(t, c + 7) == 0;
    if word == SkipWord(bit) && !bit {
      SkippedWindow(t, bit, c, found, word);
    }
  }

  /** A zero last word means that no bit of the whole string is set. */
  lemma NoneAtAll(t: seq<bv8>, c: nat, found: bool, word: bv64)
    requires Stopped(t, true, c, found) && Window(t, c, word) && word == 0
    requires NoneBefore(t, true, 8 * c)
    ensures forall n: nat :: NoneBefore(t, true, n)
  {
    SkippedWindow(t, true, c, found, word);
    forall i: nat ensures !Bit(t, i) {
      hide BitOf;
      if i >= 8 * c && i / 8 < |t| {
        assert PaddedByte(t, i / 8) == SkipByte(true);
        SkipByteBits(t[i / 8], true);
      }
    }
  }

  lemma MatchInWindow(t: seq<bv8>, bit: bool, c: nat, word: bv64, i: nat)
    requires Window(t, c, word) && NoneBefore(t, bit, 8 * c) && i < 64
    requires forall k: nat, r: nat | k < 8 && r < 8 && 8 * k + r == i :: TestBit(word, k, r) == bit
    requires forall k: nat, r: nat | k < 8 && r < 8 && 8 * k + r < i :: TestBit(word, k, r) != bit
    ensures Least(t, bit, 8 * c + i)
  {
    hide TestBit, Bit, BitOf, ByteOf, PaddedByte;
    forall j: nat | j <= i ensures Bit(t, 8 * c + j) == TestBit(word, j / 8, j % 8) {
      PaddedBit(t, c + j / 8, j % 8);
      WordBit(word, j / 8, j % 8);
      assert 8 * (c + j / 8) + j % 8 == 8 * c + j;
      assert ByteOf(word, j / 8) == PaddedByte(t, c + j / 8);
    }
    forall j: nat | j < 8 * c + i ensures Bit(t, j) != bit {
      if j >= 8 * c {
        var d := j - 8 * c;
        assert Bit(t, 8 * c + d) == TestBit(word, d / 8, d % 8);
        assert 8 * (d / 8) + d % 8 == d;
      }
    }
    assert 8 * (i / 8) + i % 8 == i;
    assert Bit(t, 8 * c + i) == TestBit(word, i / 8, i % 8);
    assert NoneBefore(t, bit, 8 * c + i);
  }

  // ---------------------------------------------------------------------
  // bitposCommand

  /** No bit of `s` in the half-open interval equals `bit`. */
  ghost predicate NoneIn(s: seq<bv8>, bit: bool, lo: nat, hi: nat) {
    forall i: nat | lo <= i < hi :: Bit(s, i) != bit
  }

  /** `i` is the first bit at or after `lo` that equals `bit`. */
  ghost predicate FirstFrom(s: seq<bv8>, bit: bool, lo: nat, i: nat) {
    lo <= i && Bit(s, i) == bit && NoneIn(s, bit, lo, i)
  }

  /** Force the bits under `neg` to the value that is not searched for. */
  function Excluding(b: bv8, neg: bv8, bit: bool): bv8 { if bit then b & !neg else b | neg }

  lemma ExcludingFirst(b: bv8, k: nat, bit: bool, r: nat)
    requires k < 8 && r < 8
    ensures BitOf(Excluding(b, FirstNegMask(k), bit), r) == if r < k then !bit else BitOf(b, r)
  {
  }

  lemma ExcludingLast(b: bv8, k: nat, bit: bool, r: nat)
    requires k < 8 && r < 8
    ensures BitOf(Excluding(b, LastNegMask(k), bit), r) == if r > k then !bit else BitOf(b, r)
  {
  }

  /** Searching `n` bytes returns either the offset of the first match inside them or,
      when there is none, -1 for a one and `8 * n` for a zero. */
  method SearchBytes(t: seq<bv8>, addr: nat, bit: bool) returns (pos: int)
    ensures pos == (if bit then -1 else 8 * |t|) ==> NoneIn(t, bit, 0, 8 * |t|)
    ensures pos != (if bit then -1 else 8 * |t|) ==> 0 <= pos < 8 * |t| && FirstFrom(t, bit, 0, pos)
  {
    pos := RedisBitpos(t, addr, bit);
    hide BitOf;
    if pos == -1 {
      assert NoneBefore(t, bit, 8 * |t|);
    } else if pos >= 8 * |t| {
      assert !bit && !Bit(t, 8 * |t|);
    }
  }

  /** Moving a match inside the bytes `a .. a+n-1` to the whole string. */
  lemma Shifted(s: seq<bv8>, a: nat, n: nat, i: nat)
    requires a + n <= |s| && i < 8 * n
    ensures Bit(s[a..a + n], i) == Bit(s, 8 * a + i)
  {
    assert (8 * a + i) / 8 == a + i / 8 && (8 * a + i) % 8 == i % 8;
  }

  ghost predicate Answer(s: seq<bv8>, bit: bool, lo: nat, hi: nat, endGiven: bool, reply: int) {
    if NoneIn(s, bit, lo, hi) then reply == (if !bit && !endGiven && lo < hi then 8 * |s| else -1)
    else 0 <= reply < hi && FirstFrom(s, bit, lo, reply)
  }

  /** `tmp` is byte `j` of `s` with every bit outside `[lo, hi)` made uninteresting. */
  ghost predicate EdgeByte(s: seq<bv8>, bit: bool, lo: nat, hi: nat, j: nat, tmp: bv8) {
    forall r: nat | r < 8 :: BitOf(tmp, r) == if lo <= 8 * j + r < hi then Bit(s, 8 * j + r) else !bit
  }

  lemma EdgeMiss(s: seq<bv8>, bit: bool, lo: nat, hi: nat, j: nat, tmp: bv8)
    requires EdgeByte(s, bit, lo, hi, j, tmp) && NoneIn([tmp], bit, 0, 8)
    requires NoneIn(s, bit, lo, 8 * j)
    ensures NoneIn(s, bit, lo, if hi < 8 * j + 8 then hi else 8 * j + 8)
  {
    hide Bit, BitOf;
    forall i: nat | lo <= i < hi && 8 * j <= i < 8 * j + 8 ensures Bit(s, i) != bit {
      var r: nat := i - 8 * j;
      assert Bit([tmp], r) == BitOf(tmp, r) by { PaddedBit([tmp], 0, r); }
      assert 8 * j + r == i;
    }
  }

  lemma EdgeHit(s: seq<bv8>, bit: bool, lo: nat, hi: nat, j: nat, tmp: bv8, p: nat)
    requires EdgeByte(s, bit, lo, hi, j, tmp) && p < 8 && FirstFrom([tmp], bit, 0, p)
    requires NoneIn(s, bit, lo, 8 * j)
    ensures 8 * j + p < hi && FirstFrom(s, bit, lo, 8 * j + p)
  {
    hide Bit, BitOf;
    forall r: nat | r < 8 ensures Bit([tmp], r) == BitOf(tmp, r) { PaddedBit([tmp], 0, r); }
    assert Bit([tmp], p) == BitOf(tmp, p);
    forall i: nat | lo <= i < 8 * j + p && 8 * j <= i ensures Bit(s, i) != bit {
      var r: nat := i - 8 * j;
      assert 8 * j + r == i && Bit([tmp], r) == BitOf(tmp, r) && Bit([tmp], r) != bit;
    }
  }

  lemma MiddleMiss(s: seq<bv8>, bit: bool, lo: nat, a: nat, n: nat)
    requires a + n <= |s| && NoneIn(s[a..a + n], bit, 0, 8 * n) && NoneIn(s, bit, lo, 8 * a)
    ensures NoneIn(s, bit, lo, 8 * (a + n))
  {
    hide Bit;
    forall i: nat | lo <= i < 8 * (a + n) && 8 * a <= i ensures Bit(s, i) != bit {
      Shifted(s, a, n, i - 8 * a);
    }
  }

  lemma MiddleHit(s: seq<bv8>, bit: bool, lo: nat, a: nat, n: nat, p: nat)
    requires a + n <= |s| && p < 8 * n && FirstFrom(s[a..a + n], bit, 0, p)
    requires NoneIn(s, bit, lo, 8 * a) && lo <= 8 * a
    ensures FirstFrom(s, bit, lo, 8 * a + p)
  {
    hide Bit;
    Shifted(s, a, n, p);
    forall i: nat | lo <= i < 8 * a + p && 8 * a <= i ensures Bit(s, i) != bit {
      Shifted(s, a, n, i - 8 * a);
    }
  }

  /** How the search stands: `pos` is relative to byte `start`, and `bytes` bytes
      from there on were still to be searched. */
  ghost predicate Outcome(s: seq<bv8>, bit: bool, lo: nat, hi: nat, start: nat, bytes: nat, pos: int) {
    if pos == (if bit then -1 else 8 * bytes) then NoneIn(s, bit, lo, hi)
    else 0 <= pos < 8 * bytes && 8 * start + pos < hi && FirstFrom(s, bit, lo, 8 * start + pos)
  }

  lemma FirstEdge(s: seq<bv8>, bit: bool, lo: nat, hi: nat, j: nat, tmp: bv8)
    requires lo < hi && j == lo / 8 && j < |s| && (hi - 1) / 8 > j
    requires tmp == Excluding(s[j], FirstNegMask(lo % 8), bit)
    ensures EdgeByte(s, bit, lo, hi, j, tmp)
  {
    hide BitOf, Excluding, Bit;
    forall r: nat | r < 8
      ensures BitOf(tmp, r) == if lo <= 8 * j + r < hi then Bit(s, 8 * j + r) else !bit
    {
      ExcludingFirst(s[j], lo % 8, bit, r);
      BitInByte(s, j, r);
    }
  }

  lemma LastEdge(s: seq<bv8>, bit: bool, lo: nat, hi: nat, j: nat, tmp: bv8)
    requires lo < hi && j == (hi - 1) / 8 && j < |s| && lo <= 8 * j
    requires tmp == Excluding(s[j], LastNegMask((hi - 1) % 8), bit)
    ensures EdgeByte(s, bit, lo, hi, j, tmp)
  {
    hide BitOf, Excluding, Bit;
    forall r: nat | r < 8
      ensures BitOf(tmp, r) == if lo <= 8 * j + r < hi then Bit(s, 8 * j + r) else !bit
    {
      ExcludingLast(s[j], (hi - 1) % 8, bit, r);
      BitInByte(s, j, r);
    }
  }

  lemma BothEdges(s: seq<bv8>, bit: bool, lo: nat, hi: nat, j: nat, tmp: bv8)
    requires lo < hi && j == lo / 8 == (hi - 1) / 8 && j < |s|
    requires tmp == Excluding(Excluding(s[j], FirstNegMask(lo % 8), bit), LastNegMask((hi - 1) % 8), bit)
    ensures EdgeByte(s, bit, lo, hi, j, tmp)
  {
    hide BitOf, Excluding, Bit;
    var first := Excluding(s[j], FirstNegMask(lo % 8), bit);
    forall r: nat | r < 8
      ensures BitOf(tmp, r) == if lo <= 8 * j + r < hi then Bit(s, 8 * j + r) else !bit
    {
      ExcludingLast(first, (hi - 1) % 8, bit, r);
      ExcludingFirst(s[j], lo % 8, bit, r);
      BitInByte(s, j, r);
    }
  }

  /** The three-part search over the bytes `start .. end` whose edge bytes carry the
      masks `first` and `last`. */
  method SearchRange(s: seq<bv8>, bit: bool, start0: nat, end: nat, first: bv8, last: bv8,
                     ghost lo: nat, ghost hi: nat, addr: nat, tmpAddr: nat)
    returns (start: nat, bytes: nat, pos: int)
    requires lo < hi <= 8 * |s| && start0 == lo / 8 && end == (hi - 1) / 8
    requires first == FirstNegMask(lo % 8) && last == LastNegMask((hi - 1) % 8)
    ensures start + bytes == end + 1
    ensures Outcome(s, bit, lo, hi, start, bytes, pos)
  {
    NoEdges();
    hide FirstNegMask, LastNegMask, Excluding, EdgeByte, NoneIn, FirstFrom;
    start, bytes := start0, end - start0 + 1;
    NothingIn(s, bit, lo, 8 * start0);
    if first != 0 {
      var tmp := Excluding(s[start], first, bit);
      if last != 0 && bytes == 1 {
        tmp := Excluding(tmp, last, bit);
        BothEdges(s, bit, lo, hi, start, tmp);
      } else if bytes == 1 {
        FullLastByte(s, bit, lo, hi, start, tmp);
      } else {
        FirstEdge(s, bit, lo, hi, start, tmp);
      }
      pos := SearchBytes([tmp], tmpAddr, bit);
      if pos == (if bit then -1 else 8) {
        EdgeMiss(s, bit, lo, hi, start, tmp);
      } else {
        EdgeHit(s, bit, lo, hi, start, tmp, pos);
      }
      if bytes == 1 || (pos != -1 && pos != 8) { return; }
      start, bytes := start + 1, bytes - 1;
    }
    var curbytes := bytes - if last != 0 then 1 else 0;
    if curbytes > 0 {
      pos := SearchBytes(s[start..start + curbytes], addr + start, bit);
      if pos == (if bit then -1 else 8 * curbytes) {
        MiddleMiss(s, bit, lo, start, curbytes);
      } else {
        MiddleHit(s, bit, lo, start, curbytes, pos);
      }
      if bytes == curbytes || (pos != -1 && pos != 8 * curbytes) { return; }
      start, bytes := start + curbytes, bytes - curbytes;
    }
    var tmp := Excluding(s[end], last, bit);
    LastEdge(s, bit, lo, hi, end, tmp);
    pos := SearchBytes([tmp], tmpAddr, bit);
    if pos == (if bit then -1 else 8) {
      EdgeMiss(s, bit, lo, hi, start, tmp);
    } else {
      EdgeHit(s, bit, lo, hi, start, tmp, pos);
    }
  }

  lemma NothingIn(s: seq<bv8>, bit: bool, lo: nat, hi: nat)
    requires hi <= lo
    ensures NoneIn(s, bit, lo, hi)
  {
  }

  lemma NoEdges()
    ensures forall k: nat | k < 8 :: FirstNegMask(k) == 0 <==> k == 0
    ensures forall k: nat | k < 8 :: LastNegMask(k) == 0 <==> k == 7
  {
  }

  /** A single byte whose last bits are all in the range needs no last mask. */
  lemma FullLastByte(s: seq<bv8>, bit: bool, lo: nat, hi: nat, j: nat, tmp: bv8)
    requires lo < hi && j == lo / 8 == (hi - 1) / 8 && j < |s| && (hi - 1) % 8 == 7
    requires tmp == Excluding(s[j], FirstNegMask(lo % 8), bit)
    ensures EdgeByte(s, bit, lo, hi, j, tmp)
  {
    hide BitOf, Excluding, Bit;
    forall r: nat | r < 8
      ensures BitOf(tmp, r) == if lo <= 8 * j + r < hi then Bit(s, 8 * j + r) else !bit
    {
      ExcludingFirst(s[j], lo % 8, bit, r);
      BitInByte(s, j, r);
    }
  }

  /** The computing part of `bitposCommand`, after its arguments were parsed. */
  method BitposCommand(key: Option<seq<bv8>>, bit: bool, r: Range, addr: nat, tmpAddr: nat) returns (reply: int)
    ensures key.None? ==> reply == if bit then -1 else 0
    ensures key.Some? ==>
      Answer(key.value, bit, FirstBit(r, |key.value|), LimitBit(r, |key.value|), r.Between?, reply)
  {
    if key.None? { return if bit then -1 else 0; }
    var s := key.value;
    hide FirstNegMask, LastNegMask, Bit;
    OpenEnd(r, |s|);
    ghost var lo, hi := FirstBit(r, |s|), LimitBit(r, |s|);
    hide FirstBit, LimitBit;
    var start, end, first, last := Normalize(r, |s|);
    if start > end { return -1; }
    var start', bytes, pos := SearchRange(s, bit, start, end, first, last, lo, hi, addr, tmpAddr);
    if r.Between? && !bit && pos == 8 * bytes { return -1; }
    reply := if pos != -1 then pos + 8 * start' else pos;
  }

  /** Without an explicit end the range runs to the end of the string. */
  lemma OpenEnd(r: Range, len: nat)
    ensures !r.Between? ==> LimitBit(r, len) == 8 * len
  {
  }
}
