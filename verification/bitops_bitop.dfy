/** The computing part of `bitopCommand` (bitops.c): the word-parallel path followed by
    the early-exit byte path yields the per-bit definition of every operation. */
module BitOp {
  import opened Base
  import opened Bits
  import opened Words

  datatype Operation = AND | OR | XOR | NOT | DIFF | DIFF1 | ANDOR | ONE

  // ---------------------------------------------------------------------
  // What the operations mean, bit by bit over zero-padded keys.

  ghost predicate SetInAll(src: seq<seq<bv8>>, t: nat, from: nat) {
    forall i | from <= i < |src| :: Bit(src[i], t)
  }

  ghost predicate SetInSome(src: seq<seq<bv8>>, t: nat, from: nat) {
    exists i :: from <= i < |src| && Bit(src[i], t)
  }

  ghost predicate SetInExactlyOne(src: seq<seq<bv8>>, t: nat) {
    exists m :: 0 <= m < |src| && Bit(src[m], t) && forall l | 0 <= l < |src| && l != m :: !Bit(src[l], t)
  }

  /** In how many of the first `n` keys bit `t` is set. */
  ghost function CountKeys(src: seq<seq<bv8>>, t: nat, n: nat): nat
    requires n <= |src|
  {
    if n == 0 then 0 else CountKeys(src, t, n - 1) + One(Bit(src[n - 1], t))
  }

  /** Bit `t` of the result. */
  ghost predicate ResultBit(op: Operation, src: seq<seq<bv8>>, t: nat)
    requires |src| >= 1
  {
    match op
    case AND => SetInAll(src, t, 0)
    case OR => SetInSome(src, t, 0)
    case XOR => CountKeys(src, t, |src|) % 2 == 1
    case NOT => !Bit(src[0], t)
    case DIFF => Bit(src[0], t) && !SetInSome(src, t, 1)
    case DIFF1 => !Bit(src[0], t) && SetInSome(src, t, 1)
    case ANDOR => Bit(src[0], t) && SetInSome(src, t, 1)
    case ONE => SetInExactlyOne(src, t)
  }

  /** The same result, computed from the number of keys that have the bit set. */
  predicate FromCount(op: Operation, first: bool, count: nat, n: nat) {
    match op
    case AND => count == n
    case OR => count > 0
    case XOR => count % 2 == 1
    case NOT => !first
    case DIFF => first && count == 1
    case DIFF1 => !first && count > 0
    case ANDOR => first && count > 1
    case ONE => count == 1
  }

  lemma {:induction false} CountBounds(src: seq<seq<bv8>>, t: nat, n: nat)
    requires n <= |src|
    ensures CountKeys(src, t, n) <= n
    ensures CountKeys(src, t, n) == n <==> forall i | 0 <= i < n :: Bit(src[i], t)
    ensures CountKeys(src, t, n) == 0 <==> forall i | 0 <= i < n :: !Bit(src[i], t)
  {
    hide Bit;
    if n > 0 { CountBounds(src, t, n - 1); }
  }

  lemma {:induction false} CountFirst(src: seq<seq<bv8>>, t: nat, n: nat)
    requires 1 <= n <= |src|
    ensures CountKeys(src, t, n) >= One(Bit(src[0], t))
    ensures CountKeys(src, t, n) == One(Bit(src[0], t)) <==> forall i | 1 <= i < n :: !Bit(src[i], t)
  {
    hide Bit;
    if n > 1 { CountFirst(src, t, n - 1); } else { assert CountKeys(src, t, 0) == 0; }
  }

  lemma {:induction false} CountOne(src: seq<seq<bv8>>, t: nat, n: nat) returns (m: nat)
    requires n <= |src| && CountKeys(src, t, n) == 1
    ensures m < n && Bit(src[m], t) && forall l | 0 <= l < n && l != m :: !Bit(src[l], t)
  {
    hide Bit;
    if Bit(src[n - 1], t) {
      m := n - 1;
      CountBounds(src, t, n - 1);
    } else {
      m := CountOne(src, t, n - 1);
    }
  }

  lemma {:induction false} OneCounts(src: seq<seq<bv8>>, t: nat, m: nat, n: nat)
    requires m < n <= |src| && Bit(src[m], t) && forall l | 0 <= l < n && l != m :: !Bit(src[l], t)
    ensures CountKeys(src, t, n) == 1
  {
    hide Bit;
    if m == n - 1 { CountBounds(src, t, n - 1); } else { OneCounts(src, t, m, n - 1); }
  }

  /** The counting form decides exactly the bit-by-bit definition. */
  lemma ResultFromCount(op: Operation, src: seq<seq<bv8>>, t: nat)
    requires |src| >= 1
    ensures ResultBit(op, src, t) <==> FromCount(op, Bit(src[0], t), CountKeys(src, t, |src|), |src|)
  {
    hide Bit, CountKeys;
    var n := |src|;
    CountBounds(src, t, n);
    CountFirst(src, t, n);
    if op.ONE? {
      if CountKeys(src, t, n) == 1 {
        var m := CountOne(src, t, n);
      }
      if SetInExactlyOne(src, t) {
        var m :| 0 <= m < n && Bit(src[m], t) && forall l | 0 <= l < n && l != m :: !Bit(src[l], t);
        OneCounts(src, t, m, n);
      }
    }
  }

  // ---------------------------------------------------------------------
  // Bitwise gates on bits, bytes and words.

  datatype Gate = And | Or | Xor | Not | KeyAndNotRes | ResAndNotKey

  predicate BitGate(g: Gate, res: bool, key: bool) {
    match g
    case And => res && key
    case Or => res || key
    case Xor => res != key
    case Not => !res
    case KeyAndNotRes => key && !res
    case ResAndNotKey => res && !key
  }

  function ByteGate(g: Gate, res: bv8, key: bv8): bv8 {
    match g
    case And => res & key
    case Or => res | key
    case Xor => res ^ key
    case Not => !res
    case KeyAndNotRes => key & !res
    case ResAndNotKey => !key & res
  }

  function WordGate(g: Gate, res: bv64, key: bv64): bv64 {
    match g
    case And => res & key
    case Or => res | key
    case Xor => res ^ key
    case Not => !res
    case KeyAndNotRes => key & !res
    case ResAndNotKey => !key & res
  }

  lemma AndBits(res: bv8, key: bv8, r: nat)
    requires r < 8
    ensures BitOf(ByteGate(And, res, key), r) == (BitOf(res, r) && BitOf(key, r))
  {
  }

  lemma OrBits(res: bv8, key: bv8, r: nat)
    requires r < 8
    ensures BitOf(ByteGate(Or, res, key), r) == (BitOf(res, r) || BitOf(key, r))
  {
  }

  lemma XorBits(res: bv8, key: bv8, r: nat)
    requires r < 8
    ensures BitOf(ByteGate(Xor, res, key), r) == (BitOf(res, r) != BitOf(key, r))
  {
    XorMask(res, key, Mask(r));
  }

  lemma XorMask(a: bv8, b: bv8, m: bv8)
    requires m == 0x80 || m == 0x40 || m == 0x20 || m == 0x10 || m == 0x08 || m == 0x04 || m == 0x02 || m == 0x01
    ensures ((a ^ b) & m != 0) == ((a & m != 0) != (b & m != 0))
  {
  }

  lemma NotBits(res: bv8, key: bv8, r: nat)
    requires r < 8
    ensures BitOf(ByteGate(Not, res, key), r) == (!BitOf(res, r))
  {
  }

  lemma KeyAndNotResBits(res: bv8, key: bv8, r: nat)
    requires r < 8
    ensures BitOf(ByteGate(KeyAndNotRes, res, key), r) == (BitOf(key, r) && !BitOf(res, r))
  {
  }

  lemma ResAndNotKeyBits(res: bv8, key: bv8, r: nat)
    requires r < 8
    ensures BitOf(ByteGate(ResAndNotKey, res, key), r) == (BitOf(res, r) && !BitOf(key, r))
  {
  }

  lemma GateBits(g: Gate, res: bv8, key: bv8, r: nat)
    requires r < 8
    ensures BitOf(ByteGate(g, res, key), r) == BitGate(g, BitOf(res, r), BitOf(key, r))
  {
    hide BitOf, ByteGate;
    match g
    case And => AndBits(res, key, r);
    case Or => OrBits(res, key, r);
    case Xor => XorBits(res, key, r);
    case Not => NotBits(res, key, r);
    case KeyAndNotRes => KeyAndNotResBits(res, key, r);
    case ResAndNotKey => ResAndNotKeyBits(res, key, r);
  }

  /** Lane `k` of a gate applied to words is the gate applied to the lanes. */
  ghost predicate LaneGate(g: Gate, res: bv64, key: bv64, k: nat)
    requires k < 8
  {
    ByteOf(WordGate(g, res, key), k) == ByteGate(g, ByteOf(res, k), ByteOf(key, k))
  }

  /** A gate acts on the first byte as on a byte, and does not mind rotating. */
  ghost predicate Bytewise(g: Gate, res: bv64, key: bv64) {
    LaneGate(g, res, key, 0) && Rot(WordGate(g, res, key)) == WordGate(g, Rot(res), Rot(key))
  }

  lemma BytewiseAnd(res: bv64, key: bv64)
    ensures Bytewise(And, res, key)
  {
  }

  lemma BytewiseOr(res: bv64, key: bv64)
    ensures Bytewise(Or, res, key)
  {
  }

  lemma TopXor(res: bv64, key: bv64)
    ensures LaneGate(Xor, res, key, 0)
  {
  }

  lemma RotXor(res: bv64, key: bv64)
    ensures Rot(WordGate(Xor, res, key)) == WordGate(Xor, Rot(res), Rot(key))
  {
  }

  lemma BytewiseXor(res: bv64, key: bv64)
    ensures Bytewise(Xor, res, key)
  {
    hide LaneGate, Rot, WordGate;
    TopXor(res, key);
    RotXor(res, key);
  }

  lemma TopNot(res: bv64, key: bv64)
    ensures LaneGate(Not, res, key, 0)
  {
  }

  const ONES: bv64 := 0xffff_ffff_ffff_ffff

  lemma NotIsXor(res: bv64, key: bv64)
    ensures WordGate(Not, res, key) == WordGate(Xor, res, ONES)
  {
  }

  lemma RotNot(res: bv64, key: bv64)
    ensures Rot(WordGate(Not, res, key)) == WordGate(Not, Rot(res), Rot(key))
  {
    assert Rot(ONES) == ONES;
    hide WordGate, Rot;
    NotIsXor(res, key);
    NotIsXor(Rot(res), Rot(key));
    RotXor(res, ONES);
  }

  lemma BytewiseNot(res: bv64, key: bv64)
    ensures Bytewise(Not, res, key)
  {
    hide LaneGate, Rot, WordGate;
    TopNot(res, key);
    RotNot(res, key);
  }

  lemma BytewiseKeyAndNotRes(res: bv64, key: bv64)
    ensures Bytewise(KeyAndNotRes, res, key)
  {
  }

  lemma BytewiseResAndNotKey(res: bv64, key: bv64)
    ensures Bytewise(ResAndNotKey, res, key)
  {
  }

  lemma GateBytewise(g: Gate, res: bv64, key: bv64)
    ensures Bytewise(g, res, key)
  {
    hide Bytewise;
    match g
    case And => BytewiseAnd(res, key);
    case Or => BytewiseOr(res, key);
    case Xor => BytewiseXor(res, key);
    case Not => BytewiseNot(res, key);
    case KeyAndNotRes => BytewiseKeyAndNotRes(res, key);
    case ResAndNotKey => BytewiseResAndNotKey(res, key);
  }

  lemma {:induction false} GateBytes(g: Gate, res: bv64, key: bv64, k: nat)
    requires k < 8
    ensures LaneGate(g, res, key, k)
    decreases k
  {
    hide ByteOf, WordGate, ByteGate, Rot;
    GateBytewise(g, res, key);
    if k > 0 {
      NextByte(res, k);
      NextByte(key, k);
      NextByte(WordGate(g, res, key), k);
      GateBytes(g, Rot(res), Rot(key), k - 1);
    }
  }

  // ---------------------------------------------------------------------
  // Words in memory

  function LoadWord(s: seq<bv8>, p: nat): bv64
    requires p + 8 <= |s|
  {
    Pack(s[p], s[p + 1], s[p + 2], s[p + 3], s[p + 4], s[p + 5], s[p + 6], s[p + 7])
  }

  lemma LoadedBytes(s: seq<bv8>, p: nat)
    requires p + 8 <= |s|
    ensures forall k: nat | k < 8 :: ByteOf(LoadWord(s, p), k) == s[p + k]
  {
    hide ByteOf, Pack;
    ByteOfPack(s[p], s[p + 1], s[p + 2], s[p + 3], s[p + 4], s[p + 5], s[p + 6], s[p + 7]);
  }

  method StoreWord(a: array<bv8>, p: nat, w: bv64)
    requires p + 8 <= a.Length
    modifies a
    ensures forall q | 0 <= q < a.Length :: a[q] == if p <= q < p + 8 then ByteOf(w, q - p) else old(a[q])
  {
    hide ByteOf;
    for k := 0 to 8
      invariant forall q | 0 <= q < a.Length :: a[q] == if p <= q < p + k then ByteOf(w, q - p) else old(a[q])
    {
      a[p + k] := ByteOf(w, k);
    }
  }

  /** `lres[w] = lres[w] <gate> lp[w]` for one word. */
  method CombineWord(res: array<bv8>, p: nat, key: seq<bv8>, kp: nat, g: Gate)
    requires p + 8 <= res.Length && kp + 8 <= |key|
    modifies res
    ensures forall q | 0 <= q < res.Length ::
      res[q] == if p <= q < p + 8 then ByteGate(g, old(res[q]), key[kp + (q - p)]) else old(res[q])
  {
    hide ByteOf, Pack, WordGate, ByteGate, LoadWord;
    var was := res[..];
    var lres, lkey := LoadWord(was, p), LoadWord(key, kp);
    LoadedBytes(was, p);
    LoadedBytes(key, kp);
    StoreWord(res, p, WordGate(g, lres, lkey));
    forall q | p <= q < p + 8 ensures res[q] == ByteGate(g, old(res[q]), key[kp + (q - p)]) {
      GateBytes(g, lres, lkey, q - p);
      assert ByteOf(lres, q - p) == was[p + (q - p)] && ByteOf(lkey, q - p) == key[kp + (q - p)];
    }
  }

  /** One unrolled step: four words of the result against four words of a key. */
  method CombineFour(res: array<bv8>, p: nat, key: seq<bv8>, kp: nat, g: Gate)
    requires p + 32 <= res.Length && kp + 32 <= |key|
    modifies res
    ensures forall q | 0 <= q < res.Length ::
      res[q] == if p <= q < p + 32 then ByteGate(g, old(res[q]), key[kp + (q - p)]) else old(res[q])
  {
    hide ByteGate;
    CombineWord(res, p, key, kp, g);
    CombineWord(res, p + 8, key, kp + 8, g);
    CombineWord(res, p + 16, key, kp + 16, g);
    CombineWord(res, p + 24, key, kp + 24, g);
  }

  // ---------------------------------------------------------------------
  // Partial results, bit by bit

  predicate OverRest(op: Operation) { op.DIFF? || op.DIFF1? || op.ANDOR? }

  /** The gate that folds one more key into the result. */
  function FoldGate(op: Operation): Gate {
    match op
    case AND => And
    case XOR => Xor
    case ONE => Xor
    case _ => Or
  }

  /** The gate that combines the disjunction of the other keys with the first key. */
  function LastGate(op: Operation): Gate {
    match op
    case DIFF => KeyAndNotRes
    case DIFF1 => ResAndNotKey
    case _ => And
  }

  /** A bit of the accumulator after the first `n` keys. */
  predicate PartBit(op: Operation, first: bool, count: nat, n: nat) {
    match op
    case AND => count == n
    case OR => count > 0
    case XOR => count % 2 == 1
    case NOT => first
    case ONE => count % 2 == 1
    case _ => count > One(first)
  }

  ghost predicate Part(op: Operation, src: seq<seq<bv8>>, n: nat, q: nat, b: bv8)
    requires 1 <= n <= |src|
  {
    forall r: nat | r < 8 ::
      BitOf(b, r) == PartBit(op, Bit(src[0], 8 * q + r), CountKeys(src, 8 * q + r, n), n)
  }

  /** Byte `q` of the result is right. */
  ghost predicate Done(op: Operation, src: seq<seq<bv8>>, q: nat, b: bv8)
    requires |src| >= 1
  {
    forall r: nat | r < 8 :: BitOf(b, r) == ResultBit(op, src, 8 * q + r)
  }

  lemma ZeroBits(r: nat)
    requires r < 8
    ensures !BitOf(0, r)
  {
  }

  function KeyByte(s: seq<bv8>, q: nat): bv8 { if q < |s| then s[q] else 0 }

  lemma KeyBits(s: seq<bv8>, q: nat, r: nat)
    requires r < 8
    ensures Bit(s, 8 * q + r) == BitOf(KeyByte(s, q), r)
  {
    assert (8 * q + r) / 8 == q && (8 * q + r) % 8 == r;
    ZeroBits(r);
  }

  function StartByte(op: Operation, first: bv8): bv8 { if OverRest(op) then 0 else first }

  lemma PartStart(op: Operation, src: seq<seq<bv8>>, q: nat)
    requires |src| >= 1
    ensures Part(op, src, 1, q, StartByte(op, KeyByte(src[0], q)))
  {
    hide BitOf, Bit, KeyByte;
    forall r: nat | r < 8
      ensures BitOf(StartByte(op, KeyByte(src[0], q)), r)
              == PartBit(op, Bit(src[0], 8 * q + r), CountKeys(src, 8 * q + r, 1), 1)
    {
      ZeroBits(r);
      KeyBits(src[0], q, r);
      assert CountKeys(src, 8 * q + r, 0) == 0;
    }
  }

  lemma PartStep(op: Operation, src: seq<seq<bv8>>, n: nat, q: nat, b: bv8)
    requires 1 <= n < |src| && !op.NOT? && Part(op, src, n, q, b)
    ensures Part(op, src, n + 1, q, ByteGate(FoldGate(op), b, KeyByte(src[n], q)))
  {
    hide BitOf, Bit, KeyByte, ByteGate;
    var c := ByteGate(FoldGate(op), b, KeyByte(src[n], q));
    forall r: nat | r < 8
      ensures BitOf(c, r) == PartBit(op, Bit(src[0], 8 * q + r), CountKeys(src, 8 * q + r, n + 1), n + 1)
    {
      GateBits(FoldGate(op), b, KeyByte(src[n], q), r);
      KeyBits(src[n], q, r);
      CountBounds(src, 8 * q + r, n);
      CountFirst(src, 8 * q + r, n);
    }
  }

  lemma PartLast(op: Operation, src: seq<seq<bv8>>, q: nat, b: bv8)
    requires |src| >= 1 && OverRest(op) && Part(op, src, |src|, q, b)
    ensures Done(op, src, q, ByteGate(LastGate(op), b, KeyByte(src[0], q)))
  {
    hide BitOf, Bit, KeyByte, ByteGate, CountKeys, ResultBit;
    var c := ByteGate(LastGate(op), b, KeyByte(src[0], q));
    forall r: nat | r < 8 ensures BitOf(c, r) == ResultBit(op, src, 8 * q + r) {
      GateBits(LastGate(op), b, KeyByte(src[0], q), r);
      KeyBits(src[0], q, r);
      CountFirst(src, 8 * q + r, |src|);
      ResultFromCount(op, src, 8 * q + r);
    }
  }

  lemma PartDone(op: Operation, src: seq<seq<bv8>>, q: nat, b: bv8)
    requires |src| >= 1 && (op.AND? || op.OR? || op.XOR?) && Part(op, src, |src|, q, b)
    ensures Done(op, src, q, b)
  {
    hide BitOf, Bit, CountKeys, ResultBit;
    forall r: nat | r < 8 ensures BitOf(b, r) == ResultBit(op, src, 8 * q + r) {
      ResultFromCount(op, src, 8 * q + r);
    }
  }

  lemma NotDone(src: seq<seq<bv8>>, q: nat, b: bv8)
    requires |src| >= 1 && Part(NOT, src, 1, q, b)
    ensures Done(NOT, src, q, ByteGate(Not, b, 0))
  {
    hide BitOf, Bit, ByteGate;
    forall r: nat | r < 8 ensures BitOf(ByteGate(Not, b, 0), r) == ResultBit(NOT, src, 8 * q + r) {
      GateBits(Not, b, 0, r);
    }
  }

  // The bits seen in more than one key, tracked beside the parity by ONE.

  ghost predicate Common(src: seq<seq<bv8>>, n: nat, q: nat, c: bv8)
    requires n <= |src|
  {
    forall r: nat | r < 8 :: BitOf(c, r) == (CountKeys(src, 8 * q + r, n) >= 2)
  }

  lemma CommonStart(src: seq<seq<bv8>>, q: nat)
    requires |src| >= 1
    ensures Common(src, 1, q, 0)
  {
    hide BitOf, Bit;
    forall r: nat | r < 8 ensures BitOf(0, r) == (CountKeys(src, 8 * q + r, 1) >= 2) {
      ZeroBits(r);
      CountBounds(src, 8 * q + r, 1);
    }
  }

  /** A bit was seen at all exactly when it is in the accumulator or in the helper. */
  ghost predicate Seen(src: seq<seq<bv8>>, n: nat, q: nat, odd: bv8, c: bv8)
    requires n <= |src|
  {
    forall r: nat | r < 8 :: BitOf(odd, r) || BitOf(c, r) <==> CountKeys(src, 8 * q + r, n) >= 1
  }

  /** Accumulate the repeated bits; `odd` holds the parity of each count, or, in the
      byte path, whether the count is exactly one: both record every second hit. */
  lemma CommonStep(src: seq<seq<bv8>>, n: nat, q: nat, odd: bv8, c: bv8)
    requires 1 <= n < |src| && Common(src, n, q, c)
    requires Seen(src, n, q, odd, c)
    ensures Common(src, n + 1, q, ByteGate(Or, c, ByteGate(And, odd, KeyByte(src[n], q))))
  {
    hide BitOf, Bit, KeyByte, ByteGate;
    var k := KeyByte(src[n], q);
    var d := ByteGate(Or, c, ByteGate(And, odd, k));
    forall r: nat | r < 8 ensures BitOf(d, r) == (CountKeys(src, 8 * q + r, n + 1) >= 2) {
      GateBits(Or, c, ByteGate(And, odd, k), r);
      GateBits(And, odd, k, r);
      KeyBits(src[n], q, r);
      assert BitOf(odd, r) || BitOf(c, r) <==> CountKeys(src, 8 * q + r, n) >= 1;
    }
  }

  /** Parity minus the repeated bits leaves the bits set in exactly one key. */
  lemma OneDone(src: seq<seq<bv8>>, q: nat, odd: bv8, c: bv8)
    requires |src| >= 1 && Part(ONE, src, |src|, q, odd) && Common(src, |src|, q, c)
    ensures Done(ONE, src, q, ByteGate(ResAndNotKey, odd, c))
  {
    hide BitOf, Bit, CountKeys, ResultBit, ByteGate;
    forall r: nat | r < 8 ensures BitOf(ByteGate(ResAndNotKey, odd, c), r) == ResultBit(ONE, src, 8 * q + r) {
      GateBits(ResAndNotKey, odd, c, r);
      ResultFromCount(ONE, src, 8 * q + r);
      assert BitOf(c, r) == (CountKeys(src, 8 * q + r, |src|) >= 2);
    }
  }

  // ---------------------------------------------------------------------
  // The path over four words at a time

  /** The keys all hold the 32 bytes from `j` on. */
  ghost predicate Covers(src: seq<seq<bv8>>, limit: nat) {
    forall i | 0 <= i < |src| :: limit <= |src[i]|
  }

  /** Fold the remaining keys into 32 bytes that start from the first key or zero. */
  method FoldChunk(op: Operation, src: seq<seq<bv8>>, res: array<bv8>, j: nat)
    requires |src| >= 1 && !op.NOT? && !op.ONE? && j + 32 <= res.Length && Covers(src, j + 32)
    requires forall q | j <= q < j + 32 :: Part(op, src, 1, q, res[q])
    modifies res
    ensures forall q | j <= q < j + 32 :: Part(op, src, |src|, q, res[q])
    ensures forall q | 0 <= q < res.Length && !(j <= q < j + 32) :: res[q] == old(res[q])
  {
    hide Part, ByteGate;
    for i := 1 to |src|
      invariant forall q | j <= q < j + 32 :: Part(op, src, i, q, res[q])
      invariant forall q | 0 <= q < res.Length && !(j <= q < j + 32) :: res[q] == old(res[q])
    {
      ghost var was := res[..];
      CombineFour(res, j, src[i], j, FoldGate(op));
      forall q | j <= q < j + 32 ensures Part(op, src, i + 1, q, res[q]) {
        PartStep(op, src, i, q, was[q]);
        assert src[i][j + (q - j)] == KeyByte(src[i], q);
      }
    }
  }

  /** `lcommon_bits[w] |= lres[w] & lp[w]` for the word at `c` of the helper. */
  method CommonWord(common: array<bv8>, c: nat, res: seq<bv8>, key: seq<bv8>, p: nat)
    requires c + 8 <= common.Length && p + 8 <= |res| && p + 8 <= |key|
    modifies common
    ensures forall q | 0 <= q < common.Length ::
      common[q] == if c <= q < c + 8 then ByteGate(Or, old(common[q]), ByteGate(And, res[p + (q - c)], key[p + (q - c)])) else old(common[q])
  {
    hide ByteOf, Pack, WordGate, ByteGate, LoadWord;
    var was := common[..];
    var lc, lres, lkey := LoadWord(was, c), LoadWord(res, p), LoadWord(key, p);
    LoadedBytes(was, c);
    LoadedBytes(res, p);
    LoadedBytes(key, p);
    StoreWord(common, c, WordGate(Or, lc, WordGate(And, lres, lkey)));
    forall q | c <= q < c + 8
      ensures common[q] == ByteGate(Or, old(common[q]), ByteGate(And, res[p + (q - c)], key[p + (q - c)]))
    {
      GateBytes(Or, lc, WordGate(And, lres, lkey), q - c);
      GateBytes(And, lres, lkey, q - c);
      assert ByteOf(lc, q - c) == was[c + (q - c)];
      assert ByteOf(lres, q - c) == res[p + (q - c)] && ByteOf(lkey, q - c) == key[p + (q - c)];
    }
  }

  method CommonFour(common: array<bv8>, res: seq<bv8>, key: seq<bv8>, p: nat)
    requires common.Length == 32 && p + 32 <= |res| && p + 32 <= |key|
    modifies common
    ensures forall q | 0 <= q < 32 :: common[q] == ByteGate(Or, old(common[q]), ByteGate(And, res[p + q], key[p + q]))
  {
    hide ByteGate;
    CommonWord(common, 0, res, key, p);
    CommonWord(common, 8, res, key, p + 8);
    CommonWord(common, 16, res, key, p + 16);
    CommonWord(common, 24, res, key, p + 24);
  }

  /** The accumulator and the helper of ONE over 32 bytes after `n` keys. */
  ghost predicate OneState(src: seq<seq<bv8>>, n: nat, j: nat, res: seq<bv8>, common: seq<bv8>)
    requires 1 <= n <= |src|
  {
    && j + 32 <= |res| && |common| == 32
    && (forall d | 0 <= d < 32 :: Part(ONE, src, n, j + d, res[j + d]) && Common(src, n, j + d, common[d]))
  }

  lemma OneStep(src: seq<seq<bv8>>, n: nat, j: nat, res: seq<bv8>, common: seq<bv8>, res': seq<bv8>, common': seq<bv8>)
    requires 1 <= n < |src| && OneState(src, n, j, res, common) && j + 32 <= |src[n]|
    requires |res'| == |res| && |common'| == 32
    requires forall d | 0 <= d < 32 :: common'[d] == ByteGate(Or, common[d], ByteGate(And, res[j + d], src[n][j + d]))
    requires forall q | j <= q < j + 32 :: res'[q] == ByteGate(Xor, res[q], src[n][q])
    ensures OneState(src, n + 1, j, res', common')
  {
    hide Part, Common, Seen, ByteGate, KeyByte;
    forall d | 0 <= d < 32
      ensures Part(ONE, src, n + 1, j + d, res'[j + d]) && Common(src, n + 1, j + d, common'[d])
    {
      var c, c' := common[d], common'[d];
      KeyByteInside(src[n], j + d);
      PartStep(ONE, src, n, j + d, res[j + d]);
      ParityOrCommon(src, n, j + d, res[j + d], common[d]);
      CommonStep(src, n, j + d, res[j + d], common[d]);
    }
  }

  lemma OneFinish(src: seq<seq<bv8>>, j: nat, res: seq<bv8>, common: seq<bv8>, q: nat)
    requires |src| >= 1 && OneState(src, |src|, j, res, common) && j <= q < j + 32
    ensures Done(ONE, src, q, ByteGate(ResAndNotKey, res[q], common[q - j]))
  {
    hide Part, Common, ByteGate, Done;
    var d := q - j;
    assert Part(ONE, src, |src|, j + d, res[j + d]) && Common(src, |src|, j + d, common[d]);
    OneDone(src, q, res[q], common[q - j]);
  }

  lemma OneStart(src: seq<seq<bv8>>, j: nat, res: seq<bv8>, common: seq<bv8>)
    requires |src| >= 1 && j + 32 <= |res| && |common| == 32
    requires forall d | 0 <= d < 32 :: common[d] == 0
    requires forall q | j <= q < j + 32 :: Part(ONE, src, 1, q, res[q])
    ensures OneState(src, 1, j, res, common)
  {
    hide Part, Common;
    forall d | 0 <= d < 32 ensures Part(ONE, src, 1, j + d, res[j + d]) && Common(src, 1, j + d, common[d]) {
      CommonStart(src, j + d);
    }
  }

  /** ONE: parity in the result, repeated bits in a helper, masked once at the end. */
  method OneChunk(src: seq<seq<bv8>>, res: array<bv8>, j: nat)
    requires |src| >= 1 && j + 32 <= res.Length && Covers(src, j + 32)
    requires forall q | j <= q < j + 32 :: Part(ONE, src, 1, q, res[q])
    modifies res
    ensures forall q | j <= q < j + 32 :: Done(ONE, src, q, res[q])
    ensures forall q | 0 <= q < res.Length && !(j <= q < j + 32) :: res[q] == old(res[q])
  {
    hide Part, OneState, Done, ByteGate;
    var common := new bv8[32](_ => 0);
    OneStart(src, j, res[..], common[..]);
    for i := 1 to |src|
      invariant fresh(common) && OneState(src, i, j, res[..], common[..])
      invariant forall q | 0 <= q < res.Length && !(j <= q < j + 32) :: res[q] == old(res[q])
    {
      ghost var was, seen := res[..], common[..];
      CommonFour(common, res[..], src[i], j);
      CombineFour(res, j, src[i], j, Xor);
      OneStep(src, i, j, was, seen, res[..], common[..]);
    }
    ghost var odd := res[..];
    CombineFour(res, j, common[..], 0, ResAndNotKey);
    forall q | j <= q < j + 32 ensures Done(ONE, src, q, res[q]) {
      OneFinish(src, j, odd, common[..], q);
    }
  }

  lemma KeyByteInside(s: seq<bv8>, q: nat)
    requires q < |s|
    ensures KeyByte(s, q) == s[q]
  {
  }

  lemma ParityOrCommon(src: seq<seq<bv8>>, n: nat, q: nat, odd: bv8, c: bv8)
    requires 1 <= n <= |src| && Part(ONE, src, n, q, odd) && Common(src, n, q, c)
    ensures Seen(src, n, q, odd, c)
  {
    hide BitOf, CountKeys, Bit;
  }

  /** The keys that take part in the word path hold at least `minlen` bytes each. */
  method FastPath(op: Operation, src: seq<seq<bv8>>, res: array<bv8>, minlen: nat) returns (j: nat)
    requires |src| >= 1 && minlen <= res.Length && Covers(src, minlen)
    requires forall q | 0 <= q < res.Length :: res[q] == 0
    modifies res
    ensures j <= minlen
    ensures forall q | 0 <= q < j :: Done(op, src, q, res[q])
  {
    hide Part, Done, ByteGate;
    if !OverRest(op) {
      for q := 0 to minlen
        invariant forall p | 0 <= p < res.Length :: res[p] == if p < q then src[0][p] else 0
      {
        res[q] := src[0][q];
      }
    }
    forall q | 0 <= q < minlen ensures Part(op, src, 1, q, res[q]) { PartStart(op, src, q); }
    j := 0;
    while minlen - j >= 32
      invariant j <= minlen && j % 32 == 0
      invariant forall q | 0 <= q < j :: if OverRest(op) then Part(op, src, |src|, q, res[q]) else Done(op, src, q, res[q])
      invariant forall q | j <= q < minlen :: Part(op, src, 1, q, res[q])
    {
      ProcessChunk(op, src, res, j);
      j := j + 32;
    }
    if OverRest(op) {
      var p := 0;
      while p < j
        invariant 0 <= p <= j && p % 32 == 0 && j % 32 == 0
        invariant forall q | 0 <= q < p :: Done(op, src, q, res[q])
        invariant forall q | p <= q < j :: Part(op, src, |src|, q, res[q])
      {
        ghost var was := res[..];
        CombineFour(res, p, src[0], p, LastGate(op));
        forall q | p <= q < p + 32 ensures Done(op, src, q, res[q]) {
          PartLast(op, src, q, was[q]);
          assert src[0][p + (q - p)] == KeyByte(src[0], q);
        }
        p := p + 32;
      }
    }
  }

  /** The branch of one operation over the 32 bytes at `j`. */
  method ProcessChunk(op: Operation, src: seq<seq<bv8>>, res: array<bv8>, j: nat)
    requires |src| >= 1 && j + 32 <= res.Length && Covers(src, j + 32)
    requires forall q | j <= q < j + 32 :: Part(op, src, 1, q, res[q])
    modifies res
    ensures forall q | j <= q < j + 32 ::
      if OverRest(op) then Part(op, src, |src|, q, res[q]) else Done(op, src, q, res[q])
    ensures forall q | 0 <= q < res.Length && !(j <= q < j + 32) :: res[q] == old(res[q])
  {
    hide Part, Done, ByteGate;
    if op.NOT? {
      ghost var was := res[..];
      CombineFour(res, j, src[0], j, Not);
      forall q | j <= q < j + 32 ensures Done(op, src, q, res[q]) {
        NotDone(src, q, was[q]);
        NotIgnoresKey(was[q], src[0][j + (q - j)]);
      }
    } else if op.ONE? {
      OneChunk(src, res, j);
    } else {
      FoldChunk(op, src, res, j);
      if !OverRest(op) {
        forall q | j <= q < j + 32 ensures Done(op, src, q, res[q]) { PartDone(op, src, q, res[q]); }
      }
    }
  }

  lemma NotIgnoresKey(b: bv8, key: bv8)
    ensures ByteGate(Not, b, key) == ByteGate(Not, b, 0)
  {
  }

  // ---------------------------------------------------------------------
  // The byte path with early exit

  lemma {:induction false} CountMonotone(src: seq<seq<bv8>>, t: nat, m: nat, n: nat)
    requires m <= n <= |src|
    ensures CountKeys(src, t, m) <= CountKeys(src, t, n) <= CountKeys(src, t, m) + (n - m)
  {
    hide Bit;
    if m < n { CountMonotone(src, t, m, n - 1); }
  }

  lemma AllBits(b: bv8, on: bool)
    requires b == if on then 0xff else 0
    ensures forall r: nat | r < 8 :: BitOf(b, r) == on
  {
    hide BitOf;
    forall r: nat | r < 8 ensures BitOf(b, r) == on { Extremes(r); }
  }

  lemma StaysSaturated(op: Operation, first: bool, c: nat, m: nat, d: nat, n: nat)
    requires op.AND? || op.OR? || OverRest(op)
    requires c <= m && c <= d <= c + (n - m) && PartBit(op, first, c, m) == !op.AND?
    ensures PartBit(op, first, d, n) == !op.AND?
  {
  }

  lemma SaturatedBit(op: Operation, src: seq<seq<bv8>>, n: nat, t: nat)
    requires 1 <= n <= |src| && (op.AND? || op.OR? || OverRest(op))
    requires PartBit(op, Bit(src[0], t), CountKeys(src, t, n), n) == !op.AND?
    ensures PartBit(op, Bit(src[0], t), CountKeys(src, t, |src|), |src|) == !op.AND?
  {
    assert CountKeys(src, t, 0) == 0;
    hide Bit, CountKeys, PartBit;
    CountMonotone(src, t, 0, n);
    CountMonotone(src, t, n, |src|);
    StaysSaturated(op, Bit(src[0], t), CountKeys(src, t, n), n, CountKeys(src, t, |src|), |src|);
  }

  /** An accumulator of AND that reached zero, or of OR or the disjunction that reached
      all ones, no longer changes. */
  lemma Saturated(op: Operation, src: seq<seq<bv8>>, n: nat, q: nat, b: bv8)
    requires 1 <= n <= |src| && Part(op, src, n, q, b)
    requires if op.AND? then b == 0 else (op.OR? || OverRest(op)) && b == 0xff
    ensures Part(op, src, |src|, q, b)
  {
    hide BitOf, Bit, CountKeys, PartBit;
    AllBits(b, !op.AND?);
    forall r: nat | r < 8
      ensures BitOf(b, r) == PartBit(op, Bit(src[0], 8 * q + r), CountKeys(src, 8 * q + r, |src|), |src|)
    {
      assert BitOf(b, r) == PartBit(op, Bit(src[0], 8 * q + r), CountKeys(src, 8 * q + r, n), n);
      SaturatedBit(op, src, n, 8 * q + r);
    }
  }

  lemma Extremes(r: nat)
    requires r < 8
    ensures !BitOf(0, r) && BitOf(0xff, r)
  {
  }

  /** A bit of the ONE accumulator of the byte path: set in exactly one key so far. */
  ghost predicate Exactly(src: seq<seq<bv8>>, n: nat, q: nat, b: bv8)
    requires n <= |src|
  {
    forall r: nat | r < 8 :: BitOf(b, r) == (CountKeys(src, 8 * q + r, n) == 1)
  }

  lemma ExactlyStart(src: seq<seq<bv8>>, q: nat)
    requires |src| >= 1
    ensures Exactly(src, 1, q, KeyByte(src[0], q))
  {
    hide BitOf, Bit, KeyByte;
    forall r: nat | r < 8 ensures BitOf(KeyByte(src[0], q), r) == (CountKeys(src, 8 * q + r, 1) == 1) {
      KeyBits(src[0], q, r);
      assert CountKeys(src, 8 * q + r, 0) == 0;
    }
  }

  lemma ExactlyStep(src: seq<seq<bv8>>, n: nat, q: nat, b: bv8, c: bv8)
    requires 1 <= n < |src| && Exactly(src, n, q, b) && Common(src, n, q, c)
    ensures var k := KeyByte(src[n], q); var c' := ByteGate(Or, c, ByteGate(And, b, k));
      Common(src, n + 1, q, c') && Exactly(src, n + 1, q, ByteGate(ResAndNotKey, ByteGate(Xor, b, k), c'))
  {
    hide BitOf, Bit, KeyByte, ByteGate;
    var k := KeyByte(src[n], q);
    var c' := ByteGate(Or, c, ByteGate(And, b, k));
    var b' := ByteGate(ResAndNotKey, ByteGate(Xor, b, k), c');
    assert Seen(src, n, q, b, c) by { hide CountKeys; }
    CommonStep(src, n, q, b, c);
    forall r: nat | r < 8 ensures BitOf(b', r) == (CountKeys(src, 8 * q + r, n + 1) == 1) {
      GateBits(ResAndNotKey, ByteGate(Xor, b, k), c', r);
      GateBits(Xor, b, k, r);
      KeyBits(src[n], q, r);
      assert BitOf(c', r) == (CountKeys(src, 8 * q + r, n + 1) >= 2);
    }
  }

  lemma ExactlyBit(src: seq<seq<bv8>>, n: nat, t: nat, b: bool, c: bool)
    requires 1 <= n <= |src| && b == (CountKeys(src, t, n) == 1) && c == (CountKeys(src, t, n) >= 2)
    requires n == |src| || c
    ensures b == ResultBit(ONE, src, t)
  {
    hide Bit, CountKeys, ResultBit;
    ResultFromCount(ONE, src, t);
    CountMonotone(src, t, n, |src|);
  }

  /** At the end, or once every bit was seen twice, the accumulator is the result. */
  lemma ExactlyDone(src: seq<seq<bv8>>, n: nat, q: nat, b: bv8, c: bv8)
    requires 1 <= n <= |src| && Exactly(src, n, q, b) && Common(src, n, q, c)
    requires n == |src| || c == 0xff
    ensures Done(ONE, src, q, b)
  {
    hide BitOf, Bit, CountKeys, ResultBit;
    if c == 0xff { AllBits(c, true); }
    forall r: nat | r < 8 ensures BitOf(b, r) == ResultBit(ONE, src, 8 * q + r) {
      ExactlyBit(src, n, 8 * q + r, BitOf(b, r), BitOf(c, r));
    }
  }

  /** What the locals of the byte loop hold after `n` keys. */
  ghost predicate ByteState(op: Operation, src: seq<seq<bv8>>, n: nat, q: nat, output: bv8, disjunction: bv8, common: bv8)
    requires 1 <= n <= |src|
  {
    match op
    case NOT => n == 1 && Done(NOT, src, q, output)
    case ONE => Exactly(src, n, q, output) && Common(src, n, q, common)
    case _ =>
      if OverRest(op) then output == KeyByte(src[0], q) && Part(op, src, n, q, disjunction)
      else Part(op, src, n, q, output)
  }

  /** Byte `q` of the result, leaving the loop over the keys as soon as the remaining
      keys cannot change it. */
  method TailByte(op: Operation, src: seq<seq<bv8>>, q: nat) returns (b: bv8)
    requires |src| >= 1 && (op.NOT? ==> |src| == 1)
    ensures Done(op, src, q, b)
  {
    hide Part, Done, Exactly, Common, KeyByte, ByteGate;
    var output, disjunction, common: bv8 := KeyByte(src[0], q), 0, 0;
    PartStart(op, src, q);
    ExactlyStart(src, q);
    CommonStart(src, q);
    if op.NOT? {
      NotDone(src, q, output);
      output := ByteGate(Not, output, 0);
    }
    var i, skip := 1, false;
    while i < |src| && !skip
      invariant 1 <= i <= |src|
      invariant ByteState(op, src, i, q, output, disjunction, common)
      invariant skip ==> match op
        case AND => output == 0
        case OR => output == 0xff
        case ONE => common == 0xff
        case _ => OverRest(op) && disjunction == 0xff
      decreases |src| - i, !skip
    {
      var byte := KeyByte(src[i], q);
      match op {
        case AND =>
          PartStep(op, src, i, q, output);
          output := ByteGate(And, output, byte);
          skip := output == 0;
        case OR =>
          PartStep(op, src, i, q, output);
          output := ByteGate(Or, output, byte);
          skip := output == 0xff;
        case XOR =>
          PartStep(op, src, i, q, output);
          output := ByteGate(Xor, output, byte);
        case ONE =>
          ExactlyStep(src, i, q, output, common);
          common := ByteGate(Or, common, ByteGate(And, output, byte));
          output := ByteGate(Xor, output, byte);
          output := ByteGate(ResAndNotKey, output, common);
          skip := common == 0xff;
        case _ =>
          PartStep(op, src, i, q, disjunction);
          disjunction := ByteGate(Or, disjunction, byte);
          skip := disjunction == 0xff;
      }
      i := i + 1;
    }
    if OverRest(op) {
      if i < |src| { Saturated(op, src, i, q, disjunction); }
      PartLast(op, src, q, disjunction);
      b := ByteGate(LastGate(op), disjunction, output);
    } else {
      if op.ONE? {
        ExactlyDone(src, i, q, output, common);
      } else if !op.NOT? {
        if i < |src| { Saturated(op, src, i, q, output); }
        PartDone(op, src, q, output);
      }
      b := output;
    }
  }

  // ---------------------------------------------------------------------
  // bitopCommand

  datatype Reply = ArityError | Stored(value: Option<seq<bv8>>, length: nat)

  predicate ArityOk(op: Operation, numkeys: nat) {
    numkeys >= 1 && (op.NOT? ==> numkeys == 1) && (OverRest(op) ==> numkeys >= 2)
  }

  ghost function MaxLen(src: seq<seq<bv8>>): nat {
    if src == [] then 0
    else var m := MaxLen(src[..|src| - 1]); var l := |src[|src| - 1]|; if l > m then l else m
  }

  function Contents(keys: seq<Option<seq<bv8>>>): (src: seq<seq<bv8>>)
    ensures |src| == |keys|
    ensures forall i | 0 <= i < |keys| :: src[i] == if keys[i].Some? then keys[i].value else []
  {
    seq(|keys|, i requires 0 <= i < |keys| => if keys[i].Some? then keys[i].value else [])
  }

  /** Longest and shortest key, missing keys counting as empty. */
  method Lengths(keys: seq<Option<seq<bv8>>>) returns (maxlen: nat, minlen: nat)
    ensures maxlen == MaxLen(Contents(keys))
    ensures Covers(Contents(keys), minlen) && (|keys| > 0 ==> minlen <= maxlen)
  {
    ghost var src := Contents(keys);
    maxlen, minlen := 0, 0;
    for j := 0 to |keys|
      invariant maxlen == MaxLen(src[..j])
      invariant minlen <= maxlen
      invariant forall i | 0 <= i < j :: minlen <= |src[i]|
    {
      assert src[..j + 1][..j] == src[..j] && src[..j + 1][j] == src[j];
      if keys[j].None? {
        minlen := 0;
      } else {
        var len := |keys[j].value|;
        if len > maxlen { maxlen := len; }
        if j == 0 || len < minlen { minlen := len; }
      }
    }
    assert src[..|keys|] == src;
  }

  /** The word path as far as all keys reach, then the byte path. */
  method Compute(op: Operation, src: seq<seq<bv8>>, minlen: nat, maxlen: nat) returns (value: seq<bv8>)
    requires |src| >= 1 && (op.NOT? ==> |src| == 1) && minlen <= maxlen && Covers(src, minlen)
    ensures |value| == maxlen
    ensures forall t: nat | t < 8 * maxlen :: Bit(value, t) == ResultBit(op, src, t)
  {
    hide Done, ResultBit, Bit;
    var res := new bv8[maxlen](_ => 0);
    var j := 0;
    if minlen >= 32 { j := FastPath(op, src, res, minlen); }
    while j < maxlen
      invariant 0 <= j <= maxlen
      invariant forall q | 0 <= q < j :: Done(op, src, q, res[q])
    {
      var b := TailByte(op, src, j);
      res[j] := b;
      j := j + 1;
    }
    value := res[..];
    forall t: nat | t < 8 * maxlen ensures Bit(value, t) == ResultBit(op, src, t) {
      DoneBit(op, src, value, t);
    }
  }

  /** BITOP over keys that are missing or hold strings: the stored value has the length
      of the longest key and each of its bits follows the definition of the operation;
      when every key is empty the target is removed. */
  method BitopCommand(op: Operation, keys: seq<Option<seq<bv8>>>) returns (reply: Reply)
    requires |keys| >= 1
    ensures reply.ArityError? <==> !ArityOk(op, |keys|)
    ensures reply.Stored? ==> reply.length == MaxLen(Contents(keys))
    ensures reply.Stored? ==> (reply.value.None? <==> reply.length == 0)
    ensures reply.Stored? && reply.value.Some? ==>
              && |reply.value.value| == reply.length
              && forall t: nat | t < 8 * reply.length :: Bit(reply.value.value, t) == ResultBit(op, Contents(keys), t)
  {
    hide Contents, MaxLen, ResultBit, Bit, Covers;
    if op.NOT? && |keys| != 1 { return ArityError; }
    if OverRest(op) && |keys| < 2 { return ArityError; }
    var maxlen, minlen := Lengths(keys);
    if maxlen == 0 { return Stored(None, 0); }
    var value := Compute(op, Contents(keys), minlen, maxlen);
    reply := Stored(Some(value), maxlen);
  }

  lemma DoneBit(op: Operation, src: seq<seq<bv8>>, res: seq<bv8>, t: nat)
    requires |src| >= 1 && t < 8 * |res| && Done(op, src, t / 8, res[t / 8])
    ensures Bit(res, t) == ResultBit(op, src, t)
  {
    hide BitOf, ResultBit;
    assert BitOf(res[t / 8], t % 8) == ResultBit(op, src, 8 * (t / 8) + t % 8);
  }
}
