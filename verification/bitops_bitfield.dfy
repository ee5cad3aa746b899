/** Arbitrary-width integers inside a bitmap (bitops.c): reading, writing, overflow
    control, and the execution of a BITFIELD operation list. */
module BitField {
  import opened Arith
  import opened Base
  import opened Bits

  // ---------------------------------------------------------------------
  // Machine integers

  function Pow2(n: nat): (p: nat)
    ensures p >= 1
  {
    if n == 0 then 1 else 2 * Pow2(n - 1)
  }

  /** Logical shift right of an unsigned value. */
  function Shr(v: nat, k: nat): nat {
    if k == 0 then v else Shr(v, k - 1) / 2
  }

  /** Bit `k` of an unsigned value: `v & (1 << k)`. */
  predicate TestInt(v: nat, k: nat) { Shr(v, k) % 2 == 1 }

  const U64 := 0x1_0000_0000_0000_0000
  const I64 := 0x8000_0000_0000_0000

  /** Conversion to `uint64_t`. */
  function ToU64(x: int): nat { x % U64 }

  /** Conversion to `int64_t` on a two's complement machine. */
  function ToI64(x: int): (r: int)
    ensures -I64 <= r < I64
  {
    var u := x % U64;
    if u >= I64 then u - U64 else u
  }

  lemma {:induction false} Pow2Monotone(a: nat, b: nat)
    requires a <= b
    ensures Pow2(a) <= Pow2(b)
    decreases b - a
  {
    if a < b { Pow2Monotone(a, b - 1); }
  }

  lemma Pow2At63()
    ensures Pow2(63) == I64 && Pow2(64) == U64
  {
    assert Pow2(2) == 4;
    assert Pow2(4) == 16 by { Pow2Sum(2, 2); }
    assert Pow2(8) == 256 by { Pow2Sum(4, 4); }
    assert Pow2(16) == 65536 by { Pow2Sum(8, 8); }
    assert Pow2(32) == 0x1_0000_0000 by { Pow2Sum(16, 16); }
    assert Pow2(64) == U64 by { Pow2Sum(32, 32); }
    assert Pow2(64) == 2 * Pow2(63);
  }

  lemma {:induction false} Pow2Sum(a: nat, b: nat)
    ensures Pow2(a + b) == Pow2(a) * Pow2(b)
  {
    if b > 0 { Pow2Sum(a, b - 1); }
  }

  /** The unsigned value spelled by `n` bits of `s` starting at `off`. */
  function FieldValue(s: seq<bv8>, off: nat, n: nat): nat {
    if n == 0 then 0 else 2 * FieldValue(s, off, n - 1) + One(Bit(s, off + n - 1))
  }

  lemma {:induction false} FieldValueBound(s: seq<bv8>, off: nat, n: nat)
    ensures FieldValue(s, off, n) < Pow2(n)
  {
    if n > 0 { FieldValueBound(s, off, n - 1); }
  }

  /** Two's complement reading of an unsigned `bits`-wide value. */
  function Signed(u: nat, bits: nat): int
    requires bits >= 1
  {
    if u >= Pow2(bits - 1) then u - Pow2(bits) else u
  }

  function MaxSigned(bits: nat): int
    requires bits >= 1
  {
    Pow2(bits - 1) - 1
  }

  function MinSigned(bits: nat): int
    requires bits >= 1
  {
    0 - Pow2(bits - 1)
  }

  // ---------------------------------------------------------------------
  // setUnsignedBitfield and getUnsignedBitfield

  /** Replace bit `k` of a byte. */
  function PutBit(b: bv8, k: nat, on: bool): bv8
    requires k < 8
  {
    (b & !Mask(k)) | (if on then Mask(k) else 0)
  }

  lemma PutBitBits(b: bv8, k: nat, on: bool, r: nat)
    requires k < 8 && r < 8
    ensures BitOf(PutBit(b, k, on), r) == if r == k then on else BitOf(b, r)
  {
  }

  lemma UpdateBit(s: seq<bv8>, t: seq<bv8>, i: nat, on: bool)
    requires i / 8 < |s| && t == s[i / 8 := PutBit(s[i / 8], i % 8, on)]
    ensures forall j: nat :: Bit(t, j) == if j == i then on else Bit(s, j)
  {
    hide BitOf, PutBit;
    forall j: nat ensures Bit(t, j) == if j == i then on else Bit(s, j) {
      if j / 8 == i / 8 {
        PutBitBits(s[i / 8], i % 8, on, j % 8);
      }
    }
  }

  /** `t` is `s` with the field replaced by the low `n` bits of `v`. */
  ghost predicate IsWrite(s: seq<bv8>, t: seq<bv8>, off: nat, n: nat, v: nat) {
    && |t| == |s|
    && (forall j: nat | j < off || j >= off + n :: Bit(t, j) == Bit(s, j))
    && (forall j: nat | off <= j < off + n :: Bit(t, j) == TestInt(v, off + n - 1 - j))
  }

  method SetUnsignedBitfield(p: array<bv8>, offset: nat, bits: nat, value: nat)
    requires offset + bits <= 8 * p.Length
    modifies p
    ensures IsWrite(old(p[..]), p[..], offset, bits, value)
  {
    hide Bit, TestInt, PutBit;
    var off := offset;
    ghost var before := p[..];
    for j := 0 to bits
      invariant off == offset + j
      invariant forall i: nat | i < offset || i >= offset + j :: Bit(p[..], i) == Bit(before, i)
      invariant forall i: nat | offset <= i < offset + j :: Bit(p[..], i) == TestInt(value, offset + bits - 1 - i)
    {
      var bitval := TestInt(value, bits - 1 - j);
      var byte, bit := off / 8, off % 8;
      ghost var was := p[..];
      p[byte] := PutBit(p[byte], bit, bitval);
      UpdateBit(was, p[..], off, bitval);
      off := off + 1;
    }
  }

  method GetUnsignedBitfield(p: seq<bv8>, offset: nat, bits: nat) returns (value: nat)
    requires offset + bits <= 8 * |p|
    ensures value == FieldValue(p, offset, bits)
  {
    hide BitOf;
    value := 0;
    var off := offset;
    for j := 0 to bits
      invariant off == offset + j
      invariant value == FieldValue(p, offset, j)
    {
      var byte, bit := off / 8, off % 8;
      value := 2 * value + One(BitOf(p[byte], bit));
      off := off + 1;
    }
  }

  // ---------------------------------------------------------------------
  // Reading back what was written

  lemma {:induction false} ReadBits(t: seq<bv8>, off: nat, total: nat, v: nat, n: nat)
    requires n <= total
    requires forall j: nat | off <= j < off + total :: Bit(t, j) == TestInt(v, off + total - 1 - j)
    ensures FieldValue(t, off, n) == Shr(v, total - n) % Pow2(n)
  {
    hide Bit;
    if n > 0 {
      ReadBits(t, off, total, v, n - 1);
      assert Shr(v, total - (n - 1)) == Shr(v, total - n) / 2;
      ModDouble(Shr(v, total - n), Pow2(n - 1));
      assert Bit(t, off + n - 1) == TestInt(v, total - n);
    }
  }

  /** A field reads back as the written value modulo its width. */
  lemma ReadAfterWrite(s: seq<bv8>, t: seq<bv8>, off: nat, n: nat, v: nat)
    requires IsWrite(s, t, off, n, v)
    ensures FieldValue(t, off, n) == v % Pow2(n)
  {
    ReadBits(t, off, n, v, n);
  }

  /** A field that does not overlap the written one is unchanged. */
  lemma {:induction false} OtherFieldUnchanged(s: seq<bv8>, t: seq<bv8>, off: nat, n: nat, v: nat, off': nat, n': nat)
    requires IsWrite(s, t, off, n, v)
    requires off' + n' <= off || off + n <= off'
    ensures FieldValue(t, off', n') == FieldValue(s, off', n')
  {
    hide Bit;
    if n' > 0 { OtherFieldUnchanged(s, t, off, n, v, off', n' - 1); }
  }

  /** The written string is unique. */
  lemma WriteUnique(s: seq<bv8>, t: seq<bv8>, t': seq<bv8>, off: nat, n: nat, v: nat)
    requires IsWrite(s, t, off, n, v) && IsWrite(s, t', off, n, v)
    ensures t == t'
  {
    hide BitOf;
    forall j: nat | j < |t| ensures t[j] == t'[j] {
      forall k | 0 <= k < 8 ensures BitOf(t[j], k) == BitOf(t'[j], k) {
        BitInByte(t, j, k);
        BitInByte(t', j, k);
        assert Bit(t, 8 * j + k) == Bit(t', 8 * j + k);
      }
      ByteExtensional(t[j], t'[j]);
    }
  }

  // ---------------------------------------------------------------------
  // Signed fields

  method SetSignedBitfield(p: array<bv8>, offset: nat, bits: nat, value: int)
    requires offset + bits <= 8 * p.Length
    modifies p
    ensures IsWrite(old(p[..]), p[..], offset, bits, ToU64(value))
  {
    SetUnsignedBitfield(p, offset, bits, ToU64(value));
  }

  lemma {:induction false} TopBit(u: nat, n: nat)
    requires n >= 1 && u < Pow2(n)
    ensures TestInt(u, n - 1) <==> u >= Pow2(n - 1)
  {
    if n > 1 {
      TopBit(u / 2, n - 1);
      ShrHalf(u, n - 2);
    }
  }

  lemma {:induction false} ShrHalf(u: nat, k: nat)
    ensures Shr(u, k + 1) == Shr(u / 2, k)
  {
    if k > 0 { ShrHalf(u, k - 1); }
  }

  method GetSignedBitfield(p: seq<bv8>, offset: nat, bits: nat) returns (value: int)
    requires 1 <= bits <= 64 && offset + bits <= 8 * |p|
    ensures value == Signed(FieldValue(p, offset, bits), bits)
  {
    hide FieldValue;
    var u := GetUnsignedBitfield(p, offset, bits);
    FieldValueBound(p, offset, bits);
    TopBit(u, bits);
    Pow2At63();
    Pow2Monotone(bits, 64);
    hide Pow2, TestInt;
    value := ToI64(u);
    if bits < 64 && TestInt(u, bits - 1) {
      // OR-ing in all bits from `bits` upwards
      value := ToI64(u + (U64 - Pow2(bits)));
    }
  }

  /** A signed value that fits reads back as itself. */
  lemma SignedRoundTrip(v: int, bits: nat)
    requires 1 <= bits <= 64 && MinSigned(bits) <= v <= MaxSigned(bits)
    ensures Signed(ToU64(v) % Pow2(bits), bits) == v
  {
    assert Pow2(bits) == 2 * Pow2(bits - 1);
    if v >= 0 {
      hide Pow2;
      SmallMod(v, bits);
    } else {
      NegativeMod(v, bits);
    }
  }

  lemma NegativeMod(v: int, bits: nat)
    requires 1 <= bits <= 64 && MinSigned(bits) <= v < 0
    ensures ToU64(v) % Pow2(bits) == v + Pow2(bits)
  {
    var w := U64Factor(bits);
    assert Pow2(bits) == 2 * Pow2(bits - 1);
    ToU64Negative(v, Pow2(bits));
    hide Pow2, ToU64;
    WrapsBelowZero(v, Pow2(bits), w, U64);
  }

  lemma U64Factor(bits: nat) returns (w: nat)
    requires bits <= 64
    ensures w >= 1 && U64 == Pow2(bits) * w && Pow2(bits) <= U64
  {
    w := Pow2(64 - bits);
    Pow2At63();
    Pow2Sum(bits, 64 - bits);
    Pow2Monotone(bits, 64);
  }

  lemma ToU64Negative(v: int, p: nat)
    requires p <= U64 && 0 - p <= v < 0
    ensures ToU64(v) == v + U64
  {
  }

  lemma WrapsBelowZero(v: int, p: nat, w: nat, u: nat)
    requires p >= 1 && u == p * w && 0 - p <= v < 0
    ensures (v + u) % p == v + p
  {
    assert v + u == p * (w - 1) + (v + p);
    ModUnique(v + u, p, w - 1, v + p);
  }

  lemma SmallMod(v: nat, bits: nat)
    requires 1 <= bits <= 64 && v < Pow2(bits - 1)
    ensures v % U64 == v && v % Pow2(bits) == v
  {
    assert Pow2(bits - 1) <= Pow2(bits);
    Pow2At63();
    Pow2Monotone(bits, 64);
    hide Pow2;
    ModSmall(v, U64);
    ModSmall(v, Pow2(bits));
  }

  // ---------------------------------------------------------------------
  // Overflow checks

  datatype Overflow = Wrap | Sat | Fail

  /** The return code of the overflow checks and the value left in `*limit`. */
  datatype Check = Check(code: int, limit: int)

  function CheckUnsigned(value: nat, incr: int, bits: nat, ow: Overflow): Check
    requires 1 <= bits <= 63
  {
    var max := Pow2(bits) - 1;
    var maxincr, minincr := ToI64(max - value), ToI64(0 - value);
    var wrapped := ToU64(value + incr) % Pow2(bits);
    if value > max || (incr > 0 && incr > maxincr) then
      Check(1, match ow case Wrap => wrapped case Sat => max case Fail => 0)
    else if incr < 0 && incr < minincr then
      match ow case Wrap => Check(1, wrapped) case Sat => Check(-1, 0) case Fail => Check(-1, 0)
    else
      Check(0, 0)
  }

  /** Sign-extend or mask a 64-bit sum to `bits` bits. */
  function WrapSigned(sum: int, bits: nat): int
    requires 1 <= bits <= 64
  {
    var c := ToU64(sum);
    if bits == 64 then ToI64(c)
    else if TestInt(c, bits - 1) then ToI64(c % Pow2(bits) + (U64 - Pow2(bits)))
    else ToI64(c % Pow2(bits))
  }

  function CheckSigned(value: int, incr: int, bits: nat, ow: Overflow): Check
    requires 1 <= bits <= 64
  {
    var max, min := MaxSigned(bits), MinSigned(bits);
    var maxincr, minincr := ToI64(max - value), ToI64(min - value);
    if value > max || (bits != 64 && incr > maxincr) || (value >= 0 && incr > 0 && incr > maxincr) then
      Check(1, match ow case Wrap => WrapSigned(value + incr, bits) case Sat => max case Fail => 0)
    else if value < min || (bits != 64 && incr < minincr) || (value < 0 && incr < 0 && incr < minincr) then
      match ow
      case Wrap => Check(1, WrapSigned(value + incr, bits))
      case Sat => Check(-1, min)
      case Fail => Check(-1, 0)
    else
      Check(0, 0)
  }

  predicate IsI64(x: int) { -I64 <= x < I64 }

  lemma ToI64Exact(x: int)
    requires IsI64(x)
    ensures ToI64(x) == x
  {
  }

  /** For an in-range unsigned value, overflow is reported exactly when the
      mathematical sum leaves the range. */
  lemma UnsignedExact(value: nat, incr: int, bits: nat, ow: Overflow)
    requires 1 <= bits <= 63 && value < Pow2(bits) && IsI64(incr)
    ensures var c := CheckUnsigned(value, incr, bits, ow);
      && (c.code != 0 <==> !(0 <= value + incr < Pow2(bits)))
      && (c.code != 0 && ow.Wrap? ==> c.limit == (value + incr) % Pow2(bits))
      && (c.code != 0 && ow.Sat? ==> c.limit == if value + incr < 0 then 0 else Pow2(bits) - 1)
  {
    hide Pow2, ToI64, ToU64;
    Pow2At63();
    Pow2Monotone(bits, 63);
    var w := U64Factor(bits);
    ToI64Exact(Pow2(bits) - 1 - value);
    ToI64Exact(0 - value);
    ModOfMod(value + incr, Pow2(bits), w);
  }

  /** Reducing modulo 2^64 first does not change the residue modulo 2^bits. */
  lemma ModOfMod(x: int, p: nat, w: nat)
    requires p >= 1 && w >= 1 && U64 == p * w
    ensures ToU64(x) % p == x % p
  {
    var q, u := x / U64, x % U64;
    assert x == U64 * q + u;
    Reassociate(p, w, q);
    ModUnique(x, p, w * q + u / p, u % p) by {
      assert u == p * (u / p) + u % p;
      Distribute(p, w * q, u / p);
    }
  }

  lemma Reassociate(p: nat, w: nat, q: int)
    ensures p * w * q == p * (w * q)
  {
  }

  lemma Distribute(p: nat, a: int, b: int)
    ensures p * (a + b) == p * a + p * b
  {
  }

  lemma {:induction false} TopBitMod(c: nat, n: nat)
    requires n >= 1
    ensures TestInt(c, n - 1) <==> c % Pow2(n) >= Pow2(n - 1)
  {
    ModDouble(c, Pow2(n - 1));
    if n > 1 {
      TopBitMod(c / 2, n - 1);
      ShrHalf(c, n - 2);
    }
  }

  /** A signed reading lies in the signed range and is congruent to its argument. */
  lemma SignedInRange(u: nat, bits: nat)
    requires bits >= 1 && u < Pow2(bits)
    ensures MinSigned(bits) <= Signed(u, bits) <= MaxSigned(bits)
    ensures Signed(u, bits) == u || Signed(u, bits) == u - Pow2(bits)
  {
  }

  /** Only one value of the signed range belongs to each residue class. */
  lemma SignedUnique(x: int, y: int, k: int, bits: nat)
    requires bits >= 1 && x == y + k * Pow2(bits)
    requires MinSigned(bits) <= x <= MaxSigned(bits) && MinSigned(bits) <= y <= MaxSigned(bits)
    ensures x == y
  {
    assert Pow2(bits) == 2 * Pow2(bits - 1);
    hide Pow2;
    MulAtLeast(Pow2(bits), k);
  }

  /** The value of the signed `bits`-wide range congruent to `sum`. */
  function Residue(sum: int, bits: nat): int
    requires bits >= 1
  {
    Signed(sum % Pow2(bits), bits)
  }

  lemma WrapSignedExact(sum: int, bits: nat)
    requires 1 <= bits <= 64
    ensures WrapSigned(sum, bits) == Residue(sum, bits)
  {
    if bits == 64 {
      Wrap64(sum);
    } else {
      hide WrapSigned, Residue;
      WrapNarrow(sum, bits);
    }
  }

  lemma Wrap64(sum: int)
    ensures WrapSigned(sum, 64) == Residue(sum, 64)
  {
    Pow2At63();
    hide Pow2;
  }

  lemma WrapNarrow(sum: int, bits: nat)
    requires 1 <= bits <= 63
    ensures WrapSigned(sum, bits) == Residue(sum, bits)
  {
    var c := ToU64(sum);
    var w := U64Factor(bits);
    Pow2At63();
    Pow2Monotone(bits, 63);
    TopBitMod(c, bits);
    hide Pow2, TestInt, ToU64, ToI64;
    ModOfMod(sum, Pow2(bits), w);
    WrapValue(c % Pow2(bits), Pow2(bits));
  }

  lemma WrapValue(m: nat, p: nat)
    requires m < p <= I64
    ensures ToI64(m) == m && ToI64(m + (U64 - p)) == m - p
  {
  }

  /** For an in-range signed value, overflow is reported exactly when the
      mathematical sum leaves the range. */
  lemma SignedExact(value: int, incr: int, bits: nat, ow: Overflow)
    requires 1 <= bits <= 64 && MinSigned(bits) <= value <= MaxSigned(bits) && IsI64(incr)
    ensures var c := CheckSigned(value, incr, bits, ow);
      && (c.code != 0 <==> !(MinSigned(bits) <= value + incr <= MaxSigned(bits)))
      && (c.code != 0 && ow.Wrap? ==> c.limit == Residue(value + incr, bits))
      && (c.code != 0 && ow.Sat? ==> c.limit == if value + incr < 0 then MinSigned(bits) else MaxSigned(bits))
  {
    WrapSignedExact(value + incr, bits);
    SignedLimits(bits);
    hide MaxSigned, MinSigned, WrapSigned, Residue, ToI64;
    if bits < 64 || value >= 0 { ToI64Exact(MaxSigned(bits) - value); }
    if bits < 64 || value < 0 { ToI64Exact(MinSigned(bits) - value); }
  }

  lemma SignedLimits(bits: nat)
    requires 1 <= bits <= 64
    ensures MinSigned(bits) == -1 - MaxSigned(bits) && 0 <= MaxSigned(bits) < I64
    ensures bits < 64 ==> MaxSigned(bits) < 0x4000_0000_0000_0000
    ensures bits == 64 ==> MaxSigned(bits) == I64 - 1
  {
    Pow2At63();
    assert Pow2(63) == 2 * Pow2(62);
    Pow2Monotone(bits - 1, 63);
    if bits < 64 { Pow2Monotone(bits - 1, 62); }
  }

  /** SET passes its value with a zero increment: any value out of range is noticed,
      and WRAP stores the congruent value of the range. */
  lemma SetChecksRange(value: int, bits: nat, ow: Overflow)
    requires 1 <= bits <= 64 && IsI64(value)
    ensures var c := CheckSigned(value, 0, bits, ow);
      && (c.code != 0 <==> !(MinSigned(bits) <= value <= MaxSigned(bits)))
      && (c.code != 0 && ow.Wrap? ==> c.limit == Residue(value, bits))
  {
    WrapSignedExact(value + 0, bits);
    SignedLimits(bits);
    hide MaxSigned, MinSigned, WrapSigned, Residue, ToI64;
    if MinSigned(bits) <= value <= MaxSigned(bits) && bits < 64 {
      ToI64Exact(MaxSigned(bits) - value);
      ToI64Exact(MinSigned(bits) - value);
    }
  }

  /** SET with saturation stores the nearer endpoint exactly when the distance from
      the maximum down to the value fits in 64 bits; otherwise that distance wraps
      and a value far below the range is stored as the maximum. */
  lemma SetSaturates(value: int, bits: nat)
    requires 1 <= bits <= 64 && IsI64(value)
    requires !(MinSigned(bits) <= value <= MaxSigned(bits))
    ensures CheckSigned(value, 0, bits, Sat).limit == (if value < 0 then MinSigned(bits) else MaxSigned(bits))
            <==> MaxSigned(bits) - value < I64
  {
    SignedLimits(bits);
    hide MaxSigned, MinSigned;
  }

  /** The smallest 64-bit integer saturates an eight-bit field to its maximum. */
  lemma SetSaturatesUpwards()
    ensures CheckSigned(-I64, 0, 8, Sat) == Check(1, 127)
  {
    assert Pow2(3) == 8;
    assert Pow2(7) == 128;
  }

  // ---------------------------------------------------------------------
  // The BITFIELD operation list

  datatype Opcode = Get | Set | IncrBy

  datatype Op = Op(code: Opcode, offset: nat, value: int, ow: Overflow, bits: nat, sign: bool) {
    /** What the argument parser lets through. */
    predicate Valid() {
      1 <= bits <= (if sign then 64 else 63) && IsI64(value)
    }

    function Lo(): int
      requires bits >= 1
    {
      if sign then MinSigned(bits) else 0
    }

    function Hi(): int
      requires bits >= 1
    {
      if sign then MaxSigned(bits) else Pow2(bits) - 1
    }

    /** The integer the field currently holds. */
    ghost function Read(s: seq<bv8>): int
      requires bits >= 1
    {
      var u := FieldValue(s, offset, bits);
      if sign then Signed(u, bits) else u
    }

    /** The integer the operation aims for, as if there were no bounds. */
    function Target(before: int): int {
      if code.IncrBy? then before + value else if sign then value else ToU64(value)
    }

    /** Where saturation puts an unreachable target. */
    function Nearest(target: int): int
      requires bits >= 1
    {
      if target > Hi() then Hi()
      else if code.Set? && sign && MaxSigned(bits) - value >= I64 then Hi()
      else Lo()
    }

    /** The new contents of the field, or none when the operation fails. */
    function Outcome(before: int): Option<int>
      requires bits >= 1
    {
      var target := Target(before);
      if Lo() <= target <= Hi() then Some(target)
      else match ow
        case Fail => None
        case Sat => Some(Nearest(target))
        case Wrap => Some(if sign then Residue(target, bits) else target % Pow2(bits))
    }

    /** One operation of the list: reply and effect on the string. */
    ghost predicate Step(s: seq<bv8>, reply: Option<int>, t: seq<bv8>)
      requires bits >= 1
    {
      if code.Get? then t == s && reply == Some(Read(s))
      else match Outcome(Read(s))
        case None => t == s && reply == None
        case Some(v) =>
          IsWrite(s, t, offset, bits, ToU64(v)) && reply == Some(if code.IncrBy? then v else Read(s))
    }
  }

  /** The outcome of an operation always fits in its field. */
  lemma OutcomeInRange(op: Op, before: int)
    requires op.Valid()
    ensures op.Outcome(before).Some? ==> op.Lo() <= op.Outcome(before).value <= op.Hi()
  {
    SignedLimits(op.bits);
    if op.ow.Wrap? {
      SignedInRange(op.Target(before) % Pow2(op.bits), op.bits);
    }
  }

  /** After a successful operation the field holds its outcome. */
  lemma StepStores(op: Op, s: seq<bv8>, reply: Option<int>, t: seq<bv8>)
    requires op.Valid() && !op.code.Get? && op.Step(s, reply, t) && op.Outcome(op.Read(s)).Some?
    ensures op.Read(t) == op.Outcome(op.Read(s)).value
  {
    var v := op.Outcome(op.Read(s)).value;
    OutcomeInRange(op, op.Read(s));
    ReadAfterWrite(s, t, op.offset, op.bits, ToU64(v));
    if op.sign {
      SignedRoundTrip(v, op.bits);
    } else {
      Pow2At63();
      Pow2Monotone(op.bits, 63);
      hide Pow2;
      ModSmall(v, U64);
      ModSmall(v, Pow2(op.bits));
    }
  }

  /** The verdict of the checks, in terms of the bounds of the field. */
  lemma CheckMatchesOutcome(op: Op, before: int)
    requires op.Valid() && !op.code.Get? && op.Lo() <= before <= op.Hi()
    ensures var c := if op.sign
        then (if op.code.IncrBy? then CheckSigned(before, op.value, op.bits, op.ow) else CheckSigned(op.value, 0, op.bits, op.ow))
        else (if op.code.IncrBy? then CheckUnsigned(before, op.value, op.bits, op.ow) else CheckUnsigned(ToU64(op.value), 0, op.bits, op.ow));
      && (c.code != 0 <==> !(op.Lo() <= op.Target(before) <= op.Hi()))
      && (c.code != 0 && !op.ow.Fail? ==> op.Outcome(before) == Some(c.limit))
  {
    SignedLimits(op.bits);
    if op.sign {
      if op.code.IncrBy? {
        SignedExact(before, op.value, op.bits, op.ow);
        hide MaxSigned, MinSigned, CheckSigned, Residue;
      } else {
        SetChecksRange(op.value, op.bits, op.ow);
        if !(op.Lo() <= op.value <= op.Hi()) { SetSaturates(op.value, op.bits); }
        SetLimitIsBound(op.value, op.bits);
        hide MaxSigned, MinSigned, CheckSigned, Residue;
      }
    } else if op.code.IncrBy? {
      UnsignedExact(before, op.value, op.bits, op.ow);
      hide CheckUnsigned, Pow2;
    } else {
      SetUnsignedExact(op.value, op.bits, op.ow);
      hide CheckUnsigned, Pow2;
    }
  }

  lemma SetLimitIsBound(value: int, bits: nat)
    requires 1 <= bits <= 64
    ensures CheckSigned(value, 0, bits, Sat).code != 0 ==>
      CheckSigned(value, 0, bits, Sat).limit == MaxSigned(bits) || CheckSigned(value, 0, bits, Sat).limit == MinSigned(bits)
    ensures MaxSigned(bits) - value >= I64 && CheckSigned(value, 0, bits, Sat).code != 0 && IsI64(value) ==>
      CheckSigned(value, 0, bits, Sat).limit == MaxSigned(bits)
  {
    SignedLimits(bits);
    hide MaxSigned, MinSigned;
  }

  /** An unsigned SET sees its value as a 64-bit unsigned integer. */
  lemma SetUnsignedExact(value: int, bits: nat, ow: Overflow)
    requires 1 <= bits <= 63
    ensures var c := CheckUnsigned(ToU64(value), 0, bits, ow);
      && (c.code != 0 <==> ToU64(value) >= Pow2(bits))
      && (c.code != 0 && ow.Wrap? ==> c.limit == ToU64(value) % Pow2(bits))
      && (c.code != 0 && ow.Sat? ==> c.limit == Pow2(bits) - 1)
  {
  }

  lemma ReadInRange(op: Op, s: seq<bv8>)
    requires op.Valid()
    ensures op.Lo() <= op.Read(s) <= op.Hi()
  {
    FieldValueBound(s, op.offset, op.bits);
    SignedInRange(FieldValue(s, op.offset, op.bits), op.bits);
  }

  /** SET and INCRBY on a string that is long enough. */
  method ExecuteWrite(p: array<bv8>, op: Op) returns (reply: Option<int>)
    requires op.Valid() && !op.code.Get? && op.offset + op.bits <= 8 * p.Length
    modifies p
    ensures op.Step(old(p[..]), reply, p[..])
  {
    hide FieldValue, CheckSigned, CheckUnsigned, IsWrite, Pow2, Signed, Residue, MaxSigned, MinSigned;
    ReadInRange(op, p[..]);
    var oldval, newval: int, check;
    if op.sign {
      oldval := GetSignedBitfield(p[..], op.offset, op.bits);
      CheckMatchesOutcome(op, oldval);
      if op.code.IncrBy? {
        check := CheckSigned(oldval, op.value, op.bits, op.ow);
        newval := if check.code != 0 then check.limit else oldval + op.value;
      } else {
        check := CheckSigned(op.value, 0, op.bits, op.ow);
        newval := if check.code != 0 then check.limit else op.value;
      }
    } else {
      oldval := GetUnsignedBitfield(p[..], op.offset, op.bits);
      CheckMatchesOutcome(op, oldval);
      if op.code.IncrBy? {
        check := CheckUnsigned(oldval, op.value, op.bits, op.ow);
        newval := if check.code != 0 then check.limit else oldval + op.value;
      } else {
        check := CheckUnsigned(ToU64(op.value), 0, op.bits, op.ow);
        newval := if check.code != 0 then check.limit else ToU64(op.value);
      }
    }
    if check.code != 0 && op.ow.Fail? {
      return None;
    }
    SetUnsignedBitfield(p, op.offset, op.bits, ToU64(newval));
    reply := Some(if op.code.IncrBy? then newval else oldval);
  }

  lemma {:induction false} BufferedField(buf: seq<bv8>, s: seq<bv8>, byte: nat, off: nat, n: nat)
    requires forall i: nat | i < off + n :: Bit(buf, i) == Bit(s, 8 * byte + i)
    ensures FieldValue(buf, off, n) == FieldValue(s, 8 * byte + off, n)
  {
    hide Bit;
    if n > 0 {
      BufferedField(buf, s, byte, off, n - 1);
      assert Bit(buf, off + n - 1) == Bit(s, 8 * byte + (off + n - 1));
    }
  }

  lemma BufferedBits(buf: seq<bv8>, s: seq<bv8>, byte: nat)
    requires forall i: nat | i < |buf| :: buf[i] == if byte + i < |s| then s[byte + i] else 0
    ensures forall i: nat | i < 8 * |buf| :: Bit(buf, i) == Bit(s, 8 * byte + i)
  {
    assert forall k: nat | k < 8 :: !BitOf(0, k);
    hide BitOf;
    forall i: nat | i < 8 * |buf| ensures Bit(buf, i) == Bit(s, 8 * byte + i) {
      assert (8 * byte + i) / 8 == byte + i / 8 && (8 * byte + i) % 8 == i % 8;
    }
  }

  /** GET copies up to nine bytes into a zeroed buffer and reads the field there. */
  method ExecuteGet(src: seq<bv8>, op: Op) returns (val: int)
    requires op.Valid()
    ensures val == op.Read(src)
  {
    hide BitOf, FieldValue, Pow2, Signed;
    var buf := new bv8[9](_ => 0);
    var byte := op.offset / 8;
    var i := 0;
    while i < 9 && i + byte < |src|
      invariant 0 <= i <= 9
      invariant forall k: nat | k < i :: buf[k] == if byte + k < |src| then src[byte + k] else 0
      invariant forall k: nat | i <= k < 9 :: buf[k] == 0
    {
      buf[i] := src[i + byte];
      i := i + 1;
    }
    BufferedBits(buf[..], src, byte);
    BufferedField(buf[..], src, byte, op.offset - 8 * byte, op.bits);
    if op.sign {
      val := GetSignedBitfield(buf[..], op.offset - 8 * byte, op.bits);
    } else {
      val := GetUnsignedBitfield(buf[..], op.offset - 8 * byte, op.bits);
    }
  }

  /** `sdsgrowzero`: at least `len` bytes, the new ones zero. */
  function GrowZero(s: seq<bv8>, len: nat): (t: seq<bv8>)
    ensures |t| == if |s| < len then len else |s|
  {
    if |s| < len then s + seq(len - |s|, _ => 0) else s
  }

  /** Growing does not change the zero-padded contents. */
  lemma GrowKeepsBits(s: seq<bv8>, len: nat)
    ensures forall i: nat :: Bit(GrowZero(s, len), i) == Bit(s, i)
  {
    assert forall k: nat | k < 8 :: !BitOf(0, k);
    hide BitOf;
    forall i: nat ensures Bit(GrowZero(s, len), i) == Bit(s, i) {
      assert i % 8 < 8;
    }
  }

  /** A run of the operation list: `trace[j]` is the string before operation `j`. */
  ghost predicate Run(ops: seq<Op>, replies: seq<Option<int>>, trace: seq<seq<bv8>>) {
    && |replies| == |ops| && |trace| == |ops| + 1
    && (forall j | 0 <= j < |ops| :: ops[j].bits >= 1 && ops[j].Step(trace[j], replies[j], trace[j + 1]))
  }

  predicate ReadOnly(ops: seq<Op>) { forall op | op in ops :: op.code.Get? }

  /** The executing part of `bitfieldGeneric`: all writes happen inside the string as
      grown for the farthest one, and each operation sees its predecessors' effects. */
  method BitfieldGeneric(key: Option<seq<bv8>>, ops: seq<Op>)
    returns (replies: seq<Option<int>>, after: Option<seq<bv8>>, ghost trace: seq<seq<bv8>>)
    requires forall op | op in ops :: op.Valid()
    ensures Run(ops, replies, trace)
    ensures ReadOnly(ops) ==> after == key
    ensures !ReadOnly(ops) ==> after == Some(trace[|ops|])
    ensures forall i: nat :: Bit(trace[0], i) == Bit(if key.Some? then key.value else [], i)
  {
    hide Bit;
    var s := if key.Some? then key.value else [];
    var readonly, highest := true, 0;
    for j := 0 to |ops|
      invariant readonly <==> forall i | 0 <= i < j :: ops[i].code.Get?
      invariant forall i | 0 <= i < j && !ops[i].code.Get? :: ops[i].offset + ops[i].bits - 1 <= highest
      invariant highest >= 0
    {
      if !ops[j].code.Get? {
        readonly := false;
        if highest < ops[j].offset + ops[j].bits - 1 { highest := ops[j].offset + ops[j].bits - 1; }
      }
    }
    var len := if readonly then |s| else highest / 8 + 1;
    GrowKeepsBits(s, len);
    var grown := GrowZero(s, len);
    var p := new bv8[|grown|](i requires 0 <= i < |grown| => grown[i]);
    assert p[..] == grown;
    replies, trace := [], [p[..]];
    for j := 0 to |ops|
      invariant fresh(p) && p.Length == |grown|
      invariant Run(ops[..j], replies, trace) && trace[j] == p[..] && trace[0] == grown
    {
      ghost var before := p[..];
      var reply;
      if ops[j].code.Get? {
        var val := ExecuteGet(p[..], ops[j]);
        reply := Some(val);
      } else {
        assert ops[j].offset + ops[j].bits - 1 <= highest;
        reply := ExecuteWrite(p, ops[j]);
      }
      Extend(ops, j, replies, trace, reply, p[..]);
      replies, trace := replies + [reply], trace + [p[..]];
    }
    assert ops[..|ops|] == ops;
    after := if readonly then key else Some(p[..]);
  }

  lemma Extend(ops: seq<Op>, j: nat, replies: seq<Option<int>>, trace: seq<seq<bv8>>, reply: Option<int>, t: seq<bv8>)
    requires j < |ops| && Run(ops[..j], replies, trace)
    requires ops[j].bits >= 1 && ops[j].Step(trace[j], reply, t)
    ensures Run(ops[..j + 1], replies + [reply], trace + [t])
  {
    var ops', replies', trace' := ops[..j + 1], replies + [reply], trace + [t];
    forall i | 0 <= i < j + 1
      ensures ops'[i].bits >= 1 && ops'[i].Step(trace'[i], replies'[i], trace'[i + 1])
    {
      if i < j { assert ops[..j][i] == ops'[i]; }
    }
  }

  /** A list made only of failing writes leaves the zero-padded contents as they were. */
  lemma {:induction false} FailuresKeepContents(ops: seq<Op>, replies: seq<Option<int>>, trace: seq<seq<bv8>>, n: nat)
    requires Run(ops, replies, trace) && n <= |ops|
    requires forall j | 0 <= j < |ops| :: ops[j].code.Get? || replies[j] == None
    ensures trace[n] == trace[0]
  {
    if n > 0 {
      FailuresKeepContents(ops, replies, trace, n - 1);
      assert ops[n - 1].Step(trace[n - 1], replies[n - 1], trace[n]);
    }
  }
}
