/** The bit ranges accepted by BITCOUNT and BITPOS and their common normalisation
    to a byte range with edge masks (bitops.c). */
module BitRange {
  datatype Unit = ByteUnit | BitUnit

  /** The whole string, an open byte range, or a range with both ends given. */
  datatype Range = Whole | From(start: int) | Between(start: int, end: int, unit: Unit)

  /** Negative indexes count from the end of `total` elements; those that still
      fall before the first element mean the first element. */
  function Clamp(i: int, total: nat): nat {
    if i >= 0 then i else if total + i >= 0 then total + i else 0
  }

  /** The first bit of the range in a string of `len` bytes. */
  ghost function FirstBit(r: Range, len: nat): nat {
    match r
    case Whole => 0
    case From(start) => 8 * Clamp(start, len)
    case Between(start, _, ByteUnit) => 8 * Clamp(start, len)
    case Between(start, _, BitUnit) => Clamp(start, 8 * len)
  }

  /** One past the last bit of the range; never past the end of the string. */
  ghost function LimitBit(r: Range, len: nat): nat {
    match r
    case Whole => 8 * len
    case From(_) => 8 * len
    case Between(_, end, ByteUnit) => if Clamp(end, len) >= len then 8 * len else 8 * (Clamp(end, len) + 1)
    case Between(_, end, BitUnit) => if Clamp(end, 8 * len) >= 8 * len then 8 * len else Clamp(end, 8 * len) + 1
  }

  /** A range whose ends are both negative and out of order is empty even though
      clamping could map both of them to the first element. */
  ghost predicate Reversed(r: Range) {
    r.Between? && r.start < 0 && r.end < 0 && r.start > r.end
  }

  /** `~((1 << (8 - k)) - 1) & 0xFF`: the first `k` bits of a byte. */
  function FirstNegMask(k: nat): bv8
    requires k < 8
  {
    if k == 0 then 0x00 else if k == 1 then 0x80 else if k == 2 then 0xC0 else if k == 3 then 0xE0
    else if k == 4 then 0xF0 else if k == 5 then 0xF8 else if k == 6 then 0xFC else 0xFE
  }

  /** `(1 << (7 - k)) - 1`: the bits after bit `k` of a byte. */
  function LastNegMask(k: nat): bv8
    requires k < 8
  {
    if k == 0 then 0x7F else if k == 1 then 0x3F else if k == 2 then 0x1F else if k == 3 then 0x0F
    else if k == 4 then 0x07 else if k == 5 then 0x03 else if k == 6 then 0x01 else 0x00
  }

  /** Convert negative indexes, clamp, and turn bit offsets into byte offsets with
      masks for the bits of the edge bytes that lie outside the range. */
  method Normalize(r: Range, len: nat) returns (start: int, end: int, first: bv8, last: bv8)
    ensures start <= end <==> FirstBit(r, len) < LimitBit(r, len)
    ensures LimitBit(r, len) <= 8 * len
    ensures start <= end ==> start == FirstBit(r, len) / 8 && end == (LimitBit(r, len) - 1) / 8
    ensures start <= end ==> first == FirstNegMask(FirstBit(r, len) % 8)
    ensures start <= end ==> last == LastNegMask((LimitBit(r, len) - 1) % 8)
  {
    NoMask();
    hide FirstNegMask, LastNegMask;
    first, last := 0, 0;
    start, end := 0, len - 1;
    if !r.Whole? {
      var totlen, isbit := len, false;
      start := r.start;
      if r.Between? { end, isbit := r.end, r.unit.BitUnit?; }
      if isbit { totlen := totlen * 8; }
      if start < 0 { start := totlen + start; }
      if end < 0 { end := totlen + end; }
      if start < 0 { start := 0; }
      if end < 0 { end := 0; }
      if end >= totlen { end := totlen - 1; }
      if isbit && start <= end {
        first, last := FirstNegMask(start % 8), LastNegMask(end % 8);
        start, end := start / 8, end / 8;
        return;
      }
    }
    if start <= end {
      ByteEdges(start);
      ByteEdges(end);
    }
  }

  lemma NoMask()
    ensures FirstNegMask(0) == 0 && LastNegMask(7) == 0
  {
  }

  lemma ByteEdges(j: nat)
    ensures (8 * j) / 8 == j && (8 * j) % 8 == 0
    ensures (8 * (j + 1) - 1) / 8 == j && (8 * (j + 1) - 1) % 8 == 7
  {
  }
}
