/** Eight bytes as one 64-bit word. */
module Words {

  /** The word whose bytes, from the most significant down, are the arguments. */
  function Pack(a: bv8, b: bv8, c: bv8, d: bv8, e: bv8, f: bv8, g: bv8, h: bv8): bv64 {
    (a as bv64 << 56) | (b as bv64 << 48) | (c as bv64 << 40) | (d as bv64 << 32)
    | (e as bv64 << 24) | (f as bv64 << 16) | (g as bv64 << 8) | h as bv64
  }

  /** Byte `k` of a word, counted from the most significant. */
  function ByteOf(w: bv64, k: nat): bv8
    requires k < 8
  {
    if k == 0 then ((w >> 56) & 0xff) as bv8 else
    if k == 1 then ((w >> 48) & 0xff) as bv8 else
    if k == 2 then ((w >> 40) & 0xff) as bv8 else
    if k == 3 then ((w >> 32) & 0xff) as bv8 else
    if k == 4 then ((w >> 24) & 0xff) as bv8 else
    if k == 5 then ((w >> 16) & 0xff) as bv8 else
    if k == 6 then ((w >> 8) & 0xff) as bv8 else
    ((w) & 0xff) as bv8
  }

  lemma ByteOfPack(a: bv8, b: bv8, c: bv8, d: bv8, e: bv8, f: bv8, g: bv8, h: bv8)
    ensures var w := Pack(a, b, c, d, e, f, g, h);
      ByteOf(w, 0) == a && ByteOf(w, 1) == b && ByteOf(w, 2) == c && ByteOf(w, 3) == d
      && ByteOf(w, 4) == e && ByteOf(w, 5) == f && ByteOf(w, 6) == g && ByteOf(w, 7) == h
  {
  }

  /** The word with its bytes moved up by one, the first one last. */
  function Rot(w: bv64): bv64 { (w << 8) | (w >> 56) }

  lemma NextByte(w: bv64, k: nat)
    requires 0 < k < 8
    ensures ByteOf(w, k) == ByteOf(Rot(w), k - 1)
  {
  }
}
