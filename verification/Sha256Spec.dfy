/**
 SHA-256 as FIPS 180-4 defines it: the functions of section 4.1.2, the constants of section 4.2.2, the padding of
 section 5.1.1, the initial value of section 5.3.3 and the computation of section 6.2.2.
 Messages are byte sequences; a word is 32 bits and its addition wraps around.
 */
module Sha256Spec {
  type Word = bv32
  type Byte = bv8
  type Block = b: seq<Byte> | |b| == 64 witness seq(64, _ => 0)
  type Hash = h: seq<Word> | |h| == 8 witness seq(8, _ => 0)

  /** Addition modulo 2^32. */
  function Plus(x: Word, y: Word): Word {
    x + y
  }

  function Rotr(x: Word, n: bv6): Word
    requires 0 < n < 32
  {
    (x >> n) | (x << (32 - n))
  }

  function Sum0(x: Word): Word {
    Rotr(x, 2) ^ Rotr(x, 13) ^ Rotr(x, 22)
  }

  function Sum1(x: Word): Word {
    Rotr(x, 6) ^ Rotr(x, 11) ^ Rotr(x, 25)
  }

  function Sigma0(x: Word): Word {
    Rotr(x, 7) ^ Rotr(x, 18) ^ (x >> 3)
  }

  function Sigma1(x: Word): Word {
    Rotr(x, 17) ^ Rotr(x, 19) ^ (x >> 10)
  }

  function Ch(x: Word, y: Word, z: Word): Word {
    (x & y) ^ (!x & z)
  }

  function Maj(x: Word, y: Word, z: Word): Word {
    (x & y) ^ (x & z) ^ (y & z)
  }

  /** What is shifted out on the right comes in on the left. */
  lemma RotrRotates(x: Word, n: bv6)
    requires 0 < n < 32
    ensures Rotr(x, n) << n == x & (0xFFFF_FFFF << n) && Rotr(x, n) >> (32 - n) == x & !(0xFFFF_FFFF << n)
  {
  }

  /** Where the first word has a one the second is chosen, elsewhere the third. */
  lemma ChChooses(x: Word, y: Word, z: Word)
    ensures Ch(x, y, z) & x == y & x && Ch(x, y, z) & !x == z & !x
  {
  }

  /** A one where at least two of the words have one. */
  lemma MajIsMajority(x: Word, y: Word, z: Word)
    ensures Maj(x, y, z) == (x & y) | (x & z) | (y & z)
  {
  }

  const K: seq<Word> :=
    [0x428a2f98, 0x71374491, 0xb5c0fbcf, 0xe9b5dba5, 0x3956c25b, 0x59f111f1, 0x923f82a4, 0xab1c5ed5] +
    [0xd807aa98, 0x12835b01, 0x243185be, 0x550c7dc3, 0x72be5d74, 0x80deb1fe, 0x9bdc06a7, 0xc19bf174] +
    [0xe49b69c1, 0xefbe4786, 0x0fc19dc6, 0x240ca1cc, 0x2de92c6f, 0x4a7484aa, 0x5cb0a9dc, 0x76f988da] +
    [0x983e5152, 0xa831c66d, 0xb00327c8, 0xbf597fc7, 0xc6e00bf3, 0xd5a79147, 0x06ca6351, 0x14292967] +
    [0x27b70a85, 0x2e1b2138, 0x4d2c6dfc, 0x53380d13, 0x650a7354, 0x766a0abb, 0x81c2c92e, 0x92722c85] +
    [0xa2bfe8a1, 0xa81a664b, 0xc24b8b70, 0xc76c51a3, 0xd192e819, 0xd6990624, 0xf40e3585, 0x106aa070] +
    [0x19a4c116, 0x1e376c08, 0x2748774c, 0x34b0bcb5, 0x391c0cb3, 0x4ed8aa4a, 0x5b9cca4f, 0x682e6ff3] +
    [0x748f82ee, 0x78a5636f, 0x84c87814, 0x8cc70208, 0x90befffa, 0xa4506ceb, 0xbef9a3f7, 0xc67178f2]

  type Constants = k: seq<Word> | |k| == 64 witness seq(64, _ => 0)

  const INITIAL: seq<Word> := [
    0x6a09e667, 0xbb67ae85, 0x3c6ef372, 0xa54ff53a, 0x510e527f, 0x9b05688c, 0x1f83d9ab, 0x5be0cd19
  ]

  /** Four bytes, most significant first. */
  function WordOf(b0: Byte, b1: Byte, b2: Byte, b3: Byte): Word {
    ((b0 as Word) << 24) | ((b1 as Word) << 16) | ((b2 as Word) << 8) | (b3 as Word)
  }

  function Sum(a: Word, b: Word, c: Word, d: Word): Word {
    a + b + c + d
  }

  lemma SumReversed(a: Word, b: Word, c: Word, d: Word)
    ensures Sum(a, b, c, d) == Sum(d, c, b, a)
  {
  }

  function Expand(w16: Word, w15: Word, w7: Word, w2: Word): Word {
    Sum(Sigma1(w2), w7, Sigma0(w15), w16)
  }

  /** Word `t` of the message schedule. */
  ghost function Schedule(block: Block, t: nat): Word {
    if t < 16 then WordOf(block[4 * t], block[4 * t + 1], block[4 * t + 2], block[4 * t + 3])
    else Expand(Schedule(block, t - 16), Schedule(block, t - 15), Schedule(block, t - 7), Schedule(block, t - 2))
  }

  /** The eight working variables. */
  datatype Vars = Vars(a: Word, b: Word, c: Word, d: Word, e: Word, f: Word, g: Word, h: Word)

  function Round(v: Vars, k: Word, w: Word): Vars {
    var t1 := Plus(Plus(Plus(Plus(v.h, Sum1(v.e)), Ch(v.e, v.f, v.g)), k), w);
    var t2 := Plus(Sum0(v.a), Maj(v.a, v.b, v.c));
    Vars(Plus(t1, t2), v.a, v.b, v.c, Plus(v.d, t1), v.e, v.f, v.g)
  }

  /** The working variables after `t` rounds. */
  ghost function Rounds(k: Constants, start: Vars, block: Block, t: nat): Vars
    requires t <= 64
  {
    if t == 0 then start else Round(Rounds(k, start, block, t - 1), k[t - 1], Schedule(block, t - 1))
  }

  ghost function AllRounds(k: Constants, start: Vars, block: Block): Vars {
    Rounds(k, start, block, |k|)
  }

  function VarsOf(h: Hash): Vars {
    Vars(h[0], h[1], h[2], h[3], h[4], h[5], h[6], h[7])
  }

  function AddVars(h: Hash, v: Vars): Hash {
    [Plus(h[0], v.a), Plus(h[1], v.b), Plus(h[2], v.c), Plus(h[3], v.d),
     Plus(h[4], v.e), Plus(h[5], v.f), Plus(h[6], v.g), Plus(h[7], v.h)]
  }

  /** The next intermediate hash value. */
  ghost function Compress(h: Hash, block: Block): Hash {
    AddVars(h, AllRounds(K, VarsOf(h), block))
  }

  /** The compression function folded over the blocks of a message that fills them exactly. */
  ghost function FoldBlocks(h: Hash, message: seq<Byte>): Hash
    requires |message| % 64 == 0
    decreases |message|
  {
    if message == [] then h else FoldBlocks(Compress(h, message[..64]), message[64..])
  }

  predicate LengthFits(n: nat, z: nat) {
    (n + 1 + z) % 64 == 56
  }

  /** The smallest number of zero bytes after the byte 0x80 that leaves room for the length. */
  function ZeroCount(n: nat): (z: nat)
    ensures z < 64 && LengthFits(n, z)
    ensures forall y :: 0 <= y < z ==> !LengthFits(n, y)
  {
    var r := n % 64;
    if r < 56 then 55 - r else 119 - r
  }

  /** The last `count` digits in base 256, most significant first. */
  function Base256(x: nat, count: nat): (s: seq<nat>)
    ensures |s| == count && forall i :: 0 <= i < count ==> s[i] < 256
  {
    if count == 0 then [] else Base256(x / 256, count - 1) + [x % 256]
  }

  function ValueOf(digits: seq<nat>): nat {
    if digits == [] then 0 else ValueOf(digits[..|digits| - 1]) * 256 + digits[|digits| - 1]
  }

  function Pow256(k: nat): nat {
    if k == 0 then 1 else 256 * Pow256(k - 1)
  }

  lemma {:induction false} Base256Value(x: nat, count: nat)
    requires x < Pow256(count)
    ensures ValueOf(Base256(x, count)) == x
  {
    if count > 0 {
      var s := Base256(x, count);
      Base256Value(x / 256, count - 1);
      assert s[..count - 1] == Base256(x / 256, count - 1) && s[count - 1] == x % 256;
    }
  }

  /** A number as `count` bytes, most significant first. */
  function BigEndian(x: nat, count: nat): (s: seq<Byte>)
    ensures |s| == count
  {
    var d := Base256(x, count);
    seq(count, i requires 0 <= i < count => d[i] as Byte)
  }

  function Zeros(z: nat): seq<Byte> {
    seq(z, _ => 0)
  }

  /** A one bit and zero bits: the byte 0x80 and `z` zero bytes. */
  function PadFront(z: nat): seq<Byte> {
    [0x80] + Zeros(z)
  }

  /** What follows `n` message bytes, with a given bit length. */
  function Padding(n: nat, bits: nat): (p: seq<Byte>)
    ensures (n + |p|) % 64 == 0
  {
    PadFront(ZeroCount(n)) + BigEndian(bits, 8)
  }

  /** The padded message of section 5.1.1; the length in bits must fit 64 bits. */
  function Pad(message: seq<Byte>): (p: seq<Byte>)
    ensures |p| % 64 == 0
  {
    message + Padding(|message|, 8 * |message|)
  }

  /** The bytes of a word, most significant first. */
  function WordBytes(w: Word): (s: seq<Byte>)
    ensures |s| == 4
  {
    [((w >> 24) & 0xFF) as Byte, ((w >> 16) & 0xFF) as Byte, ((w >> 8) & 0xFF) as Byte, (w & 0xFF) as Byte]
  }

  lemma WordBytesUndone(w: Word)
    ensures var b := WordBytes(w); WordOf(b[0], b[1], b[2], b[3]) == w
  {
    SplitWord(w);
  }

  lemma SplitWord(w: Word)
    ensures (((w >> 24) & 0xFF) << 24) | (((w >> 16) & 0xFF) << 16) | (((w >> 8) & 0xFF) << 8) | (w & 0xFF) == w
  {
  }

  /** The bytes of a hash value. */
  function Bytes(h: seq<Word>): (s: seq<Byte>)
    ensures |s| == 4 * |h|
  {
    if h == [] then [] else Bytes(h[..|h| - 1]) + WordBytes(h[|h| - 1])
  }

  ghost function Digest(message: seq<Byte>): seq<Byte> {
    Bytes(FoldBlocks(INITIAL, Pad(message)))
  }

  function HexDigit(d: Byte): char
    requires d < 16
  {
    "0123456789abcdef"[d as nat]
  }

  function HexByte(b: Byte): (t: string)
    ensures |t| == 2
  {
    [HexDigit(b >> 4), HexDigit(b & 0xF)]
  }

  function Hex(s: seq<Byte>): (t: string)
    ensures |t| == 2 * |s|
  {
    if s == [] then "" else Hex(s[..|s| - 1]) + HexByte(s[|s| - 1])
  }

  // Reading hexadecimal text

  predicate IsLowerHex(c: char) {
    '0' <= c <= '9' || 'a' <= c <= 'f'
  }

  ghost predicate LowerHex(t: string) {
    |t| % 2 == 0 && forall i :: 0 <= i < |t| ==> IsLowerHex(t[i])
  }

  function DigitValue(c: char): (v: nat)
    requires IsLowerHex(c)
    ensures v < 16
  {
    if c <= '9' then c as int - '0' as int else c as int - 'a' as int + 10
  }

  /** The bytes a text spells, two digits each, the first with weight 16. */
  ghost function Unhex(t: string): (s: seq<Byte>)
    requires LowerHex(t)
    ensures |s| == |t| / 2
  {
    if t == "" then []
    else
      var n := |t| - 2;
      Unhex(t[..n]) + [(16 * DigitValue(t[n]) + DigitValue(t[n + 1])) as Byte]
  }

  lemma HexDigitValue(d: Byte)
    requires d < 16
    ensures IsLowerHex(HexDigit(d)) && DigitValue(HexDigit(d)) == d as nat
  {
    var n := d as nat;
    assert "0123456789abcdef"[n] == if n < 10 then ('0' as int + n) as char else ('a' as int + n - 10) as char;
  }

  lemma Nibbles(b: Byte)
    ensures b >> 4 < 16 && b & 0xF < 16
    ensures 16 * (b >> 4) as nat + (b & 0xF) as nat == b as nat
  {
  }

  lemma HexByteValue(b: Byte)
    ensures var t := HexByte(b);
            && IsLowerHex(t[0]) && IsLowerHex(t[1])
            && 16 * DigitValue(t[0]) + DigitValue(t[1]) == b as nat
  {
    Nibbles(b);
    HexDigitValue(b >> 4);
    HexDigitValue(b & 0xF);
  }

  /** Reading the hexadecimal text of bytes gives the bytes back. */
  lemma {:induction false} UnhexUndoesHex(s: seq<Byte>)
    ensures LowerHex(Hex(s)) && Unhex(Hex(s)) == s
  {
    if s != [] {
      var n := |s| - 1;
      UnhexUndoesHex(s[..n]);
      UnhexOneMore(Hex(s[..n]), s[n]);
      assert s == s[..n] + [s[n]];
    }
  }

  lemma UnhexOneMore(t: string, b: Byte)
    requires LowerHex(t)
    ensures LowerHex(t + HexByte(b)) && Unhex(t + HexByte(b)) == Unhex(t) + [b]
  {
    HexByteValue(b);
    UnhexSnoc(t, HexByte(b), b);
  }

  lemma UnhexSnoc(t: string, u: string, b: Byte)
    requires LowerHex(t) && LowerHex(u) && |u| == 2 && 16 * DigitValue(u[0]) + DigitValue(u[1]) == b as nat
    ensures LowerHex(t + u) && Unhex(t + u) == Unhex(t) + [b]
  {
    assert (t + u)[..|t|] == t && (t + u)[|t|] == u[0] && (t + u)[|t| + 1] == u[1];
  }
}
