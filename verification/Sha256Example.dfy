/**
 The example "abc" of FIPS 180-4, worked through the specification: it gives the published hash value. So the shift
 distances, the constants and the order of bytes and words in the specification are the right ones.
 */
module Sha256Example {
  import opened Sha256Spec

  /** Sixteen successive words of the message schedule. */
  datatype Window = Window(w0: Word, w1: Word, w2: Word, w3: Word, w4: Word, w5: Word, w6: Word, w7: Word,
                           w8: Word, w9: Word, w10: Word, w11: Word, w12: Word, w13: Word, w14: Word, w15: Word)

  /** Working variables, and the words for the next rounds. */
  datatype Machine = Machine(v: Vars, ws: Window)

  function Slide(ws: Window): Window {
    Window(ws.w1, ws.w2, ws.w3, ws.w4, ws.w5, ws.w6, ws.w7, ws.w8,
           ws.w9, ws.w10, ws.w11, ws.w12, ws.w13, ws.w14, ws.w15, Expand(ws.w0, ws.w1, ws.w9, ws.w14))
  }

  /** One round for each constant. */
  function Run(m: Machine, ks: seq<Word>): Machine
    decreases |ks|
  {
    if ks == [] then m else Run(Machine(Round(m.v, ks[0], m.ws.w0), Slide(m.ws)), ks[1..])
  }

  ghost predicate Scheduled(block: Block, t: nat, ws: Window) {
    && Schedule(block, t) == ws.w0 && Schedule(block, t + 1) == ws.w1
    && Schedule(block, t + 2) == ws.w2 && Schedule(block, t + 3) == ws.w3
    && Schedule(block, t + 4) == ws.w4 && Schedule(block, t + 5) == ws.w5
    && Schedule(block, t + 6) == ws.w6 && Schedule(block, t + 7) == ws.w7
    && Schedule(block, t + 8) == ws.w8 && Schedule(block, t + 9) == ws.w9
    && Schedule(block, t + 10) == ws.w10 && Schedule(block, t + 11) == ws.w11
    && Schedule(block, t + 12) == ws.w12 && Schedule(block, t + 13) == ws.w13
    && Schedule(block, t + 14) == ws.w14 && Schedule(block, t + 15) == ws.w15
  }

  lemma NextWord(block: Block, t: nat, ws: Window)
    requires Scheduled(block, t, ws)
    ensures Scheduled(block, t + 1, Slide(ws))
  {
  }

  /** The machine computes the rounds of the specification. */
  lemma {:induction false} RunIsRounds(k: Constants, start: Vars, block: Block, t: nat, ws: Window)
    requires t <= 64 && Scheduled(block, t, ws)
    ensures Run(Machine(Rounds(k, start, block, t), ws), k[t..]).v == AllRounds(k, start, block)
    decreases 64 - t
  {
    if t < 64 {
      NextWord(block, t, ws);
      assert k[t..][0] == k[t] && k[t..][1..] == k[t + 1..];
      RunIsRounds(k, start, block, t + 1, Slide(ws));
    }
  }

  lemma {:induction false} RunAppend(m: Machine, ks: seq<Word>, ls: seq<Word>)
    ensures Run(m, ks + ls) == Run(Run(m, ks), ls)
    decreases |ks|
  {
    if ks == [] {
      assert ks + ls == ls;
    } else {
      assert (ks + ls)[1..] == ks[1..] + ls;
      RunAppend(Machine(Round(m.v, ks[0], m.ws.w0), Slide(m.ws)), ks[1..], ls);
    }
  }

  // The example

  const ABC: seq<Byte> := [0x61, 0x62, 0x63]

  // The machine before the first round and after every eight rounds

  const M0 := Machine(
    Vars(0x6a09e667, 0xbb67ae85, 0x3c6ef372, 0xa54ff53a, 0x510e527f, 0x9b05688c, 0x1f83d9ab, 0x5be0cd19),
    Window(0x61626380, 0x00000000, 0x00000000, 0x00000000, 0x00000000, 0x00000000, 0x00000000, 0x00000000,
           0x00000000, 0x00000000, 0x00000000, 0x00000000, 0x00000000, 0x00000000, 0x00000000, 0x00000018))
  const M8 := Machine(
    Vars(0x85a07b5f, 0xe5030380, 0x2b4209f5, 0x04409a6a, 0x0c657a79, 0x9b27a401, 0x714260ad, 0x43ada245),
    Window(0x00000000, 0x00000000, 0x00000000, 0x00000000, 0x00000000, 0x00000000, 0x00000000, 0x00000018,
           0x61626380, 0x000f0000, 0x7da86405, 0x600003c6, 0x3e9d7b78, 0x0183fc00, 0x12dcbfdb, 0xe2e2c38e))
  const M16 := Machine(
    Vars(0xb0fa238e, 0xc0645fde, 0xd932eb16, 0x87912990, 0x07590dcd, 0x0b92f20c, 0x745a48de, 0x1e578218),
    Window(0x61626380, 0x000f0000, 0x7da86405, 0x600003c6, 0x3e9d7b78, 0x0183fc00, 0x12dcbfdb, 0xe2e2c38e,
           0xc8215c1a, 0xb73679a2, 0xe5bc3909, 0x32663c5b, 0x9d209d67, 0xec8726cb, 0x702138a4, 0xd3b7973b))
  const M24 := Machine(
    Vars(0xc5d53d8d, 0xa7a3623f, 0xc2606d6d, 0x9dc68b63, 0xaa47c347, 0x49f5114a, 0xe1257970, 0x8ada8930),
    Window(0xc8215c1a, 0xb73679a2, 0xe5bc3909, 0x32663c5b, 0x9d209d67, 0xec8726cb, 0x702138a4, 0xd3b7973b,
           0x93f5997f, 0x3b68ba73, 0xaff4ffc1, 0xf10a5c62, 0x0a8b3996, 0x72af830a, 0x9409e33e, 0x24641522))
  const M32 := Machine(
    Vars(0x73b33bf5, 0xea992a22, 0xa0060b30, 0x363482c9, 0xba591112, 0x0109ab3a, 0xade79437, 0x6112a3b7),
    Window(0x93f5997f, 0x3b68ba73, 0xaff4ffc1, 0xf10a5c62, 0x0a8b3996, 0x72af830a, 0x9409e33e, 0x24641522,
           0x9f47bf94, 0xf0a64f5a, 0x3e246a79, 0x27333ba3, 0x0c4763f2, 0x840abf27, 0x7a290d5d, 0x065c43da))
  const M40 := Machine(
    Vars(0x79ea687a, 0x6dc57a8a, 0x34df1604, 0x41a65cb1, 0x1efbc0a0, 0xf0781bc8, 0xa507a53d, 0x0772a26b),
    Window(0x9f47bf94, 0xf0a64f5a, 0x3e246a79, 0x27333ba3, 0x0c4763f2, 0x840abf27, 0x7a290d5d, 0x065c43da,
           0xfb3e89cb, 0xcc7617db, 0xb9e66c34, 0xa9993667, 0x84badedd, 0xc21462bc, 0x1487472c, 0xb20f7a99))
  const M48 := Machine(
    Vars(0x4172328d, 0xa14c14b0, 0x72ab4b91, 0x26628815, 0xfecf0bc6, 0xd57b94a9, 0xb7755da1, 0xa80f11f0),
    Window(0xfb3e89cb, 0xcc7617db, 0xb9e66c34, 0xa9993667, 0x84badedd, 0xc21462bc, 0x1487472c, 0xb20f7a99,
           0xef57b9cd, 0xebe6b238, 0x9fe3095e, 0x78bc8d4b, 0xa43fcf15, 0x668b2ff8, 0xeeaba2cc, 0x12b1edeb))
  const M56 := Machine(
    Vars(0x38cc9913, 0x3ec45cdb, 0xf5702fdb, 0x101fd28f, 0x54cb266b, 0xe50e1b4f, 0x9f4787c3, 0x529e7d00),
    Window(0xef57b9cd, 0xebe6b238, 0x9fe3095e, 0x78bc8d4b, 0xa43fcf15, 0x668b2ff8, 0xeeaba2cc, 0x12b1edeb,
           0xb80a5a34, 0x1ce797d5, 0x310fc1d7, 0xa31968ce, 0x7d8ce042, 0xd5892c87, 0x0ef2e48b, 0x86476aaa))
  const M64 := Machine(
    Vars(0x506e3058, 0xd39a2165, 0x04d24d6c, 0xb85e2ce9, 0x5ef50f24, 0xfb121210, 0x948d25b6, 0x961f4894),
    Window(0xb80a5a34, 0x1ce797d5, 0x310fc1d7, 0xa31968ce, 0x7d8ce042, 0xd5892c87, 0x0ef2e48b, 0x86476aaa,
           0xfb3bcd9a, 0xe1abf701, 0x9cf194d1, 0x47ad031d, 0xaa812721, 0x04360d9c, 0xdb5ae899, 0xbe66bc93))

  // The round constants, eight at a time

  const K0: seq<Word> :=
    [0x428a2f98, 0x71374491, 0xb5c0fbcf, 0xe9b5dba5, 0x3956c25b, 0x59f111f1, 0x923f82a4, 0xab1c5ed5]
  const K8: seq<Word> :=
    [0xd807aa98, 0x12835b01, 0x243185be, 0x550c7dc3, 0x72be5d74, 0x80deb1fe, 0x9bdc06a7, 0xc19bf174]
  const K16: seq<Word> :=
    [0xe49b69c1, 0xefbe4786, 0x0fc19dc6, 0x240ca1cc, 0x2de92c6f, 0x4a7484aa, 0x5cb0a9dc, 0x76f988da]
  const K24: seq<Word> :=
    [0x983e5152, 0xa831c66d, 0xb00327c8, 0xbf597fc7, 0xc6e00bf3, 0xd5a79147, 0x06ca6351, 0x14292967]
  const K32: seq<Word> :=
    [0x27b70a85, 0x2e1b2138, 0x4d2c6dfc, 0x53380d13, 0x650a7354, 0x766a0abb, 0x81c2c92e, 0x92722c85]
  const K40: seq<Word> :=
    [0xa2bfe8a1, 0xa81a664b, 0xc24b8b70, 0xc76c51a3, 0xd192e819, 0xd6990624, 0xf40e3585, 0x106aa070]
  const K48: seq<Word> :=
    [0x19a4c116, 0x1e376c08, 0x2748774c, 0x34b0bcb5, 0x391c0cb3, 0x4ed8aa4a, 0x5b9cca4f, 0x682e6ff3]
  const K56: seq<Word> :=
    [0x748f82ee, 0x78a5636f, 0x84c87814, 0x8cc70208, 0x90befffa, 0xa4506ceb, 0xbef9a3f7, 0xc67178f2]

  lemma Run0()
    ensures Run(M0, K0) == M8
  {
  }

  lemma Run8()
    ensures Run(M8, K8) == M16
  {
  }

  lemma Run16()
    ensures Run(M16, K16) == M24
  {
  }

  lemma Run24()
    ensures Run(M24, K24) == M32
  {
  }

  lemma Run32()
    ensures Run(M32, K32) == M40
  {
  }

  lemma Run40()
    ensures Run(M40, K40) == M48
  {
  }

  lemma Run48()
    ensures Run(M48, K48) == M56
  {
  }

  lemma Run56()
    ensures Run(M56, K56) == M64
  {
  }

  lemma RunAll()
    ensures Run(M0, K) == M64
  {
    Run0();
    Run8();
    Run16();
    Run24();
    Run32();
    Run40();
    Run48();
    Run56();
    RunAppend(M0, K0, K8);
    RunAppend(M0, K0 + K8, K16);
    RunAppend(M0, K0 + K8 + K16, K24);
    RunAppend(M0, K0 + K8 + K16 + K24, K32);
    RunAppend(M0, K0 + K8 + K16 + K24 + K32, K40);
    RunAppend(M0, K0 + K8 + K16 + K24 + K32 + K40, K48);
    RunAppend(M0, K0 + K8 + K16 + K24 + K32 + K40 + K48, K56);
    assert K == K0 + K8 + K16 + K24 + K32 + K40 + K48 + K56;
  }

  /** The padded message is one block: the message, a one bit, zeros, and the length of 24 bits. */
  lemma OnlyBlock()
    ensures Pad(ABC) == ABC + [0x80] + Zeros(59) + [0x18]
  {
    assert ZeroCount(3) == 52;
    SmallNumber(24, 8);
    assert BigEndian(24, 8) == Zeros(7) + [0x18];
  }

  lemma {:induction false} SmallNumber(x: nat, count: nat)
    requires x < 256 && count > 0
    ensures var d := Base256(x, count); d[count - 1] == x && forall i :: 0 <= i < count - 1 ==> d[i] == 0
  {
    if count > 1 {
      SmallNumber(0, count - 1);
    }
  }

  lemma FirstWords(block: Block)
    requires block == ABC + [0x80] + Zeros(59) + [0x18]
    ensures Scheduled(block, 0, M0.ws)
  {
    forall i | 0 < i < 15 ensures Schedule(block, i) == 0 {
      assert block[4 * i] == block[4 * i + 1] == block[4 * i + 2] == block[4 * i + 3] == 0;
    }
    assert block[60] == block[61] == block[62] == 0 && block[63] == 0x18;
  }

  /** The published hash value of "abc". */
  lemma DigestOfAbc()
    ensures FoldBlocks(INITIAL, Pad(ABC))
         == [0xba7816bf, 0x8f01cfea, 0x414140de, 0x5dae2223, 0xb00361a3, 0x96177a9c, 0xb410ff61, 0xf20015ad]
  {
    var block: Block := Pad(ABC);
    OnlyBlock();
    FirstWords(block);
    RunAll();
    RunIsRounds(K, M0.v, block, 0, M0.ws);
    assert K[0..] == K && VarsOf(INITIAL) == M0.v;
    assert block[..64] == block && block[64..] == [];
  }
}
