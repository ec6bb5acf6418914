/**
 The streaming implementation: a hash state with a 64-byte buffer, updated in place.
 */
module Sha256 {
  import opened Sha256Spec
  import opened Uint64

  // The state as a value

  /** What a state holds: the hash so far, the bytes waiting in the buffer, and the byte count modulo 2^64. */
  datatype Snapshot = Snapshot(h: seq<Word>, pending: seq<Byte>, total: nat)

  /** Blocks are folded in as long as there are any; the rest stays. */
  ghost function Drain(h: Hash, bytes: seq<Byte>): (r: (Hash, seq<Byte>))
    ensures |r.1| < 64
    decreases |bytes|
  {
    if |bytes| < 64 then (h, bytes) else Drain(Compress(h, bytes[..64]), bytes[64..])
  }

  ghost predicate Proper(s: Snapshot) {
    |s.h| == 8 && |s.pending| < 64 && s.total < TWO_64
  }

  /** The effect of `update`. */
  ghost function Absorb(s: Snapshot, data: seq<Byte>): (r: Snapshot)
    requires Proper(s)
    ensures Proper(r)
  {
    var drained := Drain(s.h, s.pending + data);
    Snapshot(drained.0, drained.1, Wrap(s.total + |data|))
  }

  const TWO_61 := 0x2000_0000_0000_0000

  const EMPTY: Snapshot := Snapshot(INITIAL, [], 0)

  class State {
    const h: array<Word>
    const buf: array<Byte>
    var total: nat
    var buflen: nat

    ghost predicate Valid()
      reads this, h, buf
    {
      h.Length == 8 && buf.Length == 64 && buflen < 64 && total < TWO_64
    }

    ghost function Abs(): (s: Snapshot)
      requires Valid()
      reads this, h, buf
      ensures Proper(s)
    {
      Snapshot(h[..], buf[..buflen], total)
    }

    constructor ()
      ensures Valid() && fresh(h) && fresh(buf) && Abs() == EMPTY
    {
      h := new Word[8](i requires 0 <= i < 8 => INITIAL[i]);
      buf := new Byte[64];
      total, buflen := 0, 0;
      new;
      assert h[..] == INITIAL;
    }

    /** The first 16 words of the message schedule. */
    method LoadBlock(p: Block, w: array<Word>)
      requires w.Length == 64
      modifies w
      ensures forall t :: 0 <= t < 16 ==> w[t] == Schedule(p, t)
    {
      for i := 0 to 16
        invariant forall t :: 0 <= t < i ==> w[t] == Schedule(p, t)
      {
        w[i] := WordOf(p[4 * i], p[4 * i + 1], p[4 * i + 2], p[4 * i + 3]);
      }
    }

    /** The message schedule, filled in place. */
    method FillSchedule(p: Block, w: array<Word>)
      requires w.Length == 64
      modifies w
      ensures forall t :: 0 <= t < 64 ==> w[t] == Schedule(p, t)
    {
      LoadBlock(p, w);
      for i := 16 to 64
        invariant forall t :: 0 <= t < i ==> w[t] == Schedule(p, t)
      {
        var s0 := Sigma0(w[i - 15]);
        var s1 := Sigma1(w[i - 2]);
        SumReversed(w[i - 16], s0, w[i - 7], s1);
        w[i] := Sum(w[i - 16], s0, w[i - 7], s1);
      }
    }

    /** One block, with rolling working variables. */
    method Process(p: Block)
      requires h.Length == 8
      modifies h
      ensures h[..] == Compress(old(h[..]), p)
    {
      var w := new Word[64];
      FillSchedule(p, w);
      var v := Roll(K, p, w, VarsOf(h[..]));
      AddTo(v);
    }

    method Roll(k: Constants, ghost p: Block, w: array<Word>, start: Vars) returns (v: Vars)
      requires w.Length == 64 && forall t :: 0 <= t < 64 ==> w[t] == Schedule(p, t)
      ensures v == AllRounds(k, start, p)
    {
      var a, b, c, d := start.a, start.b, start.c, start.d;
      var e, f, g, h := start.e, start.f, start.g, start.h;
      for i := 0 to 64
        invariant Vars(a, b, c, d, e, f, g, h) == Rounds(k, start, p, i)
      {
        var t1 := Plus(Plus(Plus(Plus(h, Sum1(e)), Ch(e, f, g)), k[i]), w[i]);
        var t2 := Plus(Sum0(a), Maj(a, b, c));
        h := g;
        g := f;
        f := e;
        e := Plus(d, t1);
        d := c;
        c := b;
        b := a;
        a := Plus(t1, t2);
      }
      v := Vars(a, b, c, d, e, f, g, h);
    }

    method AddTo(v: Vars)
      requires h.Length == 8
      modifies h
      ensures h[..] == AddVars(old(h[..]), v)
    {
      AddWord(0, v.a);
      AddWord(1, v.b);
      AddWord(2, v.c);
      AddWord(3, v.d);
      AddWord(4, v.e);
      AddWord(5, v.f);
      AddWord(6, v.g);
      AddWord(7, v.h);
    }

    method AddWord(i: nat, x: Word)
      requires h.Length == 8 && i < 8
      modifies h
      ensures h[..] == old(h[..])[i := Plus(old(h[i]), x)]
    {
      h[i] := Plus(h[i], x);
    }

    /** Copy bytes behind those already in the buffer. */
    method Copy(data: seq<Byte>, at: nat, take: nat)
      requires Valid() && take <= 64 - buflen && at + take <= |data|
      modifies buf
      ensures buf[..buflen + take] == old(buf[..buflen]) + data[at..at + take]
    {
      forall k | 0 <= k < take {
        buf[buflen + k] := data[at + k];
      }
    }

    /** One turn of the loop in `update`: fill the buffer, and fold it in when it is full. */
    method Feed(data: seq<Byte>, at: nat) returns (next: nat)
      requires Valid() && at < |data|
      modifies this`buflen, h, buf
      ensures Valid() && at < next <= |data|
      ensures Drain(h[..], buf[..buflen] + data[next..]) == old(Drain(h[..], buf[..buflen] + data[at..]))
    {
      var take := if 64 - buflen > |data| - at then |data| - at else 64 - buflen;
      ghost var before := buf[..buflen];
      Copy(data, at, take);
      Advance(before, data, at, take);
      buflen := buflen + take;
      next := at + take;
      if buflen == 64 {
        assert buf[..buflen] == buf[..];
        DrainBlock(h[..], buf[..], data[next..]);
        Process(buf[..]);
        buflen := 0;
        assert buf[..buflen] + data[next..] == data[next..];
      }
    }

    method Update(data: seq<Byte>)
      requires Valid()
      modifies this, h, buf
      ensures Valid() && Abs() == Absorb(old(Abs()), data)
    {
      total := Wrap(total + |data|);
      var at := 0;
      assert data[at..] == data;
      while at < |data|
        invariant Valid() && at <= |data|
        invariant total == Wrap(old(total) + |data|)
        invariant Drain(h[..], buf[..buflen] + data[at..]) == old(Drain(h[..], buf[..buflen] + data))
      {
        at := Feed(data, at);
      }
      assert buf[..buflen] + data[at..] == buf[..buflen];
    }

    /** Pad, append the bit length taken before padding, and write out the hash. */
    method Finish(out: array<Byte>)
      requires Valid() && out.Length == 32 && out != buf
      modifies this, h, buf, out
      ensures Valid() && buflen == 0
      ensures h[..] == Finished(old(Abs())) && out[..] == Bytes(Finished(old(Abs())))
    {
      var bits := Wrap(total * 8);
      ghost var start := Abs();
      Update([0x80]);
      PadZeros(start);
      var lenb := LengthBytes(bits);
      Update(lenb);
      FinishedByUpdates(start, bits);
      WriteOut(out);
    }

    /** Zero bytes until the length fits: as few as possible. */
    method PadZeros(ghost start: Snapshot)
      requires Valid() && Proper(start) && Abs() == Absorb(start, [0x80])
      modifies this, h, buf
      ensures Valid() && Abs() == Absorb(start, PadFront(ZeroCount(|start.pending|)))
    {
      ghost var z := 0;
      NoZeros(start);
      while buflen != 56
        invariant Valid() && PaddedBy(start, z, Abs())
        decreases ZeroCount(|start.pending|) - z
      {
        Update([0]);
        OneMoreZero(start, z);
        z := z + 1;
      }
    }

    method WriteOut(out: array<Byte>)
      requires Valid() && out.Length == 32 && out != buf
      modifies out
      ensures out[..] == Bytes(h[..])
    {
      for i := 0 to 8
        invariant out[..4 * i] == Bytes(h[..i])
      {
        PutWord(out, i, h[i]);
        assert h[..i + 1][..i] == h[..i];
      }
      assert h[..8] == h[..] && out[..32] == out[..];
    }
  }

  method PutWord(out: array<Byte>, i: nat, w: Word)
    requires out.Length >= 4 * i + 4
    modifies out
    ensures out[..4 * i + 4] == old(out[..4 * i]) + WordBytes(w)
  {
    var b := WordBytes(w);
    out[i * 4] := b[0];
    out[i * 4 + 1] := b[1];
    out[i * 4 + 2] := b[2];
    out[i * 4 + 3] := b[3];
  }

  /** `x >> 8 * k` */
  function ShiftBytes(x: nat, k: nat): nat {
    if k == 0 then x else ShiftBytes(x / 256, k - 1)
  }

  /** `uint8_t(bits >> (56 - 8 * i))` for `i` from 0 to 7. */
  method LengthBytes(bits: nat) returns (lenb: seq<Byte>)
    ensures lenb == BigEndian(bits, 8)
  {
    var a := new Byte[8];
    for i := 0 to 8
      invariant forall j :: 0 <= j < i ==> a[j] == BigEndian(bits, 8)[j]
    {
      Base256At(bits, 8, i);
      a[i] := (ShiftBytes(bits, 7 - i) % 256) as Byte;
    }
    lenb := a[..];
    assert |lenb| == 8 && forall j :: 0 <= j < 8 ==> lenb[j] == BigEndian(bits, 8)[j];
  }

  method HexOf(d: seq<Byte>) returns (s: string)
    ensures s == Hex(d)
    ensures LowerHex(s) && Unhex(s) == d
  {
    s := "";
    for i := 0 to |d|
      invariant s == Hex(d[..i])
    {
      assert d[..i + 1][..i] == d[..i];
      s := s + HexByte(d[i]);
    }
    assert d[..|d|] == d;
    UnhexUndoesHex(d);
  }

  /** `hash`: the hexadecimal digest of a whole message. */
  method HashOf(message: seq<Byte>) returns (s: string)
    ensures LowerHex(s) && Unhex(s) == Bytes(FoldBlocks(INITIAL, PadModulo(message)))
    ensures |message| < TWO_61 ==> Unhex(s) == Digest(message)
  {
    var state := new State();
    state.Update(message);
    var out := new Byte[32];
    state.Finish(out);
    FinishedIsFold(message);
    PadModuloIsPad(message);
    s := HexOf(out[..]);
  }

  /** The padded message with its bit length taken modulo 2^64. */
  function PadModulo(message: seq<Byte>): (p: seq<Byte>)
    ensures |p| % 64 == 0
  {
    message + Padding(|message|, Wrap(8 * |message|))
  }

  lemma PadModuloIsPad(message: seq<Byte>)
    ensures |message| < TWO_61 ==> PadModulo(message) == Pad(message)
  {
    WrapSmall(8 * |message|);
  }

  /** The hash value `finish` computes from a state. */
  ghost function Finished(s: Snapshot): Hash
    requires Proper(s)
  {
    FoldBlocks(s.h, s.pending + Padding(|s.pending|, Wrap(s.total * 8)))
  }

  lemma Advance(before: seq<Byte>, data: seq<Byte>, at: nat, take: nat)
    requires at + take <= |data|
    ensures before + data[at..] == (before + data[at..at + take]) + data[at + take..]
  {
  }

  lemma DrainBlock(h: Hash, block: Block, rest: seq<Byte>)
    ensures Drain(h, block + rest) == Drain(Compress(h, block), rest)
  {
    assert (block + rest)[..64] == block && (block + rest)[64..] == rest;
  }

  lemma {:induction false} DrainLength(h: Hash, bytes: seq<Byte>)
    ensures |Drain(h, bytes).1| == |bytes| % 64
    decreases |bytes|
  {
    if |bytes| >= 64 {
      DrainLength(Compress(h, bytes[..64]), bytes[64..]);
    }
  }

  lemma PendingLength(s: Snapshot, data: seq<Byte>)
    requires Proper(s)
    ensures |Absorb(s, data).pending| == (|s.pending| + |data|) % 64
  {
    DrainLength(s.h, s.pending + data);
  }

  /** Draining a message is draining its front and then the rest behind what is left over. */
  lemma {:induction false} DrainAppend(h: Hash, a: seq<Byte>, b: seq<Byte>)
    ensures var (h', rest) := Drain(h, a); Drain(h, a + b) == Drain(h', rest + b)
    decreases |a|
  {
    if |a| >= 64 {
      assert (a + b)[..64] == a[..64] && (a + b)[64..] == a[64..] + b;
      DrainAppend(Compress(h, a[..64]), a[64..], b);
    }
  }

  /** Streaming invariance: two updates are one update with both pieces. */
  lemma AbsorbAppend(s: Snapshot, a: seq<Byte>, b: seq<Byte>)
    requires Proper(s)
    ensures Absorb(Absorb(s, a), b) == Absorb(s, a + b)
  {
    assert s.pending + (a + b) == (s.pending + a) + b;
    DrainAppend(s.h, s.pending + a, b);
    CountAppend(s.total, |a|, |b|);
  }

  ghost function AbsorbAll(s: Snapshot, chunks: seq<seq<Byte>>): (r: Snapshot)
    requires Proper(s)
    ensures Proper(r)
    decreases |chunks|
  {
    if chunks == [] then s else AbsorbAll(Absorb(s, chunks[0]), chunks[1..])
  }

  ghost function Concat(chunks: seq<seq<Byte>>): seq<Byte> {
    if chunks == [] then [] else chunks[0] + Concat(chunks[1..])
  }

  /** However a message is cut into chunks, the state ends as after one update with the whole message. */
  lemma {:induction false} ChunksDoNotMatter(s: Snapshot, chunks: seq<seq<Byte>>)
    requires Proper(s) && chunks != []
    ensures AbsorbAll(s, chunks) == Absorb(s, Concat(chunks))
    decreases |chunks|
  {
    if |chunks| == 1 {
      assert Concat(chunks) == chunks[0] + [] == chunks[0];
    } else {
      ChunksDoNotMatter(Absorb(s, chunks[0]), chunks[1..]);
      AbsorbAppend(s, chunks[0], Concat(chunks[1..]));
    }
  }

  lemma Cut(bytes: seq<Byte>, n: nat)
    requires 64 <= n <= |bytes| && n == |bytes| - |bytes| % 64
    ensures |bytes[64..]| - |bytes[64..]| % 64 == n - 64
    ensures bytes[..n][..64] == bytes[..64] && bytes[..n][64..] == bytes[64..][..n - 64]
    ensures bytes[64..][n - 64..] == bytes[n..]
  {
  }

  /** The full blocks are folded in, the remainder is kept: nothing is lost, added or reordered. */
  lemma {:induction false} DrainIsFold(h: Hash, bytes: seq<Byte>)
    ensures var n := |bytes| - |bytes| % 64; Drain(h, bytes) == (FoldBlocks(h, bytes[..n]), bytes[n..])
    decreases |bytes|
  {
    if |bytes| >= 64 {
      DrainIsFold(Compress(h, bytes[..64]), bytes[64..]);
      Cut(bytes, |bytes| - |bytes| % 64);
    }
  }

  lemma DrainAll(h: Hash, bytes: seq<Byte>)
    requires |bytes| % 64 == 0
    ensures Drain(h, bytes) == (FoldBlocks(h, bytes), [])
  {
    DrainIsFold(h, bytes);
    assert bytes[..|bytes|] == bytes && bytes[|bytes|..] == [];
  }

  /** After any input the state holds exactly that input: whole blocks in the hash, the rest in the buffer. */
  lemma InputIsHeld(input: seq<Byte>)
    ensures var n := |input| - |input| % 64;
            Absorb(EMPTY, input) == Snapshot(FoldBlocks(INITIAL, input[..n]), input[n..], Wrap(|input|))
  {
    assert [] + input == input;
    DrainIsFold(INITIAL, input);
  }

  lemma {:induction false} FoldAppend(h: Hash, a: seq<Byte>, b: seq<Byte>)
    requires |a| % 64 == 0 && |b| % 64 == 0
    ensures FoldBlocks(h, a + b) == FoldBlocks(FoldBlocks(h, a), b)
    decreases |a|
  {
    if a == [] {
      assert a + b == b;
    } else {
      assert (a + b)[..64] == a[..64] && (a + b)[64..] == a[64..] + b;
      FoldAppend(Compress(h, a[..64]), a[64..], b);
    }
  }

  lemma FoldThrough(h: Hash, message: seq<Byte>, bits: nat)
    ensures var n := |message| - |message| % 64;
            var rest := message[n..];
            FoldBlocks(FoldBlocks(h, message[..n]), rest + Padding(|rest|, bits))
            == FoldBlocks(h, message + Padding(|message|, bits))
  {
    var n := |message| - |message| % 64;
    var front, rest := message[..n], message[n..];
    PaddingDependsOnRest(|rest|, |message|, bits);
    var tail := Padding(|message|, bits);
    assert message + tail == front + (rest + tail);
    FoldAppend(h, front, rest + tail);
  }

  /** Finishing after a whole message folds the padded message, its length taken modulo 2^64 bits. */
  lemma FinishedIsFold(message: seq<Byte>)
    ensures Finished(Absorb(EMPTY, message)) == FoldBlocks(INITIAL, PadModulo(message))
  {
    InputIsHeld(message);
    ModBits(|message|);
    FoldThrough(INITIAL, message, Wrap(8 * |message|));
  }

  /** `s` is `start` after the byte 0x80 and `z` zeros, no more than are needed. */
  ghost predicate PaddedBy(start: Snapshot, z: nat, s: Snapshot) {
    && Proper(start) && s == Absorb(start, PadFront(z)) && z <= ZeroCount(|start.pending|)
    && (z == ZeroCount(|start.pending|) <==> |s.pending| == 56)
  }

  lemma ZeroCountReached(n: nat, z: nat)
    requires z <= ZeroCount(n)
    ensures z == ZeroCount(n) <==> (n + 1 + z) % 64 == 56
  {
    assert LengthFits(n, z) || !LengthFits(n, z);
  }

  lemma NoZeros(start: Snapshot)
    requires Proper(start)
    ensures PaddedBy(start, 0, Absorb(start, [0x80]))
  {
    assert PadFront(0) == [0x80];
    PendingLength(start, [0x80]);
    ZeroCountReached(|start.pending|, 0);
  }

  lemma OneMoreZero(start: Snapshot, z: nat)
    requires Proper(start)
    requires PaddedBy(start, z, Absorb(start, PadFront(z))) && z < ZeroCount(|start.pending|)
    ensures PaddedBy(start, z + 1, Absorb(Absorb(start, PadFront(z)), [0]))
  {
    AbsorbAppend(start, PadFront(z), [0]);
    assert PadFront(z) + [0] == PadFront(z + 1);
    PendingLength(start, PadFront(z + 1));
    ZeroCountReached(|start.pending|, z + 1);
  }

  /** The updates made by `finish` leave an empty buffer and the finished hash. */
  lemma FinishedByUpdates(start: Snapshot, bits: nat)
    requires Proper(start) && bits == Wrap(start.total * 8)
    ensures var padded := Absorb(start, PadFront(ZeroCount(|start.pending|)));
            var r := Absorb(padded, BigEndian(bits, 8));
            r.h == Finished(start) && r.pending == []
  {
    var padding := Padding(|start.pending|, bits);
    DrainAll(start.h, start.pending + padding);
    AbsorbAppend(start, PadFront(ZeroCount(|start.pending|)), BigEndian(bits, 8));
  }

  lemma ZeroCountDependsOnRest(m: nat, n: nat)
    requires m % 64 == n % 64
    ensures ZeroCount(m) == ZeroCount(n)
  {
  }

  lemma PaddingDependsOnRest(m: nat, n: nat, bits: nat)
    requires m % 64 == n % 64
    ensures Padding(m, bits) == Padding(n, bits)
  {
    ZeroCountDependsOnRest(m, n);
  }

  lemma CountAppend(total: nat, m: nat, n: nat)
    ensures Wrap(Wrap(total + m) + n) == Wrap(total + (m + n))
  {
  }

  lemma ModBits(x: nat)
    ensures Wrap(Wrap(x) * 8) == Wrap(8 * x)
  {
  }

  lemma {:induction false} Base256At(x: nat, count: nat, i: nat)
    requires i < count
    ensures Base256(x, count)[i] == ShiftBytes(x, count - 1 - i) % 256
    decreases count
  {
    if i < count - 1 {
      Base256At(x / 256, count - 1, i);
    }
  }
}
