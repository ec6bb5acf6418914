/**
 `\u` escapes against RFC 3629: the parser writes every code unit as its own UTF-8 sequence.
 */
module JsonUnicode {
  import opened Wrappers
  import opened JsonValues
  import opened JsonGrammar
  import opened JsonReader
  import opened JsonTheorems
  import opened JsonPrinter

  predicate Surrogate(cp: nat) {
    0xD800 <= cp < 0xE000
  }

  predicate Cont(c: char) {
    0x80 <= c as int < 0xC0
  }

  /** The table of RFC 3629 section 4: the code point in front of a byte string and the length of its sequence. */
  function DecodeOne(s: string): (r: Option<(nat, nat)>)
    ensures r.Some? ==> 1 <= r.value.1 <= |s| && r.value.0 < 0x11_0000
  {
    if s == "" then None
    else
      var b0 := s[0] as int;
      if b0 < 0x80 then Some((b0, 1))
      else if |s| < 2 || !Cont(s[1]) then None
      else
        var b1 := s[1] as int;
        if 0xC2 <= b0 < 0xE0 then Some(((b0 - 0xC0) * 64 + (b1 - 0x80), 2))
        else if |s| < 3 || !Cont(s[2]) then None
        else
          var b2 := s[2] as int;
          if (b0 == 0xE0 && b1 >= 0xA0) || 0xE1 <= b0 < 0xED || (b0 == 0xED && b1 < 0xA0) || 0xEE <= b0 < 0xF0 then
            Some(((b0 - 0xE0) * 4096 + (b1 - 0x80) * 64 + (b2 - 0x80), 3))
          else if |s| < 4 || !Cont(s[3]) then None
          else if (b0 == 0xF0 && b1 >= 0x90) || 0xF1 <= b0 < 0xF4 || (b0 == 0xF4 && b1 < 0x90) then
            Some(((b0 - 0xF0) * 262144 + (b1 - 0x80) * 4096 + (b2 - 0x80) * 64 + (s[3] as int - 0x80), 4))
          else None
  }

  function Decode(s: string): Option<seq<nat>>
    decreases |s|
  {
    if s == "" then Some([])
    else
      var (cp, n) :- DecodeOne(s);
      var cps :- Decode(s[n..]);
      Some([cp] + cps)
  }

  ghost predicate Basic(cps: seq<nat>) {
    forall i :: 0 <= i < |cps| ==> cps[i] < 0x1_0000
  }

  ghost function Encode(cps: seq<nat>): string
    requires Basic(cps)
  {
    if cps == [] then "" else Utf8(cps[0]) + Encode(cps[1..])
  }

  lemma HexCharDigit(d: nat)
    requires d < 16
    ensures IsHex(HexChar(d)) && HexDigit(HexChar(d)) == d
  {
  }

  function FourHex(a: nat, b: nat, c: nat, d: nat): (h: string)
    requires a < 16 && b < 16 && c < 16 && d < 16
    ensures |h| == 4 && (forall i :: 0 <= i < 4 ==> IsHex(h[i]))
    ensures HexValue(h) == a * 4096 + b * 256 + c * 16 + d
  {
    HexCharDigit(a);
    HexCharDigit(b);
    HexCharDigit(c);
    HexCharDigit(d);
    var h := [HexChar(a), HexChar(b), HexChar(c), HexChar(d)];
    HexValueBound(h);
    h
  }

  /** The four hexadecimal digits of a code point of the basic plane. */
  function FourDigits(cp: nat): (h: string)
    requires cp < 0x1_0000
    ensures |h| == 4 && (forall i :: 0 <= i < 4 ==> IsHex(h[i])) && HexValue(h) == cp
  {
    var q1 := cp / 16;
    var q2 := q1 / 16;
    FourHex(q2 / 16, q2 % 16, q1 % 16, cp % 16)
  }

  ghost function Escapes(cps: seq<nat>): seq<Unit>
    requires Basic(cps)
  {
    if cps == [] then [] else [Hex(FourDigits(cps[0]))] + Escapes(cps[1..])
  }

  lemma {:induction false} EscapesMeaning(cps: seq<nat>)
    requires Basic(cps)
    ensures UnitsOk(Escapes(cps)) && UnitsMeaning(Escapes(cps)) == Encode(cps)
  {
    if cps != [] {
      EscapesMeaning(cps[1..]);
      assert Escapes(cps)[1..] == Escapes(cps[1..]);
    }
  }

  lemma DecodeOneOfUtf8(cp: nat, rest: string)
    requires cp < 0x1_0000
    ensures !Surrogate(cp) ==> DecodeOne(Utf8(cp) + rest) == Some((cp, |Utf8(cp)|))
    ensures Surrogate(cp) ==> DecodeOne(Utf8(cp) + rest).None?
  {
    var s := Utf8(cp) + rest;
    if cp < 0x80 {
      assert s[0] as int == cp;
    } else if cp < 0x800 {
      assert s[0] as int == 0xC0 + cp / 64 && s[1] as int == 0x80 + cp % 64;
    } else {
      ThreeBytes(cp);
      assert s[0] == Utf8(cp)[0] && s[1] == Utf8(cp)[1] && s[2] == Utf8(cp)[2];
    }
  }

  /** The lead byte and its first continuation byte tell surrogates from other code points. */
  lemma ThreeBytes(cp: nat)
    requires 0x800 <= cp < 0x1_0000
    ensures var a, b, c := cp / 4096, cp / 64 % 64, cp % 64;
            && a < 16 && a * 4096 + b * 64 + c == cp
            && (a == 0 ==> b >= 0x20) && (Surrogate(cp) <==> a == 13 && b >= 0x20)
  {
    assert cp / 4096 == cp / 64 / 64;
  }

  /** The bytes of non-surrogate code points decode to them, and a surrogate makes the bytes invalid UTF-8. */
  lemma {:induction false} DecodeUndoesEncode(cps: seq<nat>)
    requires Basic(cps)
    ensures (forall i :: 0 <= i < |cps| ==> !Surrogate(cps[i])) <==> Decode(Encode(cps)) == Some(cps)
    ensures (exists i :: 0 <= i < |cps| && Surrogate(cps[i])) ==> Decode(Encode(cps)).None?
  {
    if cps != [] {
      DecodeUndoesEncode(cps[1..]);
      DecodeOneOfUtf8(cps[0], Encode(cps[1..]));
      assert Encode(cps)[|Utf8(cps[0])|..] == Encode(cps[1..]);
      assert cps == [cps[0]] + cps[1..];
      if !Surrogate(cps[0]) {
        assert Decode(Encode(cps)) == match Decode(Encode(cps[1..]))
                                      case None => None
                                      case Some(t) => Some([cps[0]] + t);
        if j :| 0 <= j < |cps| && Surrogate(cps[j]) {
          assert Surrogate(cps[1..][j - 1]);
        }
      }
    }
  }

  /**
   A string literal of four-digit escapes is parsed to the UTF-8 encoding of its code points. Those bytes decode to
   the same code points exactly when none of them is a surrogate: surrogate pairs are not combined.
   */
  lemma EscapedTextIsUtf8(stod: Stod, cps: seq<nat>)
    requires Basic(cps)
    ensures Parse(stod, Quoted(Escapes(cps))) == Some(Str(Encode(cps)))
    ensures Decode(Encode(cps)) == Some(cps) <==> forall i :: 0 <= i < |cps| ==> !Surrogate(cps[i])
  {
    EscapesMeaning(cps);
    DecodeUndoesEncode(cps);
    CompleteText(stod, Escapes(cps), "");
    assert Quoted(Escapes(cps)) + "" == Quoted(Escapes(cps));
  }
}
