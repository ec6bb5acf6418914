/**
 The small parts of the accepted language by their characters: white space, escapes, names and numbers (RFC 8259,
 sections 2, 3, 6 and 7); and the order of keys.
 */
module JsonLexical {
  import opened Wrappers
  import opened JsonValues
  import opened JsonGrammar
  import opened JsonReader
  import opened JsonPrinter
  import opened JsonUnicode

  /** Space, tab, line feed and carriage return are skipped in front of a value, and nothing else is. */
  lemma SkippedCharacters(c: char, s: string)
    ensures c as int in {0x20, 0x09, 0x0A, 0x0D} ==> SkipWs([c] + s) == SkipWs(s)
    ensures c as int !in {0x20, 0x09, 0x0A, 0x0D} ==> SkipWs([c] + s) == [c] + s
  {
    assert ([c] + s)[1..] == s;
  }

  /** The code of the character that a short escape stands for. */
  const ESCAPES: map<char, int> :=
    map['"' := 0x22, '\\' := 0x5C, '/' := 0x2F, 'b' := 0x08, 'f' := 0x0C, 'n' := 0x0A, 'r' := 0x0D, 't' := 0x09]

  /** A string literal with one short escape is accepted exactly for the eight letters of the table, with its code. */
  lemma ShortEscapes(stod: Stod, e: char)
    requires e != 'u'
    ensures var text := ['"', '\\', e, '"'];
            if e in ESCAPES then Parse(stod, text) == Some(Str([ESCAPES[e] as char])) else Parse(stod, text) == None
  {
    var text, after := ['"', '\\', e, '"'], ['\\', e, '"'];
    assert text[1..] == after && SkipWs(text) == text;
    OneEscape(e);
    match Chars(after) {
      case None => assert Value(stod, text) == None;
      case Some((x, rest)) =>
        assert Value(stod, text) == Some((Str(x), rest));
        assert SkipWs("") == "";
    }
  }

  lemma OneEscape(e: char)
    requires e != 'u'
    ensures Chars(['\\', e, '"']) == if e in ESCAPES then Some(([ESCAPES[e] as char], "")) else None
  {
    var s := ['\\', e, '"'];
    assert s[2..] == ['"'] && ['"'][1..] == "";
    assert Chars(['"']) == Some(("", ""));
    if e in ESCAPES {
      assert IsEscape(e) && [Unescaped(e)] + "" == [ESCAPES[e] as char];
    }
  }

  /** Upper-case letters of hexadecimal digits. */
  function Upper(h: string): (u: string)
    ensures |u| == |h|
    ensures forall i :: 0 <= i < |h| ==> u[i] == if 'a' <= h[i] <= 'f' then (h[i] as int - 32) as char else h[i]
  {
    seq(|h|, i requires 0 <= i < |h| => if 'a' <= h[i] <= 'f' then (h[i] as int - 32) as char else h[i])
  }

  /** The case of hexadecimal digits does not matter. */
  lemma {:induction false} CaseDoesNotMatter(h: string)
    requires forall i :: 0 <= i < |h| ==> IsHex(h[i])
    ensures forall i :: 0 <= i < |h| ==> IsHex(Upper(h)[i])
    ensures HexValue(Upper(h)) == HexValue(h)
  {
    if h != "" {
      var n := |h| - 1;
      CaseDoesNotMatter(h[..n]);
      assert Upper(h)[..n] == Upper(h[..n]);
    }
  }

  /** Every code point up to U+FFFF is read from its four digits in either case. */
  lemma EitherCase(cp: nat)
    requires cp < 0x1_0000
    ensures var h := FourDigits(cp);
            && UnitOk(Hex(h)) && UnitMeaning(Hex(h)) == Utf8(cp)
            && UnitOk(Hex(Upper(h))) && UnitMeaning(Hex(Upper(h))) == Utf8(cp)
  {
    CaseDoesNotMatter(FourDigits(cp));
  }

  // Literal names, numbers and plain strings

  /** The three names are read and printed as themselves. */
  lemma LiteralNames(stod: Stod, show: Show, pretty: bool)
    ensures Parse(stod, "null") == Some(Null) && ValueText(show, Null, pretty, 0) == "null"
    ensures Parse(stod, "true") == Some(Bool(true)) && ValueText(show, Bool(true), pretty, 0) == "true"
    ensures Parse(stod, "false") == Some(Bool(false)) && ValueText(show, Bool(false), pretty, 0) == "false"
  {
    LiteralName(stod, "null", NullWord, Null);
    LiteralName(stod, "true", TrueWord, Bool(true));
    LiteralName(stod, "false", FalseWord, Bool(false));
  }

  lemma LiteralName(stod: Stod, text: string, w: Word, v: Json)
    requires text == WordYield(w) && v == WordMeaning(w)
    ensures Parse(stod, text) == Some(v)
  {
    CompleteBody(stod, Body.Word(w), "");
    assert text + "" == text && SkipWs("") == "";
  }

  /** A string without quotes, backslashes and control characters is printed between quotes as it is. */
  lemma PlainString(show: Show, s: string, pretty: bool, depth: nat)
    requires forall i :: 0 <= i < |s| ==> s[i] as int >= 0x20 && s[i] as int != 0x22 && s[i] as int != 0x5C
    ensures ValueText(show, Str(s), pretty, depth) == ['"'] + s + ['"']
  {
    PlainUnits(s);
  }

  lemma {:induction false} PlainUnits(s: string)
    requires forall i :: 0 <= i < |s| ==> s[i] as int >= 0x20 && s[i] as int != 0x22 && s[i] as int != 0x5C
    ensures UnitsYield(UnitsOf(s)) == s
  {
    if s != "" {
      PlainUnits(s[1..]);
      UnitsFront(s);
      assert s == [s[0]] + s[1..];
    }
  }

  /** A decimal digit by its code. */
  predicate DigitCode(c: char) {
    0x30 <= c as int <= 0x39
  }

  predicate SomeDigits(s: string) {
    s != "" && forall i :: 0 <= i < |s| ==> DigitCode(s[i])
  }

  /** The number production of RFC 8259, section 6: sign, integer part without leading zeros, fraction, exponent. */
  predicate Rfc8259Number(minus: string, whole: string, frac: string, exp: string) {
    && (minus == "" || minus == "-")
    && (whole == "0" || (SomeDigits(whole) && whole[0] != '0'))
    && (frac == "" || (frac[0] == '.' && SomeDigits(frac[1..])))
    && (exp == ""
        || (exp[0] in {'e', 'E'} && exp != [exp[0]]
            && if exp[1] in {'+', '-'} then SomeDigits(exp[2..]) else SomeDigits(exp[1..])))
  }

  /** Every number of the standard is a lexeme of the accepted language. */
  lemma StandardNumbersAreAccepted(minus: string, whole: string, frac: string, exp: string)
    requires Rfc8259Number(minus, whole, frac, exp)
    ensures IsLexeme(minus + (whole + (frac + exp)))
  {
    var f := if frac == "" then None else Some(frac[1..]);
    var e := ExponentOf(exp);
    var x := Lexeme(minus == "-", whole, f, e);
    assert FractionYield(f) == frac;
    assert LexemeOk(x) && LexemeYield(x) == minus + (whole + (frac + exp));
  }

  lemma ExponentOf(exp: string) returns (e: Option<Exponent>)
    requires Rfc8259Number("", "0", "", exp)
    ensures ExponentYield(e) == exp && LexemeOk(Lexeme(true, "", None, e))
  {
    if exp == "" {
      e := None;
    } else if exp[1] in {'+', '-'} {
      e := Some(Exponent(exp[0], [exp[1]], exp[2..]));
      assert exp == [exp[0]] + ([exp[1]] + exp[2..]);
    } else {
      e := Some(Exponent(exp[0], "", exp[1..]));
      assert exp == [exp[0]] + ("" + exp[1..]);
    }
  }

  // The order of keys

  /** Keys are ordered by the first character in which they differ, and a proper front comes first. */
  lemma {:induction false} KeysAreOrdered(a: string, b: string)
    ensures Less(a, b) <==> a < b || exists i :: 0 <= i < |a| && i < |b| && a[..i] == b[..i] && a[i] < b[i]
  {
    if a != "" && b != "" && a[0] == b[0] {
      KeysAreOrdered(a[1..], b[1..]);
      SharedFront(a, b);
    } else if a != "" && b != "" {
      assert a[..0] == b[..0];
    }
  }

  lemma SharedFront(a: string, b: string)
    requires a != "" && b != "" && a[0] == b[0]
    ensures a < b <==> a[1..] < b[1..]
    ensures (exists i :: 0 <= i < |a| && i < |b| && a[..i] == b[..i] && a[i] < b[i])
            <==> exists i :: 0 <= i < |a[1..]| && i < |b[1..]| && a[1..][..i] == b[1..][..i] && a[1..][i] < b[1..][i]
  {
    assert a == [a[0]] + a[1..] && b == [b[0]] + b[1..];
    if i :| 0 <= i < |a| && i < |b| && a[..i] == b[..i] && a[i] < b[i] {
      assert i > 0;
      assert a[1..][..i - 1] == a[..i][1..] == b[..i][1..] == b[1..][..i - 1];
      assert a[1..][i - 1] < b[1..][i - 1];
    }
    if i :| 0 <= i < |a[1..]| && i < |b[1..]| && a[1..][..i] == b[1..][..i] && a[1..][i] < b[1..][i] {
      assert a[..i + 1] == [a[0]] + a[1..][..i] == [b[0]] + b[1..][..i] == b[..i + 1];
      assert a[i + 1] < b[i + 1];
    }
  }
}
