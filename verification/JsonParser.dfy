/**
 The parser itself: a text and a position that moves forward. Every method is proved against what `JsonReader`
 reads at the front of the text ahead. A C++ exception is a `None`; `parse` turns it into "no value" as well.
 */
module JsonParser {
  import opened Wrappers
  import opened JsonValues
  import opened JsonGrammar
  import opened JsonReader

  class Parser {
    const s: string
    const stod: Stod
    var pos: nat

    ghost predicate Valid()
      reads this
    {
      pos <= |s|
    }

    /** The text that has not been read yet. */
    ghost function Ahead(): string
      requires Valid()
      reads this
    {
      s[pos..]
    }

    constructor (s: string, stod: Stod)
      ensures Valid() && this.s == s && this.stod == stod && pos == 0
    {
      this.s, this.stod, pos := s, stod, 0;
    }

    /** What a reading function promises about a method that returned `r`. */
    ghost predicate Read<T(!new)>(expected: Option<(T, string)>, r: Option<T>)
      reads this
    {
      Valid() && match expected
                 case None => r.None?
                 case Some((v, rest)) => r == Some(v) && Ahead() == rest
    }

    method Skip()
      requires Valid()
      modifies this`pos
      ensures Valid() && old(pos) <= pos && Ahead() == SkipWs(old(Ahead()))
    {
      while pos < |s|
        invariant old(pos) <= pos <= |s|
        invariant SkipWs(s[pos..]) == SkipWs(old(Ahead()))
      {
        if IsWs(s[pos]) {
          assert s[pos..][1..] == s[pos + 1..];
          pos := pos + 1;
        } else {
          break;
        }
      }
    }

    method Consume(c: char) returns (ok: bool)
      requires Valid()
      modifies this`pos
      ensures Valid() && old(pos) <= pos
      ensures var t := SkipWs(old(Ahead()));
              ok == (t != "" && t[0] == c) && Ahead() == if ok then t[1..] else t
    {
      Skip();
      ok := pos < |s| && s[pos] == c;
      if ok {
        pos := pos + 1;
      }
    }

    method ParseHex() returns (cp: Option<nat>)
      requires Valid()
      modifies this`pos
      ensures Valid() && old(pos) <= pos
      ensures var t := old(Ahead());
              if |t| >= 4 && forall i :: 0 <= i < 4 ==> IsHex(t[i])
              then cp == Some(HexValue(t[..4])) && Ahead() == t[4..]
              else cp.None?
    {
      ghost var t := Ahead();
      if pos + 4 > |s| {
        return None;
      }
      var n := 0;
      for i := 0 to 4
        invariant pos == old(pos) + i && |t| >= 4 && s[pos..] == t[i..]
        invariant forall j :: 0 <= j < i ==> IsHex(t[j])
        invariant n == HexValue(t[..i])
      {
        var h := s[pos];
        pos := pos + 1;
        assert t[i] == h;
        if !IsHex(h) {
          return None;
        }
        n := n * 16 + HexDigit(h);
        assert t[..i + 1][..i] == t[..i];
      }
      return Some(n);
    }

    /** A string literal; its opening quote comes next. */
    method ParseString() returns (r: Option<string>)
      requires Valid()
      modifies this`pos
      ensures old(pos) <= pos
      ensures var t := SkipWs(old(Ahead()));
              Read(if t != "" && t[0] == '"' then Chars(t[1..]) else None, r)
    {
      var open := Consume('"');
      if !open {
        return None;
      }
      ghost var start := Ahead();
      var out := "";
      PrefixedNone(Chars(start));
      while pos < |s|
        invariant old(pos) <= pos && Valid()
        invariant Chars(start) == Prefixed(out, Chars(Ahead()))
      {
        ghost var before := out;
        ghost var t := Ahead();
        var c := s[pos];
        pos := pos + 1;
        assert t[0] == c && t[1..] == Ahead();
        if c == '"' {
          assert out + "" == out;
          return Some(out);
        }
        var added := Some([c]);
        if c == '\\' {
          added := ParseEscape(t);
          if added.None? {
            return None;
          }
        }
        out := out + added.value;
        PrefixedTwice(before, added.value, Chars(Ahead()));
      }
      return None;
    }

    /** An escape whose backslash has been read; `t` is the text from the backslash on. */
    method ParseEscape(ghost t: string) returns (added: Option<string>)
      requires Valid() && t != "" && t[0] == '\\' && t[1..] == Ahead()
      modifies this`pos
      ensures Valid() && old(pos) <= pos
      ensures Chars(t) == if added.None? then None else Prefixed(added.value, Chars(Ahead()))
      ensures added.Some? ==> |Ahead()| < |t|
    {
      if pos >= |s| {
        return None;
      }
      var e := s[pos];
      pos := pos + 1;
      assert t[1] == e && t[2..] == Ahead();
      if e == 'u' {
        var cp := ParseHex();
        HexAhead(t);
        if cp.None? {
          return None;
        }
        HexValueBound(t[2..6]);
        return Some(Utf8(cp.value));
      }
      return if IsEscape(e) then Some([Unescaped(e)]) else None;
    }

    method ParseNumber() returns (r: Option<Json>)
      requires Valid()
      modifies this`pos
      ensures old(pos) <= pos
      ensures Read(NumberAt(stod, SkipWs(old(Ahead()))), r)
    {
      Skip();
      ghost var t := Ahead();
      var start := pos;
      if pos < |s| && s[pos] == '-' {
        pos := pos + 1;
      }
      SkipUnsigned(t);
      var num := s[start..pos];
      assert num == t[..LexemeLen(t)] && s[pos..] == t[LexemeLen(t)..];
      if num == "" {
        return None;
      }
      var x := NumberOf(stod, num);
      if x.None? {
        return None;
      }
      return Some(Num(x.value));
    }

    /** The lexeme after its sign; `t` is the text from the sign on. */
    method SkipUnsigned(ghost t: string)
      requires Valid()
      requires Ahead() == if t != "" && t[0] == '-' then t[1..] else t
      modifies this`pos
      ensures Valid() && pos == old(pos) - (|t| - |old(Ahead())|) + LexemeLen(t)
    {
      ghost var u := Ahead();
      SkipDigits();
      ghost var f := Ahead();
      assert f == u[Digits(u)..];
      if pos < |s| && s[pos] == '.' {
        pos := pos + 1;
        assert Ahead() == f[1..];
        SkipDigits();
      }
      ghost var e := Ahead();
      assert e == f[FractionLen(f)..];
      SkipExponent();
    }

    method SkipExponent()
      requires Valid()
      modifies this`pos
      ensures Valid() && pos == old(pos) + ExponentLen(old(Ahead()))
    {
      if pos < |s| && (s[pos] == 'e' || s[pos] == 'E') {
        pos := pos + 1;
        ghost var u := Ahead();
        assert u == old(Ahead())[1..];
        if pos < |s| && (s[pos] == '+' || s[pos] == '-') {
          pos := pos + 1;
        }
        assert u[SignLen(u)..] == Ahead();
        SkipDigits();
      }
    }

    method SkipDigits()
      requires Valid()
      modifies this`pos
      ensures Valid() && pos == old(pos) + Digits(old(Ahead()))
    {
      while pos < |s| && IsDigit(s[pos])
        invariant old(pos) <= pos <= |s|
        invariant old(pos) + Digits(old(Ahead())) == pos + Digits(s[pos..])
      {
        assert s[pos..][1..] == s[pos + 1..];
        pos := pos + 1;
      }
    }

    method ParseLiteral(w: Word) returns (r: Option<Json>)
      requires Valid()
      modifies this`pos
      ensures old(pos) <= pos
      ensures Read(WordAt(SkipWs(old(Ahead())), w), r)
    {
      Skip();
      var lit := WordYield(w);
      if pos + |lit| > |s| {
        return None;
      }
      assert s[pos..pos + |lit|] == s[pos..][..|lit|];
      if s[pos..pos + |lit|] != lit {
        return None;
      }
      assert s[pos + |lit|..] == s[pos..][|lit|..];
      pos := pos + |lit|;
      return Some(WordMeaning(w));
    }

    method ParseValue() returns (r: Option<Json>)
      requires Valid()
      modifies this`pos
      ensures old(pos) <= pos
      ensures Read(Value(stod, old(Ahead())), r)
      decreases |s| - pos, 2
    {
      ghost var ahead := Ahead();
      Skip();
      ValueSkips(stod, "", ahead);
      if pos >= |s| {
        return None;
      }
      var c := s[pos];
      if c == '"' {
        var x := ParseString();
        return if x.Some? then Some(Str(x.value)) else None;
      } else if c == '{' {
        r := ParseObject();
      } else if c == '[' {
        r := ParseArray();
      } else if c == 't' {
        r := ParseLiteral(TrueWord);
      } else if c == 'f' {
        r := ParseLiteral(FalseWord);
      } else if c == 'n' {
        r := ParseLiteral(NullWord);
      } else if c == '-' || IsDigit(c) {
        r := ParseNumber();
      } else {
        r := None;
      }
    }

    method ParseArray() returns (r: Option<Json>)
      requires Valid() && pos < |s| && s[pos] == '['
      modifies this`pos
      ensures old(pos) <= pos
      ensures Read(Value(stod, old(Ahead())), r)
      decreases |s| - pos, 1
    {
      ghost var t := Ahead();
      var open := Consume('[');
      assert open && SkipWs(t) == t;
      var a := [];
      var empty := Consume(']');
      if empty {
        return Some(Arr(a));
      }
      ghost var start := Ahead();
      PrefixedNone(Elements(stod, start));
      while true
        invariant Valid() && old(pos) < pos
        invariant Elements(stod, start) == Prefixed(a, Elements(stod, Ahead()))
        decreases |s| - pos
      {
        ghost var here := Ahead();
        var v := ParseValue();
        if v.None? {
          return None;
        }
        assert |Ahead()| < |here|;
        ElementsUnfold(stod, here, v.value, Ahead());
        PrefixedTwice(a, [v.value], Elements(stod, SkipTo(Ahead())));
        a := a + [v.value];
        var comma := Consume(',');
        if comma {
          continue;
        }
        var close := Consume(']');
        return if close then Some(Arr(a)) else None;
      }
    }

    method ParseObject() returns (r: Option<Json>)
      requires Valid() && pos < |s| && s[pos] == '{'
      modifies this`pos
      ensures old(pos) <= pos
      ensures Read(Value(stod, old(Ahead())), r)
      decreases |s| - pos, 1
    {
      ghost var t := Ahead();
      var open := Consume('{');
      assert open && SkipWs(t) == t;
      var o := [];
      var empty := Consume('}');
      if empty {
        return Some(Obj(o));
      }
      ghost var start := Ahead();
      ghost var pairs := [];
      PrefixedNone(Members(stod, start));
      while true
        invariant Valid() && old(pos) < pos
        invariant o == Collect([], pairs)
        invariant Members(stod, start) == Prefixed(pairs, Members(stod, Ahead()))
        decreases |s| - pos
      {
        ghost var here := Ahead();
        var k := ParseKey();
        if k.None? {
          return None;
        }
        assert |Ahead()| < |here|;
        ghost var there := Ahead();
        var v := ParseValue();
        if v.None? {
          return None;
        }
        assert |Ahead()| < |here|;
        ghost var m := Member(k.value, v.value);
        MembersUnfold(stod, here, k.value, there, v.value, Ahead());
        PrefixedTwice(pairs, [m], Members(stod, SkipTo(Ahead())));
        CollectOneMore([], pairs, m);
        o := Emplace(o, k.value, v.value);
        pairs := pairs + [m];
        var comma := Consume(',');
        if comma {
          continue;
        }
        var close := Consume('}');
        return if close then Some(Obj(o)) else None;
      }
    }

    method ParseKey() returns (k: Option<string>)
      requires Valid()
      modifies this`pos
      ensures old(pos) <= pos
      ensures Read(KeyAt(old(Ahead())), k)
    {
      k := ParseString();
      if k.Some? {
        var colon := Consume(':');
        if !colon {
          return None;
        }
      }
    }
  }

  lemma HexAhead(t: string)
    requires |t| >= 2
    ensures |t| >= 6 ==> t[2..6] == t[2..][..4] && t[6..] == t[2..][4..]
    ensures |t| >= 6 ==>
              ((forall i :: 2 <= i < 6 ==> IsHex(t[i])) <==> (forall i :: 0 <= i < 4 ==> IsHex(t[2..][i])))
  {
    if |t| >= 6 {
      assert forall i :: 2 <= i < 6 ==> t[i] == t[2..][i - 2];
      assert forall i :: 0 <= i < 4 ==> t[2..][i] == t[2 + i];
    }
  }

  lemma {:induction false} CollectOneMore(ms: seq<Member>, pairs: seq<Member>, m: Member)
    ensures Collect(ms, pairs + [m]) == Emplace(Collect(ms, pairs), m.key, m.val)
    decreases |pairs|
  {
    if pairs == [] {
      assert [m][1..] == [];
    } else {
      assert (pairs + [m])[1..] == pairs[1..] + [m];
      CollectOneMore(Emplace(ms, pairs[0].key, pairs[0].val), pairs[1..], m);
    }
  }

  /** `parse`: the parser run on a whole text. */
  method ParseText(stod: Stod, text: string) returns (r: Option<Json>)
    ensures r == Parse(stod, text)
  {
    var p := new Parser(text, stod);
    assert p.Ahead() == text;
    r := p.ParseValue();
    if r.Some? {
      p.Skip();
      if p.pos != |text| {
        return None;
      }
    }
  }
}
