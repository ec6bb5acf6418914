/**
 The parser accepts exactly the grammar, with exactly the grammar's values.
 */
module JsonTheorems {
  import opened Wrappers
  import opened JsonValues
  import opened JsonGrammar
  import opened JsonReader

  // Soundness: whatever is read has a derivation

  lemma {:induction false} LeadingWs(s: string) returns (ws: string)
    ensures AllWs(ws) && s == ws + SkipWs(s)
  {
    if s != "" && IsWs(s[0]) {
      var w := LeadingWs(s[1..]);
      ws := [s[0]] + w;
      assert s == [s[0]] + s[1..];
    } else {
      ws := "";
    }
  }

  /** The unit in front of a string literal that can be read to its end. */
  lemma FirstUnit(s: string) returns (u: Unit)
    requires Chars(s).Some? && s[0] != '"'
    ensures UnitOk(u) && |UnitYield(u)| <= |s| && s[..|UnitYield(u)|] == UnitYield(u)
  {
    if s[0] != '\\' {
      u := Plain(s[0]);
    } else if s[1] == 'u' {
      u := Hex(s[2..6]);
      assert s[..6] == "\\u" + s[2..6];
    } else {
      u := Escape(s[1]);
    }
  }

  lemma {:induction false} SoundChars(s: string) returns (us: seq<Unit>)
    requires Chars(s).Some?
    ensures UnitsOk(us) && Chars(s).value.0 == UnitsMeaning(us)
    ensures s == UnitsYield(us) + ("\"" + Chars(s).value.1)
    decreases |s|
  {
    if s[0] == '"' {
      us := [];
      assert s == "" + ("\"" + s[1..]);
    } else {
      var u := FirstUnit(s);
      var front, rest := UnitYield(u), s[|UnitYield(u)|..];
      assert s == front + rest;
      CharsOver(u, rest);
      var tail := SoundChars(rest);
      us := [u] + tail;
      assert us[1..] == tail;
      Regroup(front, UnitsYield(tail), "\"" + Chars(s).value.1);
    }
  }

  lemma QuotedIs(us: seq<Unit>, rest: string)
    ensures Quoted(us) + rest == "\"" + (UnitsYield(us) + ("\"" + rest))
  {
    Regroup("\"" + UnitsYield(us), "\"", rest);
    Regroup("\"", UnitsYield(us), "\"" + rest);
  }

  lemma {:induction false} DigitsAre(s: string)
    ensures AllDigits(s[..Digits(s)])
  {
    if s != "" && IsDigit(s[0]) {
      DigitsAre(s[1..]);
      assert s[..Digits(s)] == [s[0]] + s[1..][..Digits(s[1..])];
    }
  }

  lemma SoundFraction(s: string) returns (frac: Option<string>)
    ensures frac.Some? ==> AllDigits(frac.value)
    ensures s[..FractionLen(s)] == FractionYield(frac)
  {
    if s != "" && s[0] == '.' {
      DigitsAre(s[1..]);
      frac := Some(s[1..][..Digits(s[1..])]);
    } else {
      frac := None;
    }
  }

  lemma SoundExponent(s: string) returns (exp: Option<Exponent>)
    ensures LexemeOk(Lexeme(true, "", None, exp))
    ensures s[..ExponentLen(s)] == ExponentYield(exp)
  {
    if s != "" && (s[0] == 'e' || s[0] == 'E') {
      var t := s[1..];
      var n := SignLen(t);
      var ds := t[n..][..Digits(t[n..])];
      DigitsAre(t[n..]);
      exp := Some(Exponent(s[0], t[..n], ds));
      assert t[..SignedDigitsLen(t)] == t[..n] + ds;
      assert s[..ExponentLen(s)] == [s[0]] + t[..SignedDigitsLen(t)];
    } else {
      exp := None;
    }
  }

  lemma TakeTwice(s: string, a: nat, b: nat)
    requires a + b <= |s|
    ensures s[..a + b] == s[..a] + s[a..][..b]
  {
  }

  lemma SoundFractionExponent(s: string) returns (x: Lexeme)
    ensures LexemeOk(x) && x.minus && x.digits == ""
    ensures s[..FractionExponentLen(s)] == FractionYield(x.frac) + ExponentYield(x.exp)
  {
    var u := s[FractionLen(s)..];
    var frac := SoundFraction(s);
    var exp := SoundExponent(u);
    x := Lexeme(true, "", frac, exp);
    TakeTwice(s, FractionLen(s), ExponentLen(u));
  }

  lemma SoundUnsigned(s: string) returns (x: Lexeme)
    ensures LexemeOk(x.(minus := true)) && !x.minus && x.digits == s[..Digits(s)]
    ensures s[..UnsignedLen(s)] == x.digits + (FractionYield(x.frac) + ExponentYield(x.exp))
  {
    var n := Digits(s);
    DigitsAre(s);
    var y := SoundFractionExponent(s[n..]);
    x := Lexeme(false, s[..n], y.frac, y.exp);
    TakeTwice(s, n, FractionExponentLen(s[n..]));
  }

  lemma SoundLexeme(s: string) returns (x: Lexeme)
    requires s != "" && (s[0] == '-' || IsDigit(s[0]))
    ensures LexemeOk(x) && s[..LexemeLen(s)] == LexemeYield(x)
  {
    if s[0] == '-' {
      var y := SoundUnsigned(s[1..]);
      x := Lexeme(true, y.digits, y.frac, y.exp);
      TakeTwice(s, 1, UnsignedLen(s[1..]));
      assert s[..1] == "-" && s[..LexemeLen(s)] == "-" + s[1..][..UnsignedLen(s[1..])];
    } else {
      x := SoundUnsigned(s);
      assert "" + s[..LexemeLen(s)] == s[..LexemeLen(s)];
    }
  }

  ghost predicate Spells(stod: Stod, t: Tree, s: string, v: Json, rest: string) {
    Ok(stod, t) && s == Yield(t) + rest && v == Meaning(stod, t)
  }

  /** Whatever value is read, some derivation spells the text that was consumed and has that value. */
  lemma {:induction false} SoundValue(stod: Stod, s: string) returns (t: Tree)
    requires Value(stod, s).Some?
    ensures Spells(stod, t, s, Value(stod, s).value.0, Value(stod, s).value.1)
    decreases |s|, 2
  {
    var lead := LeadingWs(s);
    var u := SkipWs(s);
    var b := SoundBody(stod, s, u);
    t := Tree(lead, b);
    Regroup(lead, BodyYield(b), Value(stod, s).value.1);
  }

  lemma {:induction false} SoundBody(stod: Stod, s: string, u: string) returns (b: Body)
    requires u == SkipWs(s) && Value(stod, s).Some?
    ensures BodyOk(stod, b) && Value(stod, s).value.0 == BodyMeaning(stod, b)
    ensures u == BodyYield(b) + Value(stod, s).value.1
    decreases |s|, 1
  {
    if u[0] == '"' {
      b := SoundText(stod, u);
    } else if u[0] == '[' {
      b := SoundArray(stod, u);
    } else if u[0] == '{' {
      b := SoundObject(stod, u);
    } else if u[0] == 't' || u[0] == 'f' || u[0] == 'n' {
      b := Word(if u[0] == 't' then TrueWord else if u[0] == 'f' then FalseWord else NullWord);
    } else {
      b := SoundNumeral(stod, u);
    }
  }

  lemma SoundText(stod: Stod, u: string) returns (b: Body)
    requires u != "" && u[0] == '"' && Chars(u[1..]).Some?
    ensures BodyOk(stod, b) && BodyMeaning(stod, b) == Str(Chars(u[1..]).value.0)
    ensures u == BodyYield(b) + Chars(u[1..]).value.1
  {
    var us := SoundChars(u[1..]);
    b := Text(us);
    assert u == "\"" + u[1..];
    QuotedIs(us, Chars(u[1..]).value.1);
  }

  lemma SoundNumeral(stod: Stod, u: string) returns (b: Body)
    requires u != "" && (u[0] == '-' || IsDigit(u[0])) && NumberAt(stod, u).Some?
    ensures BodyOk(stod, b) && BodyMeaning(stod, b) == NumberAt(stod, u).value.0
    ensures u == BodyYield(b) + NumberAt(stod, u).value.1
  {
    var x := SoundLexeme(u);
    b := Numeral(x);
  }

  lemma {:induction false} SoundArray(stod: Stod, u: string) returns (b: Body)
    requires u != "" && u[0] == '[' && SkipWs(u) == u && Value(stod, u).Some?
    ensures BodyOk(stod, b) && Value(stod, u).value.0 == BodyMeaning(stod, b)
    ensures u == BodyYield(b) + Value(stod, u).value.1
    decreases |u|, 0
  {
    var rest := Value(stod, u).value.1;
    var w := SkipWs(u[1..]);
    assert u == "[" + u[1..];
    if w != "" && w[0] == ']' {
      var ws := LeadingWs(u[1..]);
      b := Array([], ws);
      assert w == "]" + rest;
      Regroup(ws, "]", rest);
      Regroup("[", ws + "]", rest);
    } else {
      ValueSkips(stod, "", u[1..]);
      var items := SoundElements(stod, u[1..]);
      b := Array(items, "");
      Regroup("[", ItemsYield(items), rest);
    }
  }

  lemma {:induction false} SoundObject(stod: Stod, u: string) returns (b: Body)
    requires u != "" && u[0] == '{' && SkipWs(u) == u && Value(stod, u).Some?
    ensures BodyOk(stod, b) && Value(stod, u).value.0 == BodyMeaning(stod, b)
    ensures u == BodyYield(b) + Value(stod, u).value.1
    decreases |u|, 0
  {
    var rest := Value(stod, u).value.1;
    var w := SkipWs(u[1..]);
    assert u == "{" + u[1..];
    if w != "" && w[0] == '}' {
      var ws := LeadingWs(u[1..]);
      b := Object([], ws);
      assert w == "}" + rest;
      Regroup(ws, "}", rest);
      Regroup("{", ws + "}", rest);
    } else {
      ValueSkips(stod, "", u[1..]);
      var fields := SoundMembers(stod, u[1..]);
      b := Object(fields, "");
      Regroup("{", FieldsYield(fields), rest);
    }
  }

  /** One more item in front of a comma, or the last item. */
  lemma ItemFront(stod: Stod, t: Tree, after: string, items: seq<Item>, rest: string)
    requires Ok(stod, t) && AllWs(after) && ItemsOk(stod, items)
    ensures var all := [Item(t, after)] + items;
            && ItemsOk(stod, all)
            && ItemsMeaning(stod, all) == [Meaning(stod, t)] + ItemsMeaning(stod, items)
            && ItemsYield(all) + rest
               == Yield(t) + (after + ((if items == [] then "]" else "," + ItemsYield(items)) + rest))
  {
    var all := [Item(t, after)] + items;
    assert all[1..] == items;
    var tail := if items == [] then "]" else "," + ItemsYield(items);
    Regroup(Yield(t), after + tail, rest);
    Regroup(after, tail, rest);
  }

  lemma {:induction false} SoundElements(stod: Stod, s: string) returns (items: seq<Item>)
    requires Elements(stod, s).Some?
    ensures items != [] && ItemsOk(stod, items) && Elements(stod, s).value.0 == ItemsMeaning(stod, items)
    ensures s == ItemsYield(items) + Elements(stod, s).value.1
    decreases |s|, 3
  {
    var t := SoundValue(stod, s);
    var (v, r) := Value(stod, s).value;
    var after := LeadingWs(r);
    var u := SkipWs(r);
    ElementsUnfold(stod, s, v, r);
    var tail := [];
    if u[0] == ',' {
      tail := SoundElements(stod, u[1..]);
    }
    items := [Item(t, after)] + tail;
    ItemFront(stod, t, after, tail, Elements(stod, s).value.1);
    AfterElement(u, tail, Elements(stod, s).value.1);
  }

  lemma AfterElement(u: string, tail: seq<Item>, rest: string)
    requires u != "" && if tail == [] then u[0] == ']' && rest == u[1..]
                        else u[0] == ',' && u[1..] == ItemsYield(tail) + rest
    ensures u == (if tail == [] then "]" else "," + ItemsYield(tail)) + rest
  {
    assert u == [u[0]] + u[1..];
    if tail != [] {
      Regroup(",", ItemsYield(tail), rest);
    }
  }

  /** The key part of a field, as read. */
  lemma SoundKey(s: string) returns (lead: string, key: seq<Unit>, gap: string)
    requires KeyAt(s).Some?
    ensures AllWs(lead) && UnitsOk(key) && AllWs(gap) && KeyAt(s).value.0 == UnitsMeaning(key)
    ensures s == lead + (Quoted(key) + (gap + (":" + KeyAt(s).value.1)))
  {
    lead := LeadingWs(s);
    var t := SkipWs(s);
    key := SoundChars(t[1..]);
    var r := Chars(t[1..]).value.1;
    gap := LeadingWs(r);
    var c := SkipWs(r);
    assert c == ":" + KeyAt(s).value.1;
    assert t == "\"" + t[1..];
    QuotedIs(key, r);
  }

  lemma FieldFront(stod: Stod, f: Field, fs: seq<Field>, rest: string)
    requires FieldsOk(stod, [f]) && FieldsOk(stod, fs)
    ensures var all := [f] + fs;
            && FieldsOk(stod, all)
            && FieldsMeaning(stod, all)
               == [Member(UnitsMeaning(f.key), Meaning(stod, f.val))] + FieldsMeaning(stod, fs)
            && FieldsYield(all) + rest
               == f.lead + (Quoted(f.key) + (f.gap + (":" + (Yield(f.val)
                  + (f.after + ((if fs == [] then "}" else "," + FieldsYield(fs)) + rest))))))
  {
    var all := [f] + fs;
    assert all[1..] == fs && all[0] == [f][0] == f;
    FieldShape(f, Yield(f.val), if fs == [] then "}" else "," + FieldsYield(fs), rest);
  }

  lemma {:induction false} SoundMembers(stod: Stod, s: string) returns (fs: seq<Field>)
    requires Members(stod, s).Some?
    ensures fs != [] && FieldsOk(stod, fs) && Members(stod, s).value.0 == FieldsMeaning(stod, fs)
    ensures s == FieldsYield(fs) + Members(stod, s).value.1
    decreases |s|, 3
  {
    var lead, key, gap := SoundKey(s);
    var (k, there) := KeyAt(s).value;
    var t := SoundValue(stod, there);
    var (v, r) := Value(stod, there).value;
    var after := LeadingWs(r);
    var u := SkipWs(r);
    MembersUnfold(stod, s, k, there, v, r);
    var f := Field(lead, key, gap, t, after);
    var tail := [];
    if u[0] == ',' {
      tail := SoundMembers(stod, u[1..]);
    }
    fs := [f] + tail;
    FieldFront(stod, f, tail, Members(stod, s).value.1);
    AfterMember(u, tail, Members(stod, s).value.1);
  }

  lemma AfterMember(u: string, tail: seq<Field>, rest: string)
    requires u != "" && if tail == [] then u[0] == '}' && rest == u[1..]
                        else u[0] == ',' && u[1..] == FieldsYield(tail) + rest
    ensures u == (if tail == [] then "}" else "," + FieldsYield(tail)) + rest
  {
    assert u == [u[0]] + u[1..];
    if tail != [] {
      Regroup(",", FieldsYield(tail), rest);
    }
  }

  // The theorems

  lemma {:induction false} OnlySpace(s: string)
    ensures SkipWs(s) == "" <==> AllWs(s)
  {
    if s != "" && IsWs(s[0]) {
      OnlySpace(s[1..]);
    }
  }

  /**
   The parser accepts a text with value `v` exactly when the grammar derives the text with that value.
   Hence it rejects exactly the underivable texts, and no text has two derivable values.
   */
  lemma ParseIsTheGrammar(stod: Stod, text: string, v: Json)
    ensures Parse(stod, text) == Some(v) <==> exists t, tail :: Derives(stod, t, tail, text, v)
  {
    if Parse(stod, text) == Some(v) {
      var t := SoundValue(stod, text);
      var tail := Value(stod, text).value.1;
      OnlySpace(tail);
      assert Derives(stod, t, tail, text, v);
    }
    if t, tail :| Derives(stod, t, tail, text, v) {
      StopsAtDelimiter(tail, "");
      assert tail + "" == tail;
      CompleteValue(stod, t, tail);
      OnlySpace(tail);
    }
  }

  lemma DerivationsAreParsed(stod: Stod, t: Tree, tail: string)
    requires Ok(stod, t) && AllWs(tail)
    ensures Parse(stod, Yield(t) + tail) == Some(Meaning(stod, t))
  {
    assert Derives(stod, t, tail, Yield(t) + tail, Meaning(stod, t));
    ParseIsTheGrammar(stod, Yield(t) + tail, Meaning(stod, t));
  }

  // White space

  /** The same derivation without any space between tokens. */
  ghost function Squeeze(t: Tree): Tree {
    Tree("", match t.body
             case Array(items, _) => Array(SqueezeItems(items), "")
             case Object(fields, _) => Object(SqueezeFields(fields), "")
             case b => b)
  }

  ghost function SqueezeItems(items: seq<Item>): seq<Item> {
    if items == [] then [] else [Item(Squeeze(items[0].val), "")] + SqueezeItems(items[1..])
  }

  ghost function SqueezeFields(fs: seq<Field>): seq<Field> {
    if fs == [] then []
    else [Field("", fs[0].key, "", Squeeze(fs[0].val), "")] + SqueezeFields(fs[1..])
  }

  lemma {:induction false} SqueezeKeepsMeaning(stod: Stod, t: Tree)
    requires Ok(stod, t)
    ensures Ok(stod, Squeeze(t)) && Meaning(stod, Squeeze(t)) == Meaning(stod, t)
    decreases t
  {
    match t.body
    case Array(items, _) => SqueezeItemsMeaning(stod, items);
    case Object(fields, _) => SqueezeFieldsMeaning(stod, fields);
    case _ =>
  }

  lemma {:induction false} SqueezeItemsMeaning(stod: Stod, items: seq<Item>)
    requires ItemsOk(stod, items)
    ensures ItemsOk(stod, SqueezeItems(items))
    ensures ItemsMeaning(stod, SqueezeItems(items)) == ItemsMeaning(stod, items)
    decreases items
  {
    if items != [] {
      SqueezeKeepsMeaning(stod, items[0].val);
      SqueezeItemsMeaning(stod, items[1..]);
      assert SqueezeItems(items)[1..] == SqueezeItems(items[1..]);
    }
  }

  lemma {:induction false} SqueezeFieldsMeaning(stod: Stod, fs: seq<Field>)
    requires FieldsOk(stod, fs)
    ensures FieldsOk(stod, SqueezeFields(fs))
    ensures FieldsMeaning(stod, SqueezeFields(fs)) == FieldsMeaning(stod, fs)
    decreases fs
  {
    if fs != [] {
      SqueezeKeepsMeaning(stod, fs[0].val);
      SqueezeFieldsMeaning(stod, fs[1..]);
      assert SqueezeFields(fs)[1..] == SqueezeFields(fs[1..]);
    }
  }

  /** Two spacings of the same tokens are both accepted, with the same value. */
  lemma SpacingIsIrrelevant(stod: Stod, a: Tree, aTail: string, b: Tree, bTail: string)
    requires Ok(stod, a) && AllWs(aTail) && Ok(stod, b) && AllWs(bTail)
    requires Squeeze(a) == Squeeze(b)
    ensures Parse(stod, Yield(a) + aTail).Some?
    ensures Parse(stod, Yield(a) + aTail) == Parse(stod, Yield(b) + bTail) == Parse(stod, Yield(Squeeze(a)))
  {
    SqueezeKeepsMeaning(stod, a);
    SqueezeKeepsMeaning(stod, b);
    DerivationsAreParsed(stod, a, aTail);
    DerivationsAreParsed(stod, b, bTail);
    DerivationsAreParsed(stod, Squeeze(a), "");
    assert Yield(Squeeze(a)) + "" == Yield(Squeeze(a));
  }

  // More lexemes that can be read

  ghost predicate Extends(stod: Stod, more: Stod) {
    forall s :: stod(s).Some? ==> more(s) == stod(s)
  }

  lemma {:induction false} ExtendsMeaning(stod: Stod, more: Stod, t: Tree)
    requires Extends(stod, more) && Ok(stod, t)
    ensures Ok(more, t) && Meaning(more, t) == Meaning(stod, t)
    decreases t
  {
    match t.body
    case Array(items, _) => ExtendsItems(stod, more, items);
    case Object(fields, _) => ExtendsFields(stod, more, fields);
    case _ =>
  }

  lemma {:induction false} ExtendsItems(stod: Stod, more: Stod, items: seq<Item>)
    requires Extends(stod, more) && ItemsOk(stod, items)
    ensures ItemsOk(more, items) && ItemsMeaning(more, items) == ItemsMeaning(stod, items)
    decreases items
  {
    if items != [] {
      ExtendsMeaning(stod, more, items[0].val);
      ExtendsItems(stod, more, items[1..]);
    }
  }

  lemma {:induction false} ExtendsFields(stod: Stod, more: Stod, fs: seq<Field>)
    requires Extends(stod, more) && FieldsOk(stod, fs)
    ensures FieldsOk(more, fs) && FieldsMeaning(more, fs) == FieldsMeaning(stod, fs)
    decreases fs
  {
    if fs != [] {
      ExtendsMeaning(stod, more, fs[0].val);
      ExtendsFields(stod, more, fs[1..]);
    }
  }

  /** A library that can read more lexemes gives the same value for every text that was accepted before. */
  lemma ParseExtends(stod: Stod, more: Stod, text: string)
    requires Extends(stod, more) && Parse(stod, text).Some?
    ensures Parse(more, text) == Parse(stod, text)
  {
    var v := Parse(stod, text).value;
    ParseIsTheGrammar(stod, text, v);
    var t, tail :| Derives(stod, t, tail, text, v);
    ExtendsMeaning(stod, more, t);
    DerivationsAreParsed(more, t, tail);
  }

  // Parsed values are well formed

  lemma {:induction false} CollectWellFormed(ms: seq<Member>, pairs: seq<Member>)
    requires WellFormed(Obj(ms)) && forall i :: 0 <= i < |pairs| ==> WellFormed(pairs[i].val)
    ensures WellFormed(Obj(Collect(ms, pairs)))
    decreases |pairs|
  {
    if pairs != [] {
      EmplaceIsMapInsert(ms, pairs[0].key, pairs[0].val);
      EmplaceMembers(ms, pairs[0].key, pairs[0].val);
      var more := Emplace(ms, pairs[0].key, pairs[0].val);
      forall i | 0 <= i < |more| ensures WellFormed(more[i].val) {
        assert more[i] in more;
      }
      CollectWellFormed(Emplace(ms, pairs[0].key, pairs[0].val), pairs[1..]);
    }
  }

  lemma {:induction false} EmplaceMembers(ms: seq<Member>, k: string, v: Json)
    ensures forall m :: m in Emplace(ms, k, v) ==> m in ms || m == Member(k, v)
  {
    if !(ms == [] || Less(k, ms[0].key)) && ms[0].key != k {
      EmplaceMembers(ms[1..], k, v);
    }
  }

  lemma {:induction false} MeaningWellFormed(stod: Stod, t: Tree)
    requires Ok(stod, t)
    ensures WellFormed(Meaning(stod, t))
    decreases t
  {
    match t.body
    case Array(items, _) => ItemsWellFormed(stod, items);
    case Object(fields, _) =>
      FieldsWellFormed(stod, fields);
      CollectWellFormed([], FieldsMeaning(stod, fields));
    case _ =>
  }

  lemma {:induction false} ItemsWellFormed(stod: Stod, items: seq<Item>)
    requires ItemsOk(stod, items)
    ensures WellFormed(Arr(ItemsMeaning(stod, items)))
    decreases items
  {
    if items != [] {
      MeaningWellFormed(stod, items[0].val);
      ItemsWellFormed(stod, items[1..]);
    }
  }

  lemma {:induction false} FieldsWellFormed(stod: Stod, fs: seq<Field>)
    requires FieldsOk(stod, fs)
    ensures forall i :: 0 <= i < |FieldsMeaning(stod, fs)| ==> WellFormed(FieldsMeaning(stod, fs)[i].val)
    decreases fs
  {
    if fs != [] {
      MeaningWellFormed(stod, fs[0].val);
      FieldsWellFormed(stod, fs[1..]);
    }
  }

  /** Every object in a parsed value is a map, and the first of several members with one key is the one kept. */
  lemma ParsedIsWellFormed(stod: Stod, text: string)
    requires Parse(stod, text).Some?
    ensures WellFormed(Parse(stod, text).value)
  {
    var t := SoundValue(stod, text);
    MeaningWellFormed(stod, t);
  }

  lemma ObjectKeepsFirst(stod: Stod, fields: seq<Field>, close: string)
    requires BodyOk(stod, Object(fields, close))
    ensures var v := BodyMeaning(stod, Object(fields, close));
            v.Obj? && Sorted(v.members) && AsMap(v.members) == AsMap(FieldsMeaning(stod, fields))
  {
    CollectKeepsFirst([], FieldsMeaning(stod, fields));
  }
}
