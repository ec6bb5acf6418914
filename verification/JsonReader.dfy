/**
 What the parser reads at the front of a text, as functions from the text ahead to a value and the text left over.
 `Complete...` and `Sound...` show that this is exactly the grammar.
 */
module JsonReader {
  import opened Wrappers
  import opened JsonValues
  import opened JsonGrammar

  function SkipWs(s: string): (r: string)
    ensures |r| <= |s|
    ensures r != "" ==> !IsWs(r[0])
  {
    if s != "" && IsWs(s[0]) then SkipWs(s[1..]) else s
  }

  /** The content of a string literal whose opening quote has been read. */
  function Chars(s: string): (r: Option<(string, string)>)
    ensures r.Some? ==> |r.value.1| < |s|
    decreases |s|
  {
    if s == "" then None
    else if s[0] == '"' then Some(("", s[1..]))
    else if s[0] != '\\' then
      var (t, rest) :- Chars(s[1..]);
      Some(([s[0]] + t, rest))
    else if |s| == 1 then None
    else if s[1] == 'u' then
      if |s| < 6 || !(forall i :: 2 <= i < 6 ==> IsHex(s[i])) then None
      else
        HexValueBound(s[2..6]);
        var (t, rest) :- Chars(s[6..]);
        Some((Utf8(HexValue(s[2..6])) + t, rest))
    else if !IsEscape(s[1]) then None
    else
      var (t, rest) :- Chars(s[2..]);
      Some(([Unescaped(s[1])] + t, rest))
  }

  /** The number of digits in front. */
  function Digits(s: string): (n: nat)
    ensures n <= |s|
  {
    if s == "" || !IsDigit(s[0]) then 0 else 1 + Digits(s[1..])
  }

  function FractionLen(s: string): (n: nat)
    ensures n <= |s|
  {
    if s != "" && s[0] == '.' then 1 + Digits(s[1..]) else 0
  }

  function SignLen(s: string): (n: nat)
    ensures n <= |s|
  {
    if s != "" && (s[0] == '+' || s[0] == '-') then 1 else 0
  }

  function SignedDigitsLen(s: string): (n: nat)
    ensures n <= |s|
  {
    SignLen(s) + Digits(s[SignLen(s)..])
  }

  function ExponentLen(s: string): (n: nat)
    ensures n <= |s|
  {
    if s != "" && (s[0] == 'e' || s[0] == 'E') then 1 + SignedDigitsLen(s[1..]) else 0
  }

  function FractionExponentLen(s: string): (n: nat)
    ensures n <= |s|
  {
    FractionLen(s) + ExponentLen(s[FractionLen(s)..])
  }

  function UnsignedLen(s: string): (n: nat)
    ensures n <= |s|
  {
    Digits(s) + FractionExponentLen(s[Digits(s)..])
  }

  /** The length of the longest number lexeme in front. */
  function LexemeLen(s: string): (n: nat)
    ensures n <= |s|
  {
    if s != "" && s[0] == '-' then 1 + UnsignedLen(s[1..]) else UnsignedLen(s)
  }

  function NumberAt(stod: Stod, s: string): (r: Option<(Json, string)>)
    ensures r.Some? ==> |r.value.1| < |s|
  {
    var n := LexemeLen(s);
    if n == 0 then None
    else
      var x :- NumberOf(stod, s[..n]);
      Some((Num(x), s[n..]))
  }

  function WordAt(s: string, w: Word): (r: Option<(Json, string)>)
    ensures r.Some? ==> |r.value.1| < |s|
  {
    var lit := WordYield(w);
    if |s| >= |lit| && s[..|lit|] == lit then Some((WordMeaning(w), s[|lit|..])) else None
  }

  /** A value, after any leading space. */
  function Value(stod: Stod, s: string): (r: Option<(Json, string)>)
    ensures r.Some? ==> |r.value.1| < |s|
    decreases |s|, 1
  {
    var t := SkipWs(s);
    if t == "" then None
    else if t[0] == '"' then
      var (x, rest) :- Chars(t[1..]);
      Some((Str(x), rest))
    else if t[0] == '{' then
      var u := SkipWs(t[1..]);
      if u != "" && u[0] == '}' then Some((Obj([]), u[1..]))
      else
        var (pairs, rest) :- Members(stod, u);
        Some((Obj(Collect([], pairs)), rest))
    else if t[0] == '[' then
      var u := SkipWs(t[1..]);
      if u != "" && u[0] == ']' then Some((Arr([]), u[1..]))
      else
        var (items, rest) :- Elements(stod, u);
        Some((Arr(items), rest))
    else if t[0] == 't' then WordAt(t, TrueWord)
    else if t[0] == 'f' then WordAt(t, FalseWord)
    else if t[0] == 'n' then WordAt(t, NullWord)
    else if t[0] == '-' || IsDigit(t[0]) then NumberAt(stod, t)
    else None
  }

  /** The elements of an array from here through its closing bracket. */
  function Elements(stod: Stod, s: string): (r: Option<(seq<Json>, string)>)
    ensures r.Some? ==> |r.value.1| < |s|
    decreases |s|, 2
  {
    var (v, rest) :- Value(stod, s);
    var t := SkipWs(rest);
    if t != "" && t[0] == ',' then
      var (vs, rest') :- Elements(stod, t[1..]);
      Some(([v] + vs, rest'))
    else if t != "" && t[0] == ']' then Some(([v], t[1..]))
    else None
  }

  /** The key of a member and its colon. */
  function KeyAt(s: string): (r: Option<(string, string)>)
    ensures r.Some? ==> |r.value.1| < |s|
  {
    var t := SkipWs(s);
    if t == "" || t[0] != '"' then None
    else
      var (k, rest) :- Chars(t[1..]);
      var u := SkipWs(rest);
      if u == "" || u[0] != ':' then None else Some((k, u[1..]))
  }

  /** The members of an object, in text order, from here through its closing brace. */
  function Members(stod: Stod, s: string): (r: Option<(seq<Member>, string)>)
    ensures r.Some? ==> |r.value.1| < |s|
    decreases |s|, 2
  {
    var (k, u) :- KeyAt(s);
    var (v, rest) :- Value(stod, u);
    var t := SkipWs(rest);
    if t != "" && t[0] == ',' then
      var (ms, rest') :- Members(stod, t[1..]);
      Some(([Member(k, v)] + ms, rest'))
    else if t != "" && t[0] == '}' then Some(([Member(k, v)], t[1..]))
    else None
  }

  /** `parse`: one value and nothing but space after it. */
  function Parse(stod: Stod, text: string): Option<Json> {
    var (v, rest) :- Value(stod, text);
    if SkipWs(rest) == "" then Some(v) else None
  }

  // Completeness: every derivable text is read as its tree says

  /** Nothing that could prolong a number lexeme follows. */
  predicate Stops(rest: string) {
    rest == "" ||
    !(IsDigit(rest[0]) || rest[0] == '.' || rest[0] == 'e' || rest[0] == 'E' || rest[0] == '+' || rest[0] == '-')
  }

  lemma {:induction false} SkipWsOver(ws: string, s: string)
    requires AllWs(ws)
    ensures SkipWs(ws + s) == SkipWs(s)
  {
    if ws == "" {
      assert ws + s == s;
    } else {
      assert (ws + s)[1..] == ws[1..] + s;
      SkipWsOver(ws[1..], s);
    }
  }

  lemma Split(a: string, b: string)
    ensures (a + b)[..|a|] == a && (a + b)[|a|..] == b
  {
  }

  lemma Regroup(a: string, b: string, c: string)
    ensures (a + b) + c == a + (b + c)
  {
  }

  /** One unit in front of the text that is still to be read. */
  lemma CharsOver(u: Unit, tail: string)
    requires UnitOk(u)
    ensures Chars(UnitYield(u) + tail)
         == match Chars(tail)
            case None => None
            case Some((t, rest)) => Some((UnitMeaning(u) + t, rest))
  {
    var s := UnitYield(u) + tail;
    Split(UnitYield(u), tail);
    match u
    case Plain(c) =>
    case Escape(e) =>
    case Hex(h) =>
      assert s[2..6] == h;
      assert forall i :: 0 <= i < 4 ==> s[2 + i] == h[i];
  }

  lemma {:induction false} CompleteChars(us: seq<Unit>, rest: string)
    requires UnitsOk(us)
    ensures Chars(UnitsYield(us) + ("\"" + rest)) == Some((UnitsMeaning(us), rest))
  {
    var close := "\"" + rest;
    if us == [] {
      assert "" + close == close && close[1..] == rest;
    } else {
      CompleteChars(us[1..], rest);
      CharsOver(us[0], UnitsYield(us[1..]) + close);
      Regroup(UnitYield(us[0]), UnitsYield(us[1..]), close);
    }
  }

  lemma QuotedFront(us: seq<Unit>, rest: string)
    ensures var s := Quoted(us) + rest; s[0] == '"' && s[1..] == UnitsYield(us) + ("\"" + rest)
  {
    Regroup("\"" + UnitsYield(us), "\"", rest);
    Regroup("\"", UnitsYield(us), "\"" + rest);
    Split("\"", UnitsYield(us) + ("\"" + rest));
  }

  lemma {:induction false} DigitsOver(ds: string, s: string)
    requires AllDigits(ds) && (s == "" || !IsDigit(s[0]))
    ensures Digits(ds + s) == |ds|
  {
    if ds == "" {
      assert ds + s == s;
    } else {
      assert (ds + s)[1..] == ds[1..] + s;
      DigitsOver(ds[1..], s);
    }
  }

  lemma FractionOver(frac: Option<string>, s: string)
    requires frac.Some? ==> AllDigits(frac.value)
    requires s == "" || (!IsDigit(s[0]) && s[0] != '.')
    ensures FractionLen(FractionYield(frac) + s) == |FractionYield(frac)|
  {
    match frac
    case None => assert "" + s == s;
    case Some(f) =>
      DigitsOver(f, s);
      Regroup(".", f, s);
      Split(".", f + s);
  }

  lemma SignedDigitsOver(sign: string, ds: string, s: string)
    requires sign == "" || sign == "+" || sign == "-"
    requires AllDigits(ds) && Stops(s)
    ensures SignedDigitsLen(sign + (ds + s)) == |sign| + |ds|
  {
    DigitsOver(ds, s);
    Split(sign, ds + s);
    assert sign == "" ==> sign + (ds + s) == ds + s;
  }

  lemma ExponentOver(exp: Exponent, s: string)
    requires exp.e == 'e' || exp.e == 'E'
    requires exp.sign == "" || exp.sign == "+" || exp.sign == "-"
    requires AllDigits(exp.digits) && Stops(s)
    ensures ExponentLen(ExponentYield(Some(exp)) + s) == |ExponentYield(Some(exp))|
  {
    SignedDigitsOver(exp.sign, exp.digits, s);
    Regroup(exp.sign, exp.digits, s);
    Regroup([exp.e], exp.sign + exp.digits, s);
    Split([exp.e], exp.sign + (exp.digits + s));
  }

  lemma FractionExponentOver(x: Lexeme, s: string)
    requires LexemeOk(x) && Stops(s)
    ensures FractionExponentLen(FractionYield(x.frac) + (ExponentYield(x.exp) + s))
         == |FractionYield(x.frac)| + |ExponentYield(x.exp)|
  {
    match x.exp {
      case None => assert "" + s == s;
      case Some(exp) => ExponentOver(exp, s);
    }
    FractionOver(x.frac, ExponentYield(x.exp) + s);
    Split(FractionYield(x.frac), ExponentYield(x.exp) + s);
  }

  lemma UnsignedOver(x: Lexeme, s: string)
    requires LexemeOk(x) && Stops(s)
    ensures UnsignedLen(x.digits + (FractionYield(x.frac) + (ExponentYield(x.exp) + s)))
         == |x.digits| + |FractionYield(x.frac)| + |ExponentYield(x.exp)|
  {
    var t := FractionYield(x.frac) + (ExponentYield(x.exp) + s);
    FractionExponentOver(x, s);
    DigitsOver(x.digits, t);
    Split(x.digits, t);
  }

  lemma CompleteLexeme(x: Lexeme, s: string)
    requires LexemeOk(x) && Stops(s)
    ensures LexemeLen(LexemeYield(x) + s) == |LexemeYield(x)|
  {
    var f, e := FractionYield(x.frac), ExponentYield(x.exp);
    UnsignedOver(x, s);
    Regroup(f, e, s);
    Regroup(x.digits, f + e, s);
    Regroup(MinusYield(x.minus), x.digits + (f + e), s);
    var t := x.digits + (f + (e + s));
    if x.minus {
      Split("-", t);
    } else {
      assert "" + t == t && t[0] == x.digits[0];
    }
  }

  lemma CompleteWord(w: Word, rest: string)
    ensures WordAt(WordYield(w) + rest, w) == Some((WordMeaning(w), rest))
  {
    var s := WordYield(w) + rest;
    assert s[..|WordYield(w)|] == WordYield(w) && s[|WordYield(w)|..] == rest;
  }

  /** Where a value ends inside an array, an object or the whole text, no number can go on. */
  lemma StopsAtDelimiter(ws: string, s: string)
    requires AllWs(ws) && Stops(s)
    ensures Stops(ws + s)
  {
    if ws == "" {
      assert ws + s == s;
    }
  }

  lemma ValueSkips(stod: Stod, ws: string, s: string)
    requires AllWs(ws)
    ensures Value(stod, ws + s) == Value(stod, s)
    ensures SkipWs(SkipWs(s)) == SkipWs(s)
    ensures Elements(stod, SkipWs(s)) == Elements(stod, s)
    ensures Members(stod, SkipWs(s)) == Members(stod, s)
  {
    SkipWsOver(ws, s);
    assert Value(stod, SkipWs(s)) == Value(stod, s);
    assert KeyAt(SkipWs(s)) == KeyAt(s);
  }

  /** A derivable value is read in full and reading stops exactly at its end. */
  lemma {:induction false} CompleteValue(stod: Stod, t: Tree, rest: string)
    requires Ok(stod, t) && (t.body.Numeral? ==> Stops(rest))
    ensures Value(stod, Yield(t) + rest) == Some((Meaning(stod, t), rest))
    decreases t, 1
  {
    Regroup(t.lead, BodyYield(t.body), rest);
    ValueSkips(stod, t.lead, BodyYield(t.body) + rest);
    CompleteBody(stod, t.body, rest);
  }

  lemma {:induction false} CompleteBody(stod: Stod, b: Body, rest: string)
    requires BodyOk(stod, b) && (b.Numeral? ==> Stops(rest))
    ensures Value(stod, BodyYield(b) + rest) == Some((BodyMeaning(stod, b), rest))
    decreases b, 1
  {
    match b {
      case Word(w) => CompleteWord(w, rest);
      case Numeral(x) => CompleteNumeral(stod, x, rest);
      case Text(us) => CompleteText(stod, us, rest);
      case Array(items, close) =>
        if items == [] {
          CompleteEmpty(stod, "[", close, "]", rest);
        } else {
          CompleteArray(stod, items, rest);
        }
      case Object(fields, close) =>
        if fields == [] {
          CompleteEmpty(stod, "{", close, "}", rest);
        } else {
          CompleteObject(stod, fields, rest);
        }
    }
  }

  lemma CompleteText(stod: Stod, us: seq<Unit>, rest: string)
    requires UnitsOk(us)
    ensures Value(stod, Quoted(us) + rest) == Some((Str(UnitsMeaning(us)), rest))
  {
    CompleteChars(us, rest);
    QuotedFront(us, rest);
    ValueIsString(stod, Quoted(us) + rest, UnitsMeaning(us), rest);
  }

  lemma ValueIsString(stod: Stod, s: string, x: string, rest: string)
    requires s != "" && s[0] == '"' && Chars(s[1..]) == Some((x, rest))
    ensures Value(stod, s) == Some((Str(x), rest))
  {
  }

  lemma ValueIsNumber(stod: Stod, s: string, x: Number, rest: string)
    requires s != "" && (s[0] == '-' || IsDigit(s[0])) && NumberAt(stod, s) == Some((Num(x), rest))
    ensures Value(stod, s) == Some((Num(x), rest))
  {
    var c := s[0];
    assert !IsWs(c) && c != '"' && c != '{' && c != '[' && c != 't' && c != 'f' && c != 'n';
    assert SkipWs(s) == s;
  }

  lemma CompleteEmpty(stod: Stod, open: string, ws: string, close: string, rest: string)
    requires AllWs(ws) && ((open == "[" && close == "]") || (open == "{" && close == "}"))
    ensures Value(stod, (open + (ws + close)) + rest) == Some((if open == "[" then Arr([]) else Obj([]), rest))
  {
    Regroup(ws, close, rest);
    Regroup(open, ws + close, rest);
    Split(open, ws + (close + rest));
    SkipWsOver(ws, close + rest);
    Split(close, rest);
  }

  lemma {:induction false} CompleteArray(stod: Stod, items: seq<Item>, rest: string)
    requires ItemsOk(stod, items) && items != []
    ensures Value(stod, "[" + ItemsYield(items) + rest) == Some((Arr(ItemsMeaning(stod, items)), rest))
    decreases items, 1
  {
    CompleteItems(stod, items, rest);
    Regroup("[", ItemsYield(items), rest);
    Split("[", ItemsYield(items) + rest);
  }

  lemma {:induction false} CompleteObject(stod: Stod, fields: seq<Field>, rest: string)
    requires FieldsOk(stod, fields) && fields != []
    ensures Value(stod, "{" + FieldsYield(fields) + rest)
         == Some((Obj(Collect([], FieldsMeaning(stod, fields))), rest))
    decreases fields, 1
  {
    CompleteFields(stod, fields, rest);
    Regroup("{", FieldsYield(fields), rest);
    Split("{", FieldsYield(fields) + rest);
  }

  lemma CompleteNumeral(stod: Stod, x: Lexeme, rest: string)
    requires BodyOk(stod, Numeral(x)) && Stops(rest)
    ensures Value(stod, LexemeYield(x) + rest) == Some((BodyMeaning(stod, Numeral(x)), rest))
  {
    CompleteLexeme(x, rest);
    LexemeStarts(x);
    NumberOver(stod, LexemeYield(x), rest);
    ValueIsNumber(stod, LexemeYield(x) + rest, NumberOf(stod, LexemeYield(x)).value, rest);
  }

  lemma LexemeStarts(x: Lexeme)
    requires LexemeOk(x)
    ensures var s := LexemeYield(x); s != "" && (s[0] == '-' || IsDigit(s[0]))
  {
    var tail := FractionYield(x.frac) + ExponentYield(x.exp);
    if x.minus {
      assert ("-" + (x.digits + tail))[0] == '-';
    } else {
      assert "" + (x.digits + tail) == x.digits + tail && (x.digits + tail)[0] == x.digits[0];
    }
  }

  lemma NumberOver(stod: Stod, lexeme: string, rest: string)
    requires lexeme != "" && LexemeLen(lexeme + rest) == |lexeme| && NumberOf(stod, lexeme).Some?
    ensures NumberAt(stod, lexeme + rest) == Some((Num(NumberOf(stod, lexeme).value), rest))
  {
    Split(lexeme, rest);
  }

  lemma ElementStep(stod: Stod, head: string, after: string, next: string, v: Json)
    requires AllWs(after) && next != ""
    requires Value(stod, head + (after + next)) == Some((v, after + next))
    ensures var s := SkipWs(head + (after + next));
            && s != "" && s[0] != ']'
            && (next[0] == ']' ==> Elements(stod, s) == Some(([v], next[1..])))
            && (next[0] == ',' ==> forall vs, r :: Elements(stod, next[1..]) == Some((vs, r)) ==>
                                     Elements(stod, s) == Some(([v] + vs, r)))
  {
    ValueSkips(stod, "", head + (after + next));
    SkipWsOver(after, next);
  }

  lemma {:induction false} CompleteItems(stod: Stod, items: seq<Item>, rest: string)
    requires ItemsOk(stod, items) && items != []
    ensures var s := SkipWs(ItemsYield(items) + rest);
            Elements(stod, s) == Some((ItemsMeaning(stod, items), rest)) && s != "" && s[0] != ']'
    decreases items, 0
  {
    var x := items[0];
    var tail := if |items| == 1 then "]" else "," + ItemsYield(items[1..]);
    Regroup(Yield(x.val), x.after + tail, rest);
    Regroup(x.after, tail, rest);
    var next := tail + rest;
    StopsAtDelimiter(x.after, next);
    CompleteValue(stod, x.val, x.after + next);
    ElementStep(stod, Yield(x.val), x.after, next, Meaning(stod, x.val));
    if |items| == 1 {
      Split("]", rest);
      assert ItemsMeaning(stod, items) == [Meaning(stod, x.val)];
    } else {
      Regroup(",", ItemsYield(items[1..]), rest);
      Split(",", ItemsYield(items[1..]) + rest);
      CompleteItems(stod, items[1..], rest);
      ValueSkips(stod, "", ItemsYield(items[1..]) + rest);
    }
  }

  lemma KeyStep(s: string, k: string, r: string, rest: string)
    requires var t := SkipWs(s); t != "" && t[0] == '"' && Chars(t[1..]) == Some((k, r))
    requires var u := SkipWs(r); u != "" && u[0] == ':' && u[1..] == rest
    ensures KeyAt(s) == Some((k, rest))
  {
  }

  lemma CompleteKey(f: Field, rest: string)
    requires AllWs(f.lead) && UnitsOk(f.key) && AllWs(f.gap)
    ensures var s := f.lead + (Quoted(f.key) + (f.gap + (":" + rest)));
            KeyAt(s) == Some((UnitsMeaning(f.key), rest))
            && SkipWs(s) != "" && SkipWs(s)[0] == '"'
  {
    var colon := ":" + rest;
    var after := f.gap + colon;
    var q := Quoted(f.key) + after;
    SkipWsOver(f.lead, q);
    CompleteChars(f.key, after);
    QuotedFront(f.key, after);
    SkipWsOver(f.gap, colon);
    Split(":", rest);
    KeyStep(f.lead + q, UnitsMeaning(f.key), after, rest);
  }

  lemma MemberStep(stod: Stod, s: string, k: string, u: string, after: string, next: string, v: Json)
    requires AllWs(after) && next != ""
    requires KeyAt(s) == Some((k, u)) && Value(stod, u) == Some((v, after + next))
    ensures next[0] == '}' ==> Members(stod, SkipWs(s)) == Some(([Member(k, v)], next[1..]))
    ensures next[0] == ',' ==> forall ms, r :: Members(stod, next[1..]) == Some((ms, r)) ==>
                                 Members(stod, SkipWs(s)) == Some(([Member(k, v)] + ms, r))
  {
    ValueSkips(stod, "", s);
    assert "" + s == s;
    SkipWsOver(after, next);
    MembersUnfold(stod, s, k, u, v, after + next);
  }

  lemma FieldShape(f: Field, v: string, tail: string, rest: string)
    ensures f.lead + (Quoted(f.key) + (f.gap + (":" + (v + (f.after + tail))))) + rest
         == f.lead + (Quoted(f.key) + (f.gap + (":" + (v + (f.after + (tail + rest))))))
  {
    var q, a := Quoted(f.key), f.after + tail;
    Regroup(f.lead, q + (f.gap + (":" + (v + a))), rest);
    Regroup(q, f.gap + (":" + (v + a)), rest);
    Regroup(f.gap, ":" + (v + a), rest);
    Regroup(":", v + a, rest);
    Regroup(v, a, rest);
    Regroup(f.after, tail, rest);
  }

  lemma {:induction false} CompleteFields(stod: Stod, fs: seq<Field>, rest: string)
    requires FieldsOk(stod, fs) && fs != []
    ensures var s := SkipWs(FieldsYield(fs) + rest);
            Members(stod, s) == Some((FieldsMeaning(stod, fs), rest)) && s != "" && s[0] != '}'
    decreases fs, 0
  {
    var f := fs[0];
    var tail := if |fs| == 1 then "}" else "," + FieldsYield(fs[1..]);
    var next := tail + rest;
    var u := Yield(f.val) + (f.after + next);
    FieldShape(f, Yield(f.val), tail, rest);
    CompleteKey(f, u);
    StopsAtDelimiter(f.after, next);
    CompleteValue(stod, f.val, f.after + next);
    MemberStep(stod, FieldsYield(fs) + rest, UnitsMeaning(f.key), u, f.after, next, Meaning(stod, f.val));
    if |fs| == 1 {
      Split("}", rest);
      assert FieldsMeaning(stod, fs) == [Member(UnitsMeaning(f.key), Meaning(stod, f.val))];
    } else {
      Regroup(",", FieldsYield(fs[1..]), rest);
      Split(",", FieldsYield(fs[1..]) + rest);
      CompleteFields(stod, fs[1..], rest);
      ValueSkips(stod, "", FieldsYield(fs[1..]) + rest);
    }
  }

  // Results of the reading loops, piece by piece

  /** A result whose sequence has `a` in front. */
  ghost function Prefixed<T>(a: seq<T>, r: Option<(seq<T>, string)>): Option<(seq<T>, string)> {
    match r
    case None => None
    case Some((x, rest)) => Some((a + x, rest))
  }

  lemma PrefixedNone<T>(r: Option<(seq<T>, string)>)
    ensures Prefixed([], r) == r
  {
    match r
    case None =>
    case Some((x, rest)) => assert [] + x == x;
  }

  lemma PrefixedTwice<T>(a: seq<T>, b: seq<T>, r: Option<(seq<T>, string)>)
    ensures Prefixed(a, Prefixed(b, r)) == Prefixed(a + b, r)
  {
    match r
    case None =>
    case Some((x, rest)) => assert a + (b + x) == (a + b) + x;
  }

  /** Past the white space and one more character. */
  ghost function SkipTo(s: string): string {
    var t := SkipWs(s);
    if t == "" then "" else t[1..]
  }

  lemma ElementsUnfold(stod: Stod, here: string, v: Json, rest: string)
    requires Value(stod, here) == Some((v, rest))
    ensures var t := SkipWs(rest);
            Elements(stod, here) ==
              if t != "" && t[0] == ',' then Prefixed([v], Elements(stod, SkipTo(rest)))
              else if t != "" && t[0] == ']' then Some(([v], t[1..]))
              else None
  {
  }

  lemma MembersUnfold(stod: Stod, here: string, k: string, there: string, v: Json, rest: string)
    requires KeyAt(here) == Some((k, there)) && Value(stod, there) == Some((v, rest))
    ensures var t := SkipWs(rest);
            Members(stod, here) ==
              if t != "" && t[0] == ',' then Prefixed([Member(k, v)], Members(stod, SkipTo(rest)))
              else if t != "" && t[0] == '}' then Some(([Member(k, v)], t[1..]))
              else None
  {
  }
}
