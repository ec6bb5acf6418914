/**
 What the printed text is, said without the printer's own functions: numbers by the text they get, strings by how
 short their escapes are, arrays and objects by their lines, and whole values by reading them back.
 */
module JsonLayout {
  import opened Wrappers
  import opened JsonValues
  import opened JsonGrammar
  import opened JsonReader
  import opened JsonTheorems
  import opened JsonPrinter
  import Strings = Text

  // Numbers

  /** A number text that is an integer within 2^53, so that it is read as that integer. */
  predicate SmallInteger(text: string) {
    IsInteger(text) && -EXACT <= IntegerValue(text) <= EXACT
  }

  /** Integers as decimals without superfluous zeros, other numbers as the library prints them. */
  lemma NumbersAsTheyAre(show: Show, x: Number, pretty: bool, depth: nat)
    ensures var text := ValueText(show, Num(x), pretty, depth);
            match x
            case Int(n) => IsInteger(text) && IntegerValue(text) == n && Shortest(text)
            case Other(tag) => text == show(tag)
  {
    if x.Int? {
      IntegerLexeme(show, x.n);
      DecimalIsShort(if x.n < 0 then -x.n else x.n);
      var s := DecimalText(if x.n < 0 then -x.n else x.n);
      assert x.n < 0 ==> ("-" + s)[1..] == s;
    }
  }

  /** No leading zero, and no minus zero. */
  predicate Shortest(text: string)
    requires IsInteger(text)
  {
    text == "0" || (text[0] != '0' && !(text[0] == '-' && text[1] == '0'))
  }

  lemma {:induction false} DecimalIsShort(n: nat)
    ensures DecimalText(n) == "0" <==> n == 0
    ensures n > 0 ==> DecimalText(n)[0] != '0'
  {
    if n >= 10 {
      DecimalIsShort(n / 10);
      assert DecimalText(n)[0] == DecimalText(n / 10)[0];
    }
  }

  /** Integers within 2^53, and numbers that the library reads from the lexeme it prints. */
  ghost predicate Kept(stod: Stod, show: Show, x: Number) {
    match x
    case Int(n) => -EXACT <= n <= EXACT
    case Other(tag) => !SmallInteger(show(tag)) && stod(show(tag)) == Some(Other(tag))
  }

  ghost predicate NumberLike(show: Show, x: Number) {
    x.Other? ==> IsLexeme(show(x.tag))
  }

  /**
   The round trip in terms of the library alone: values with integers within 2^53 and finite other numbers come back
   if and only if the library reads each of those from the very text it prints, and that text is no integer.
   */
  lemma LibraryRoundTrip(stod: Stod, show: Show, v: Json, pretty: bool)
    requires WellFormed(v) && AllNumbers(v, (x: Number) => NumberLike(show, x))
    requires AllNumbers(v, (x: Number) => x.Int? ==> -EXACT <= x.n <= EXACT)
    ensures Parse(stod, ValueText(show, v, pretty, 0)) == Some(v)
            <==> AllNumbers(v, (x: Number) => Kept(stod, show, x))
  {
    AllNumbersWeaker(v, (x: Number) => NumberLike(show, x),
                     (x: Number) => x.Other? ==> show(x.tag) == "null" || IsLexeme(show(x.tag)));
    ParseUndoesSerialize(stod, show, v, pretty);
    KeptIsFaithful(stod, show, v);
  }

  lemma LexemeIsNotNull(s: string)
    requires IsLexeme(s)
    ensures s != "null"
  {
    var x :| LexemeOk(x) && LexemeYield(x) == s;
    LexemeStarts(x);
  }

  lemma {:induction false} KeptIsFaithful(stod: Stod, show: Show, v: Json)
    requires AllNumbers(v, (x: Number) => NumberLike(show, x))
    requires AllNumbers(v, (x: Number) => x.Int? ==> -EXACT <= x.n <= EXACT)
    ensures AllFaithful(stod, show, v) <==> AllNumbers(v, (x: Number) => Kept(stod, show, x))
    decreases v
  {
    match v
    case Num(x) =>
      if x.Int? {
        IntegerLexeme(show, x.n);
      } else {
        LexemeIsNotNull(show(x.tag));
      }
    case Arr(items) =>
      forall i | 0 <= i < |items|
        ensures AllFaithful(stod, show, items[i]) <==> AllNumbers(items[i], (x: Number) => Kept(stod, show, x))
      {
        KeptIsFaithful(stod, show, items[i]);
      }
    case Obj(ms) =>
      forall i | 0 <= i < |ms|
        ensures AllFaithful(stod, show, ms[i].val) <==> AllNumbers(ms[i].val, (x: Number) => Kept(stod, show, x))
      {
        KeptIsFaithful(stod, show, ms[i].val);
      }
    case _ =>
  }

  // Strings

  /** Of all ways to write a character without control characters, the printer takes a shortest one. */
  lemma EscapesAreShort(c: char, u: Unit)
    requires UnitOk(u) && UnitMeaning(u) == [c] && NoControls(UnitYield(u))
    ensures NoControls(UnitYield(UnitOf(c))) && |UnitYield(UnitOf(c))| <= |UnitYield(u)|
  {
    if u.Plain? {
      assert UnitYield(u)[0] == u.c;
    }
  }

  // Arrays and objects

  function Spaces(n: nat): string {
    seq(n, _ => ' ')
  }

  lemma {:induction false} IndentIsSpaces(depth: nat)
    ensures Indent(depth) == Spaces(2 * depth)
  {
    if depth > 0 {
      IndentIsSpaces(depth - 1);
      assert Spaces(2 * depth) == "  " + Spaces(2 * (depth - 1));
    }
  }

  ghost function Texts(show: Show, items: seq<Json>, pretty: bool, depth: nat): (ts: seq<string>)
    ensures |ts| == |items|
  {
    seq(|items|, i requires 0 <= i < |items| => ValueText(show, items[i], pretty, depth))
  }

  ghost function Lines(show: Show, items: seq<Json>, depth: nat): (ts: seq<string>)
    ensures |ts| == |items|
  {
    seq(|items|, i requires 0 <= i < |items| => Spaces(2 * depth) + ValueText(show, items[i], true, depth))
  }

  /** A compact array: the texts of the items with commas in between. */
  lemma CompactArray(show: Show, items: seq<Json>, depth: nat)
    ensures ValueText(show, Arr(items), false, depth)
         == "[" + Strings.Join(Texts(show, items, false, depth + 1), ",") + "]"
  {
    if items != [] {
      CompactItems(show, items, depth);
    }
  }

  lemma {:induction false} CompactItems(show: Show, items: seq<Json>, depth: nat)
    requires items != []
    ensures ItemsText(show, items, false, depth) == Strings.Join(Texts(show, items, false, depth + 1), ",") + "]"
    decreases |items|
  {
    var ts := Texts(show, items, false, depth + 1);
    assert ItemText(show, items[0], |items| == 1, false, depth) == ts[0] + Separator(|items| == 1, false);
    if |items| == 1 {
      assert ts[0] + "" == ts[0];
    } else {
      CompactItems(show, items[1..], depth);
      assert ts[1..] == Texts(show, items[1..], false, depth + 1) && ts == [ts[0]] + ts[1..];
      LineFront(ts[0], ",", ts[1..], "]");
    }
  }

  /** A pretty array: each item on its own line, two spaces deeper, and the bracket on a line of its own. */
  lemma PrettyArray(show: Show, items: seq<Json>, depth: nat)
    ensures ValueText(show, Arr(items), true, depth)
         == if items == [] then "[]"
            else "[\n" + Strings.Join(Lines(show, items, depth + 1), ",\n") + ("\n" + (Spaces(2 * depth) + "]"))
  {
    if items != [] {
      PrettyItems(show, items, depth);
      var all := Strings.Join(Lines(show, items, depth + 1), ",\n");
      Regroup("[", "\n", all + ("\n" + (Spaces(2 * depth) + "]")));
      Regroup("[\n", all, "\n" + (Spaces(2 * depth) + "]"));
    }
  }

  lemma {:induction false} PrettyItems(show: Show, items: seq<Json>, depth: nat)
    requires items != []
    ensures ItemsText(show, items, true, depth)
         == Strings.Join(Lines(show, items, depth + 1), ",\n") + ("\n" + (Spaces(2 * depth) + "]"))
    decreases |items|
  {
    var ts, end := Lines(show, items, depth + 1), "\n" + (Spaces(2 * depth) + "]");
    IndentIsSpaces(depth);
    IndentIsSpaces(depth + 1);
    Regroup(Indent(depth + 1), ValueText(show, items[0], true, depth + 1), Separator(|items| == 1, true));
    if |items| == 1 {
      Regroup(ts[0], "\n", Spaces(2 * depth) + "]");
    } else {
      PrettyItems(show, items[1..], depth);
      assert ts[1..] == Lines(show, items[1..], depth + 1) && ts == [ts[0]] + ts[1..];
      LineFront(ts[0], ",\n", ts[1..], end);
    }
  }

  /** One member: the key as a string, a colon, and the value; `colon` is ":" or ": ". */
  ghost function MemberLine(show: Show, m: Member, colon: string, pretty: bool, depth: nat): string {
    ValueText(show, Str(m.key), pretty, depth) + colon + ValueText(show, m.val, pretty, depth)
  }

  ghost function MemberTexts(show: Show, ms: seq<Member>, depth: nat): (ts: seq<string>)
    ensures |ts| == |ms|
  {
    seq(|ms|, i requires 0 <= i < |ms| => MemberLine(show, ms[i], ":", false, depth))
  }

  ghost function MemberLines(show: Show, ms: seq<Member>, depth: nat): (ts: seq<string>)
    ensures |ts| == |ms|
  {
    seq(|ms|, i requires 0 <= i < |ms| => Spaces(2 * depth) + MemberLine(show, ms[i], ": ", true, depth))
  }

  /** A compact object: the members in order with commas in between. */
  lemma CompactObject(show: Show, ms: seq<Member>, depth: nat)
    ensures ValueText(show, Obj(ms), false, depth)
         == "{" + Strings.Join(MemberTexts(show, ms, depth + 1), ",") + "}"
  {
    if ms != [] {
      CompactMembers(show, ms, depth);
    }
  }

  lemma MemberTextIs(show: Show, m: Member, last: bool, pretty: bool, depth: nat)
    ensures MemberText(show, m, last, pretty, depth)
         == Pad(pretty, depth + 1) + MemberLine(show, m, Colon(pretty), pretty, depth + 1) + Separator(last, pretty)
  {
    var pad, key, v := Pad(pretty, depth + 1), Quoted(UnitsOf(m.key)), ValueText(show, m.val, pretty, depth + 1);
    Regroup(key, Colon(pretty), v);
    Regroup(pad, key + (Colon(pretty) + v), Separator(last, pretty));
    Regroup(key, Colon(pretty) + v, Separator(last, pretty));
    Regroup(Colon(pretty), v, Separator(last, pretty));
  }

  /** Another line in front of the joined ones. */
  lemma LineFront(line: string, sep: string, ts: seq<string>, end: string)
    requires ts != []
    ensures (line + sep) + (Strings.Join(ts, sep) + end) == Strings.Join([line] + ts, sep) + end
  {
    assert ([line] + ts)[1..] == ts;
    Regroup(line + sep, Strings.Join(ts, sep), end);
  }

  lemma {:induction false} CompactMembers(show: Show, ms: seq<Member>, depth: nat)
    requires ms != []
    ensures MembersText(show, ms, false, depth) == Strings.Join(MemberTexts(show, ms, depth + 1), ",") + "}"
    decreases |ms|
  {
    var ts := MemberTexts(show, ms, depth + 1);
    MemberTextIs(show, ms[0], |ms| == 1, false, depth);
    assert "" + ts[0] == ts[0] && ts[0] + "" == ts[0];
    if |ms| > 1 {
      CompactMembers(show, ms[1..], depth);
      assert ts[1..] == MemberTexts(show, ms[1..], depth + 1) && ts == [ts[0]] + ts[1..];
      LineFront(ts[0], ",", ts[1..], "}");
    }
  }

  /** A pretty object: each member on its own line, two spaces deeper, and the brace on a line of its own. */
  lemma PrettyObject(show: Show, ms: seq<Member>, depth: nat)
    ensures ValueText(show, Obj(ms), true, depth)
         == if ms == [] then "{}"
            else "{\n" + Strings.Join(MemberLines(show, ms, depth + 1), ",\n") + ("\n" + (Spaces(2 * depth) + "}"))
  {
    if ms != [] {
      PrettyMembers(show, ms, depth);
      var all := Strings.Join(MemberLines(show, ms, depth + 1), ",\n");
      Regroup("{", "\n", all + ("\n" + (Spaces(2 * depth) + "}")));
      Regroup("{\n", all, "\n" + (Spaces(2 * depth) + "}"));
    }
  }

  lemma {:induction false} PrettyMembers(show: Show, ms: seq<Member>, depth: nat)
    requires ms != []
    ensures MembersText(show, ms, true, depth)
         == Strings.Join(MemberLines(show, ms, depth + 1), ",\n") + ("\n" + (Spaces(2 * depth) + "}"))
    decreases |ms|
  {
    var ts, end := MemberLines(show, ms, depth + 1), "\n" + (Spaces(2 * depth) + "}");
    MemberTextIs(show, ms[0], |ms| == 1, true, depth);
    IndentIsSpaces(depth);
    IndentIsSpaces(depth + 1);
    if |ms| == 1 {
      Regroup(ts[0], "\n", Spaces(2 * depth) + "}");
    } else {
      PrettyMembers(show, ms[1..], depth);
      assert ts[1..] == MemberLines(show, ms[1..], depth + 1) && ts == [ts[0]] + ts[1..];
      LineFront(ts[0], ",\n", ts[1..], end);
    }
  }
}
