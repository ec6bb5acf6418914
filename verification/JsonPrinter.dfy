/**
 The printer, compact and pretty, over an output stream. `Layout` gives the derivation a printed value has in the
 grammar, so that printing and parsing undo each other.
 */
module JsonPrinter {
  import opened Wrappers
  import opened JsonValues
  import opened JsonGrammar
  import opened JsonReader
  import opened JsonTheorems

  /** How the C++ library prints a double that is not an integer. */
  type Show = nat -> string

  function HexChar(d: nat): char
    requires d < 16
  {
    if d < 10 then ('0' as int + d) as char else ('a' as int + d - 10) as char
  }

  /** How `emit_string` writes one character. */
  function UnitOf(c: char): Unit {
    match c
    case '"' => Escape('"')
    case '\\' => Escape('\\')
    case '\n' => Escape('n')
    case '\r' => Escape('r')
    case '\t' => Escape('t')
    case '\U{8}' => Escape('b')
    case '\U{C}' => Escape('f')
    case _ =>
      if c as int < 0x20 then Hex("00" + [HexChar(c as int / 16), HexChar(c as int % 16)]) else Plain(c)
  }

  function UnitsOf(s: string): seq<Unit> {
    if s == "" then [] else [UnitOf(s[0])] + UnitsOf(s[1..])
  }

  function DecimalText(n: nat): (s: string)
    ensures s != "" && AllDigits(s)
  {
    if n < 10 then [('0' as int + n) as char] else DecimalText(n / 10) + [('0' as int + n % 10) as char]
  }

  function NumberText(show: Show, x: Number): string {
    match x
    case Int(n) => if n < 0 then "-" + DecimalText(-n) else DecimalText(n)
    case Other(tag) => show(tag)
  }

  function Indent(depth: nat): string {
    if depth == 0 then "" else "  " + Indent(depth - 1)
  }

  function Pad(pretty: bool, depth: nat): string {
    if pretty then Indent(depth) else ""
  }

  function NewLine(pretty: bool): string {
    if pretty then "\n" else ""
  }

  ghost function ValueText(show: Show, v: Json, pretty: bool, depth: nat): string
    decreases v, 0
  {
    match v
    case Null => "null"
    case Bool(b) => if b then "true" else "false"
    case Num(x) => NumberText(show, x)
    case Str(s) => Quoted(UnitsOf(s))
    case Arr(items) =>
      if items == [] then "[]"
      else "[" + (NewLine(pretty) + ItemsText(show, items, pretty, depth))
    case Obj(ms) =>
      if ms == [] then "{}"
      else "{" + (NewLine(pretty) + MembersText(show, ms, pretty, depth))
  }

  /** The items of an array from here through its closing bracket, each on its own line if pretty. */
  ghost function ItemsText(show: Show, items: seq<Json>, pretty: bool, depth: nat): string
    decreases items, 0
  {
    if items == [] then Pad(pretty, depth) + "]"
    else ItemText(show, items[0], |items| == 1, pretty, depth) + ItemsText(show, items[1..], pretty, depth)
  }

  ghost function ItemText(show: Show, v: Json, last: bool, pretty: bool, depth: nat): string
    decreases v, 1
  {
    Pad(pretty, depth + 1) + (ValueText(show, v, pretty, depth + 1) + Separator(last, pretty))
  }

  ghost function MembersText(show: Show, ms: seq<Member>, pretty: bool, depth: nat): string
    decreases ms, 0
  {
    if ms == [] then Pad(pretty, depth) + "}"
    else MemberText(show, ms[0], |ms| == 1, pretty, depth) + MembersText(show, ms[1..], pretty, depth)
  }

  ghost function MemberText(show: Show, m: Member, last: bool, pretty: bool, depth: nat): string
    decreases m, 1
  {
    Pad(pretty, depth + 1) + (Quoted(UnitsOf(m.key)) + (Colon(pretty)
    + (ValueText(show, m.val, pretty, depth + 1) + Separator(last, pretty))))
  }

  function Separator(last: bool, pretty: bool): string {
    if last then NewLine(pretty) else if pretty then ",\n" else ","
  }

  function Colon(pretty: bool): string {
    if pretty then ": " else ":"
  }

  // The emitters

  class Stream {
    var out: string

    constructor ()
      ensures out == ""
    {
      out := "";
    }

    method Put(text: string)
      modifies this
      ensures out == old(out) + text
    {
      out := out + text;
    }

    method EmitChar(c: char)
      modifies this
      ensures out == old(out) + UnitYield(UnitOf(c))
    {
      if c == '"' { Put("\\\""); }
      else if c == '\\' { Put("\\\\"); }
      else if c == '\n' { Put("\\n"); }
      else if c == '\r' { Put("\\r"); }
      else if c == '\t' { Put("\\t"); }
      else if c == '\U{8}' { Put("\\b"); }
      else if c == '\U{C}' { Put("\\f"); }
      else if c as int < 0x20 { Put("\\u" + ("00" + [HexChar(c as int / 16), HexChar(c as int % 16)])); }
      else { Put([c]); }
    }

    method EmitString(s: string)
      modifies this
      ensures out == old(out) + Quoted(UnitsOf(s))
    {
      Put("\"");
      for i := 0 to |s|
        invariant out + UnitsYield(UnitsOf(s[i..])) == old(out) + "\"" + UnitsYield(UnitsOf(s))
      {
        ghost var before := out;
        UnitsFront(s[i..]);
        assert s[i..][1..] == s[i + 1..];
        EmitChar(s[i]);
        Regroup(before, UnitYield(UnitOf(s[i])), UnitsYield(UnitsOf(s[i + 1..])));
      }
      assert out + "" == out;
      Put("\"");
      Regroup(old(out) + "\"", UnitsYield(UnitsOf(s)), "\"");
      Regroup(old(out), "\"", UnitsYield(UnitsOf(s)) + "\"");
      Regroup("\"", UnitsYield(UnitsOf(s)), "\"");
    }

    method EmitIndent(depth: nat)
      modifies this
      ensures out == old(out) + Indent(depth)
    {
      for i := 0 to depth
        invariant out + Indent(depth - i) == old(out) + Indent(depth)
      {
        Put("  ");
      }
    }

    method EmitValue(show: Show, v: Json, pretty: bool, depth: nat)
      modifies this
      ensures out == old(out) + ValueText(show, v, pretty, depth)
      decreases v, 3
    {
      match v
      case Null => Put("null");
      case Bool(b) => Put(if b then "true" else "false");
      case Num(x) => Put(NumberText(show, x));
      case Str(s) => EmitString(s);
      case Arr(items) =>
        if items == [] {
          Put("[]");
        } else {
          EmitArray(show, items, pretty, depth);
        }
      case Obj(ms) =>
        if ms == [] {
          Put("{}");
        } else {
          EmitObject(show, ms, pretty, depth);
        }
    }

    method EmitItems(show: Show, items: seq<Json>, pretty: bool, depth: nat)
      modifies this
      ensures out + (Pad(pretty, depth) + "]") == old(out) + ItemsText(show, items, pretty, depth)
      decreases items, 0
    {
      for i := 0 to |items|
        invariant out + ItemsText(show, items[i..], pretty, depth) == old(out) + ItemsText(show, items, pretty, depth)
      {
        ghost var before := out;
        assert items[i..][1..] == items[i + 1..];
        EmitItem(show, items[i], i + 1 == |items|, pretty, depth);
        Regroup(before, ItemText(show, items[i], i + 1 == |items|, pretty, depth),
                ItemsText(show, items[i + 1..], pretty, depth));
      }
    }

    method EmitArray(show: Show, items: seq<Json>, pretty: bool, depth: nat)
      requires items != []
      modifies this
      ensures out == old(out) + ("[" + (NewLine(pretty) + ItemsText(show, items, pretty, depth)))
      decreases items, 1
    {
      Put(if pretty then "[\n" else "[");
      ghost var all := ItemsText(show, items, pretty, depth);
      OpenBracket(old(out), "[", pretty, all);
      EmitItems(show, items, pretty, depth);
      EmitClose("]", pretty, depth);
    }

    method EmitItem(show: Show, v: Json, last: bool, pretty: bool, depth: nat)
      modifies this
      ensures out == old(out) + ItemText(show, v, last, pretty, depth)
      decreases v, 4
    {
      if pretty {
        EmitIndent(depth + 1);
      }
      assert out == old(out) + Pad(pretty, depth + 1);
      EmitValue(show, v, pretty, depth + 1);
      Put(if last then (if pretty then "\n" else "") else (if pretty then ",\n" else ","));
      ghost var value := ValueText(show, v, pretty, depth + 1);
      Regroup(old(out) + Pad(pretty, depth + 1), value, Separator(last, pretty));
      Regroup(old(out), Pad(pretty, depth + 1), value + Separator(last, pretty));
    }

    method EmitClose(bracket: string, pretty: bool, depth: nat)
      modifies this
      ensures out == old(out) + (Pad(pretty, depth) + bracket)
    {
      if pretty {
        EmitIndent(depth);
      }
      assert out == old(out) + Pad(pretty, depth);
      Put(bracket);
      Regroup(old(out), Pad(pretty, depth), bracket);
    }

    method EmitMember(show: Show, m: Member, last: bool, pretty: bool, depth: nat)
      modifies this
      ensures out == old(out) + MemberText(show, m, last, pretty, depth)
      decreases m, 0
    {
      if pretty {
        EmitIndent(depth + 1);
      }
      assert out == old(out) + Pad(pretty, depth + 1);
      EmitString(m.key);
      Put(if pretty then ": " else ":");
      EmitValue(show, m.val, pretty, depth + 1);
      Put(if last then (if pretty then "\n" else "") else (if pretty then ",\n" else ","));
      MemberParts(old(out), Pad(pretty, depth + 1), Quoted(UnitsOf(m.key)), Colon(pretty),
                  ValueText(show, m.val, pretty, depth + 1), Separator(last, pretty));
    }

    method EmitMembers(show: Show, ms: seq<Member>, pretty: bool, depth: nat)
      modifies this
      ensures out + (Pad(pretty, depth) + "}") == old(out) + MembersText(show, ms, pretty, depth)
      decreases ms, 0
    {
      for i := 0 to |ms|
        invariant out + MembersText(show, ms[i..], pretty, depth) == old(out) + MembersText(show, ms, pretty, depth)
      {
        ghost var before := out;
        assert ms[i..][1..] == ms[i + 1..];
        EmitMember(show, ms[i], i + 1 == |ms|, pretty, depth);
        Regroup(before, MemberText(show, ms[i], i + 1 == |ms|, pretty, depth),
                MembersText(show, ms[i + 1..], pretty, depth));
      }
    }

    method EmitObject(show: Show, ms: seq<Member>, pretty: bool, depth: nat)
      requires ms != []
      modifies this
      ensures out == old(out) + ("{" + (NewLine(pretty) + MembersText(show, ms, pretty, depth)))
      decreases ms, 1
    {
      Put(if pretty then "{\n" else "{");
      ghost var all := MembersText(show, ms, pretty, depth);
      OpenBracket(old(out), "{", pretty, all);
      EmitMembers(show, ms, pretty, depth);
      EmitClose("}", pretty, depth);
    }
  }

  lemma UnitsFront(s: string)
    requires s != ""
    ensures UnitsYield(UnitsOf(s)) == UnitYield(UnitOf(s[0])) + UnitsYield(UnitsOf(s[1..]))
  {
    assert UnitsOf(s)[1..] == UnitsOf(s[1..]);
  }

  lemma MemberParts(before: string, pad: string, key: string, colon: string, value: string, sep: string)
    ensures before + pad + key + colon + value + sep == before + (pad + (key + (colon + (value + sep))))
  {
    Regroup(before + pad + key + colon, value, sep);
    Regroup(before + pad + key, colon, value + sep);
    Regroup(before + pad, key, colon + (value + sep));
    Regroup(before, pad, key + (colon + (value + sep)));
  }

  lemma OpenBracket(before: string, bracket: string, pretty: bool, all: string)
    ensures before + (if pretty then bracket + "\n" else bracket) + all
         == before + (bracket + (NewLine(pretty) + all))
  {
    assert "" + all == all;
  }

  /** `serialize`. */
  method Serialize(show: Show, v: Json, pretty: bool) returns (text: string)
    ensures text == ValueText(show, v, pretty, 0)
  {
    var os := new Stream();
    os.EmitValue(show, v, pretty, 0);
    text := os.out;
  }

  // What printing and reading do to numbers

  ghost predicate IsLexeme(s: string) {
    exists x :: LexemeOk(x) && LexemeYield(x) == s
  }

  /** The library prints a number lexeme; infinities and not-a-number are printed as `null`. */
  ghost predicate Prints(show: Show, v: Json) {
    AllNumbers(v, (x: Number) => x.Other? ==> show(x.tag) == "null" || IsLexeme(show(x.tag)))
  }

  /** Every printed lexeme is within the range of doubles. */
  ghost predicate Reads(stod: Stod, show: Show, v: Json) {
    AllNumbers(v, (x: Number) => var t := NumberText(show, x); t == "null" || NumberOf(stod, t).Some?)
  }

  /** The text of a number is read as that very number. */
  predicate Faithful(stod: Stod, show: Show, x: Number) {
    var t := NumberText(show, x);
    t != "null" && NumberOf(stod, t) == Some(x)
  }

  ghost predicate AllFaithful(stod: Stod, show: Show, v: Json) {
    AllNumbers(v, (x: Number) => Faithful(stod, show, x))
  }

  function RereadNumber(stod: Stod, show: Show, x: Number): Json {
    var t := NumberText(show, x);
    if t == "null" then Null
    else match NumberOf(stod, t)
         case None => Null
         case Some(y) => Num(y)
  }

  /** The value with every number replaced by what is read for its text. */
  function Reread(stod: Stod, show: Show, v: Json): Json {
    match v
    case Num(x) => RereadNumber(stod, show, x)
    case Arr(items) => Arr(RereadItems(stod, show, items))
    case Obj(ms) => Obj(RereadMembers(stod, show, ms))
    case _ => v
  }

  function RereadItems(stod: Stod, show: Show, items: seq<Json>): (r: seq<Json>)
    ensures |r| == |items|
  {
    if items == [] then [] else [Reread(stod, show, items[0])] + RereadItems(stod, show, items[1..])
  }

  function RereadMembers(stod: Stod, show: Show, ms: seq<Member>): (r: seq<Member>)
    ensures |r| == |ms| && forall i :: 0 <= i < |ms| ==> r[i].key == ms[i].key
  {
    if ms == [] then []
    else [Member(ms[0].key, Reread(stod, show, ms[0].val))] + RereadMembers(stod, show, ms[1..])
  }

  lemma {:induction false} RereadIsSame(stod: Stod, show: Show, v: Json)
    ensures Reread(stod, show, v) == v <==> AllFaithful(stod, show, v)
    decreases v
  {
    match v
    case Arr(items) => RereadItemsSame(stod, show, items);
    case Obj(ms) => RereadMembersSame(stod, show, ms);
    case _ =>
  }

  lemma {:induction false} RereadItemsSame(stod: Stod, show: Show, items: seq<Json>)
    ensures RereadItems(stod, show, items) == items <==> AllFaithful(stod, show, Arr(items))
    decreases items
  {
    if items != [] {
      RereadIsSame(stod, show, items[0]);
      RereadItemsSame(stod, show, items[1..]);
      assert items == [items[0]] + items[1..];
      assert forall i :: 0 < i < |items| ==> items[i] == items[1..][i - 1];
    }
  }

  lemma {:induction false} RereadMembersSame(stod: Stod, show: Show, ms: seq<Member>)
    ensures RereadMembers(stod, show, ms) == ms <==> AllFaithful(stod, show, Obj(ms))
    decreases ms
  {
    if ms != [] {
      RereadIsSame(stod, show, ms[0].val);
      RereadMembersSame(stod, show, ms[1..]);
      assert ms == [ms[0]] + ms[1..];
      assert forall i :: 0 < i < |ms| ==> ms[i] == ms[1..][i - 1];
    }
  }

  // Every printed value is derived by the grammar; its meaning is the value reread

  ghost function BodyOf(show: Show, v: Json, pretty: bool, depth: nat): Body
    requires Prints(show, v)
  {
    match v
    case Null => Word(NullWord)
    case Bool(b) => Word(if b then TrueWord else FalseWord)
    case Num(x) => if NumberText(show, x) == "null" then Word(NullWord) else Numeral(LexemeFor(show, x))
    case Str(s) => Text(UnitsOf(s))
    case Arr(items) => Array(ItemsOf(show, items, pretty, depth), "")
    case Obj(ms) => Object(FieldsOf(show, ms, pretty, depth), "")
  }

  ghost function LexemeFor(show: Show, x: Number): (lexeme: Lexeme)
    requires Prints(show, Num(x)) && NumberText(show, x) != "null"
    ensures LexemeOk(lexeme) && LexemeYield(lexeme) == NumberText(show, x)
  {
    if x.Int? then
      IntegerLexeme(show, x.n);
      LexemeOf(x.n)
    else
      var lexeme :| LexemeOk(lexeme) && LexemeYield(lexeme) == show(x.tag);
      lexeme
  }

  function LexemeOf(n: int): Lexeme {
    Lexeme(n < 0, DecimalText(if n < 0 then -n else n), None, None)
  }

  function Lead(pretty: bool, depth: nat): string {
    NewLine(pretty) + Pad(pretty, depth + 1)
  }

  function After(last: bool, pretty: bool, depth: nat): string {
    if last then NewLine(pretty) + Pad(pretty, depth) else ""
  }

  ghost function ItemsOf(show: Show, items: seq<Json>, pretty: bool, depth: nat): seq<Item>
    requires forall i :: 0 <= i < |items| ==> Prints(show, items[i])
  {
    if items == [] then []
    else [Item(Tree(Lead(pretty, depth), BodyOf(show, items[0], pretty, depth + 1)),
               After(|items| == 1, pretty, depth))]
         + ItemsOf(show, items[1..], pretty, depth)
  }

  ghost function FieldsOf(show: Show, ms: seq<Member>, pretty: bool, depth: nat): seq<Field>
    requires forall i :: 0 <= i < |ms| ==> Prints(show, ms[i].val)
  {
    if ms == [] then []
    else [Field(Lead(pretty, depth), UnitsOf(ms[0].key), "",
                Tree(if pretty then " " else "", BodyOf(show, ms[0].val, pretty, depth + 1)),
                After(|ms| == 1, pretty, depth))]
         + FieldsOf(show, ms[1..], pretty, depth)
  }

  lemma {:induction false} UnitsRoundTrip(s: string)
    ensures UnitsOk(UnitsOf(s)) && UnitsMeaning(UnitsOf(s)) == s
  {
    if s != "" {
      UnitsRoundTrip(s[1..]);
      assert UnitsOf(s)[1..] == UnitsOf(s[1..]);
      UnitRoundTrip(s[0]);
      assert s == [s[0]] + s[1..];
    }
  }

  lemma UnitRoundTrip(c: char)
    ensures UnitOk(UnitOf(c)) && UnitMeaning(UnitOf(c)) == [c]
  {
    var u := UnitOf(c);
    if u.Hex? {
      HexValueBound(u.h);
      assert u.h[0] == u.h[1] == '0';
      assert HexDigit(u.h[2]) == c as int / 16 && HexDigit(u.h[3]) == c as int % 16;
    }
  }

  lemma {:induction false} DecimalRoundTrip(n: nat)
    ensures Decimal(DecimalText(n)) == n
  {
    var s := DecimalText(n);
    if n < 10 {
      assert s[..|s| - 1] == "";
    } else {
      DecimalRoundTrip(n / 10);
      assert s[..|s| - 1] == DecimalText(n / 10);
    }
  }

  lemma IntegerLexeme(show: Show, n: int)
    ensures LexemeOk(LexemeOf(n)) && LexemeYield(LexemeOf(n)) == NumberText(show, Int(n)) != "null"
    ensures IsInteger(NumberText(show, Int(n))) && IntegerValue(NumberText(show, Int(n))) == n
  {
    var s := DecimalText(if n < 0 then -n else n);
    DecimalRoundTrip(if n < 0 then -n else n);
    assert s[0] != 'n';
    assert LexemeYield(LexemeOf(n)) == if n < 0 then "-" + s else s;
    assert ("-" + s)[1..] == s;
  }

  lemma IntegersAreFaithful(stod: Stod, show: Show, v: Json)
    requires IntegersOnly(v)
    ensures Prints(show, v) && AllFaithful(stod, show, v)
  {
    forall x | IsExact(x) ensures Faithful(stod, show, x) {
      IntegerLexeme(show, x.n);
    }
    AllNumbersWeaker(v, IsExact, (x: Number) => Faithful(stod, show, x));
    AllNumbersWeaker(v, IsExact, (x: Number) => x.Other? ==> show(x.tag) == "null" || IsLexeme(show(x.tag)));
  }

  lemma {:induction false} IndentIsSpace(depth: nat)
    ensures AllWs(Indent(depth))
  {
    if depth > 0 {
      IndentIsSpace(depth - 1);
    }
  }

  lemma LayoutSpace(pretty: bool, depth: nat)
    ensures AllWs(Lead(pretty, depth)) && AllWs(After(true, pretty, depth)) && AllWs(After(false, pretty, depth))
  {
    IndentIsSpace(depth);
    IndentIsSpace(depth + 1);
  }

  lemma {:induction false} LayoutMeaning(stod: Stod, show: Show, v: Json, pretty: bool, depth: nat)
    requires WellFormed(v) && Prints(show, v) && Reads(stod, show, v)
    ensures BodyOk(stod, BodyOf(show, v, pretty, depth))
    ensures BodyMeaning(stod, BodyOf(show, v, pretty, depth)) == Reread(stod, show, v)
    decreases v
  {
    match v
    case Str(s) => UnitsRoundTrip(s);
    case Arr(items) => LayoutItemsMeaning(stod, show, items, pretty, depth);
    case Obj(ms) =>
      LayoutFieldsMeaning(stod, show, ms, pretty, depth);
      CollectReread(stod, show, ms);
    case _ =>
  }

  lemma CollectReread(stod: Stod, show: Show, ms: seq<Member>)
    requires Sorted(ms)
    ensures Collect([], RereadMembers(stod, show, ms)) == RereadMembers(stod, show, ms)
  {
    var reread := RereadMembers(stod, show, ms);
    assert [] + reread == reread;
    CollectSorted([], reread);
  }

  lemma {:induction false} LayoutItemsMeaning(stod: Stod, show: Show, items: seq<Json>, pretty: bool, depth: nat)
    requires forall i :: 0 <= i < |items| ==>
               WellFormed(items[i]) && Prints(show, items[i]) && Reads(stod, show, items[i])
    ensures ItemsOk(stod, ItemsOf(show, items, pretty, depth))
    ensures ItemsMeaning(stod, ItemsOf(show, items, pretty, depth)) == RereadItems(stod, show, items)
    decreases items
  {
    if items != [] {
      LayoutSpace(pretty, depth);
      LayoutMeaning(stod, show, items[0], pretty, depth + 1);
      LayoutItemsMeaning(stod, show, items[1..], pretty, depth);
      assert ItemsOf(show, items, pretty, depth)[1..] == ItemsOf(show, items[1..], pretty, depth);
    }
  }

  lemma {:induction false} LayoutFieldsMeaning(stod: Stod, show: Show, ms: seq<Member>, pretty: bool, depth: nat)
    requires forall i :: 0 <= i < |ms| ==>
               WellFormed(ms[i].val) && Prints(show, ms[i].val) && Reads(stod, show, ms[i].val)
    ensures FieldsOk(stod, FieldsOf(show, ms, pretty, depth))
    ensures FieldsMeaning(stod, FieldsOf(show, ms, pretty, depth)) == RereadMembers(stod, show, ms)
    decreases ms
  {
    if ms != [] {
      LayoutSpace(pretty, depth);
      UnitsRoundTrip(ms[0].key);
      LayoutMeaning(stod, show, ms[0].val, pretty, depth + 1);
      LayoutFieldsMeaning(stod, show, ms[1..], pretty, depth);
      assert FieldsOf(show, ms, pretty, depth)[1..] == FieldsOf(show, ms[1..], pretty, depth);
    }
  }

  lemma {:induction false} LayoutText(show: Show, v: Json, pretty: bool, depth: nat)
    requires Prints(show, v)
    ensures BodyYield(BodyOf(show, v, pretty, depth)) == ValueText(show, v, pretty, depth)
    decreases v
  {
    match v
    case Arr(items) =>
      if items != [] {
        LayoutItemsText(show, items, pretty, depth);
        BracketsText(show, v, pretty, depth);
      }
    case Obj(ms) =>
      if ms != [] {
        LayoutFieldsText(show, ms, pretty, depth);
        BracketsText(show, v, pretty, depth);
      }
    case _ =>
  }

  lemma BracketsText(show: Show, v: Json, pretty: bool, depth: nat)
    requires Prints(show, v)
    requires v.Arr? ==> v.items != [] && ItemsOf(show, v.items, pretty, depth) != []
                        && ItemsYield(ItemsOf(show, v.items, pretty, depth))
                           == NewLine(pretty) + ItemsText(show, v.items, pretty, depth)
    requires v.Obj? ==> v.members != [] && FieldsOf(show, v.members, pretty, depth) != []
                        && FieldsYield(FieldsOf(show, v.members, pretty, depth))
                           == NewLine(pretty) + MembersText(show, v.members, pretty, depth)
    ensures v.Arr? || v.Obj? ==> BodyYield(BodyOf(show, v, pretty, depth)) == ValueText(show, v, pretty, depth)
  {
  }

  lemma {:induction false} LayoutItemsText(show: Show, items: seq<Json>, pretty: bool, depth: nat)
    requires items != [] && forall i :: 0 <= i < |items| ==> Prints(show, items[i])
    ensures ItemsOf(show, items, pretty, depth) != []
    ensures ItemsYield(ItemsOf(show, items, pretty, depth))
         == NewLine(pretty) + ItemsText(show, items, pretty, depth)
    decreases items
  {
    var v := ValueText(show, items[0], pretty, depth + 1);
    LayoutText(show, items[0], pretty, depth + 1);
    assert ItemsOf(show, items, pretty, depth)[1..] == ItemsOf(show, items[1..], pretty, depth);
    if |items| == 1 {
      Shift(Pad(pretty, depth + 1), v, true, Pad(pretty, depth) + "]", pretty, depth, "]");
    } else {
      LayoutItemsText(show, items[1..], pretty, depth);
      Shift(Pad(pretty, depth + 1), v, false, ItemsText(show, items[1..], pretty, depth), pretty, depth, "]");
    }
  }

  /** The printer breaks lines after a separator, the tree keeps the break in front of the next token. */
  lemma Shift(pad: string, v: string, last: bool, next: string, pretty: bool, depth: nat, bracket: string)
    requires last ==> next == Pad(pretty, depth) + bracket
    ensures ((NewLine(pretty) + pad) + v)
            + (After(last, pretty, depth) + (if last then bracket else "," + (NewLine(pretty) + next)))
         == NewLine(pretty) + ((pad + (v + Separator(last, pretty))) + next)
  {
    var nl, sep := NewLine(pretty), Separator(last, pretty);
    var tail := After(last, pretty, depth) + (if last then bracket else "," + (nl + next));
    assert tail == sep + next;
    Regroup(nl, pad, v);
    Regroup(nl, pad + v, tail);
    Regroup(pad, v, sep);
    Regroup(pad + v, sep, next);
  }

  lemma {:induction false} LayoutFieldsText(show: Show, ms: seq<Member>, pretty: bool, depth: nat)
    requires ms != [] && forall i :: 0 <= i < |ms| ==> Prints(show, ms[i].val)
    ensures FieldsOf(show, ms, pretty, depth) != []
    ensures FieldsYield(FieldsOf(show, ms, pretty, depth))
         == NewLine(pretty) + MembersText(show, ms, pretty, depth)
    decreases ms
  {
    var v := ValueText(show, ms[0].val, pretty, depth + 1);
    var key := Quoted(UnitsOf(ms[0].key));
    LayoutText(show, ms[0].val, pretty, depth + 1);
    assert FieldsOf(show, ms, pretty, depth)[1..] == FieldsOf(show, ms[1..], pretty, depth);
    var next := if |ms| == 1 then Pad(pretty, depth) + "}" else MembersText(show, ms[1..], pretty, depth);
    if |ms| > 1 {
      LayoutFieldsText(show, ms[1..], pretty, depth);
    }
    ShiftField(Pad(pretty, depth + 1), key, v, |ms| == 1, next, pretty, depth);
  }

  lemma ShiftField(pad: string, key: string, v: string, last: bool, next: string, pretty: bool, depth: nat)
    requires last ==> next == Pad(pretty, depth) + "}"
    ensures (NewLine(pretty) + pad) + (key + ("" + (":" + (((if pretty then " " else "") + v)
            + (After(last, pretty, depth) + (if last then "}" else "," + (NewLine(pretty) + next)))))))
         == NewLine(pretty) + ((pad + (key + (Colon(pretty) + (v + Separator(last, pretty))))) + next)
  {
    var tail := After(last, pretty, depth) + (if last then "}" else "," + (NewLine(pretty) + next));
    var sep, sp := Separator(last, pretty), if pretty then " " else "";
    Shift(pad, key + (Colon(pretty) + v), last, next, pretty, depth, "}");
    Regroup(key, Colon(pretty) + v, sep);
    Regroup(Colon(pretty), v, sep);
    var colon := ":" + ((sp + v) + tail);
    assert "" + colon == colon;
    assert colon == (Colon(pretty) + v) + tail by {
      Regroup(":", sp + v, tail);
      Regroup(":", sp, v);
      assert Colon(pretty) == ":" + sp;
    }
    Regroup(key, Colon(pretty) + v, tail);
    Regroup(NewLine(pretty) + pad, key + (Colon(pretty) + v), tail);
  }

  /** Parsing a printed value gives the value reread and stops at its last character, whatever may follow it. */
  lemma PrintedValueIsRead(stod: Stod, show: Show, v: Json, pretty: bool, depth: nat, rest: string)
    requires WellFormed(v) && Prints(show, v) && Reads(stod, show, v) && (v.Num? ==> Stops(rest))
    ensures Value(stod, ValueText(show, v, pretty, depth) + rest) == Some((Reread(stod, show, v), rest))
  {
    LayoutText(show, v, pretty, depth);
    LayoutMeaning(stod, show, v, pretty, depth);
    CompleteBody(stod, BodyOf(show, v, pretty, depth), rest);
  }

  lemma ParseRereads(stod: Stod, show: Show, v: Json, pretty: bool)
    requires WellFormed(v) && Prints(show, v) && Reads(stod, show, v)
    ensures Parse(stod, ValueText(show, v, pretty, 0)) == Some(Reread(stod, show, v))
  {
    var text := ValueText(show, v, pretty, 0);
    PrintedValueIsRead(stod, show, v, pretty, 0, "");
    assert text + "" == text;
  }

  /** The library, made to read `y` where it would fail. */
  function Completed(stod: Stod, y: Number): Stod {
    s => if stod(s).Some? then stod(s) else Some(y)
  }

  lemma {:induction false} CompletedReads(stod: Stod, y: Number, show: Show, v: Json)
    ensures Reads(Completed(stod, y), show, v)
    decreases v
  {
    match v
    case Arr(items) =>
      forall i | 0 <= i < |items| ensures Reads(Completed(stod, y), show, items[i]) {
        CompletedReads(stod, y, show, items[i]);
      }
    case Obj(ms) =>
      forall i | 0 <= i < |ms| ensures Reads(Completed(stod, y), show, ms[i].val) {
        CompletedReads(stod, y, show, ms[i].val);
      }
    case _ =>
  }

  /** A number that stays the same whatever failures are replaced by has not met a failure. */
  lemma {:induction false} FaithfulTwice(stod: Stod, show: Show, v: Json)
    requires AllFaithful(Completed(stod, Int(0)), show, v) && AllFaithful(Completed(stod, Int(1)), show, v)
    ensures AllFaithful(stod, show, v)
    decreases v
  {
    match v
    case Arr(items) =>
      forall i | 0 <= i < |items| ensures AllFaithful(stod, show, items[i]) {
        FaithfulTwice(stod, show, items[i]);
      }
    case Obj(ms) =>
      forall i | 0 <= i < |ms| ensures AllFaithful(stod, show, ms[i].val) {
        FaithfulTwice(stod, show, ms[i].val);
      }
    case _ =>
  }

  lemma {:induction false} FaithfulIsRead(stod: Stod, show: Show, v: Json)
    requires AllFaithful(stod, show, v)
    ensures Reads(stod, show, v)
    decreases v
  {
    match v
    case Arr(items) =>
      forall i | 0 <= i < |items| ensures Reads(stod, show, items[i]) {
        FaithfulIsRead(stod, show, items[i]);
      }
    case Obj(ms) =>
      forall i | 0 <= i < |ms| ensures Reads(stod, show, ms[i].val) {
        FaithfulIsRead(stod, show, ms[i].val);
      }
    case _ =>
  }

  lemma CompletedRoundTrip(stod: Stod, y: Number, show: Show, v: Json, pretty: bool)
    requires WellFormed(v) && Prints(show, v) && Parse(stod, ValueText(show, v, pretty, 0)) == Some(v)
    ensures AllFaithful(Completed(stod, y), show, v)
  {
    ParseExtends(stod, Completed(stod, y), ValueText(show, v, pretty, 0));
    CompletedReads(stod, y, show, v);
    ParseRereads(Completed(stod, y), show, v, pretty);
    RereadIsSame(Completed(stod, y), show, v);
  }

  /**
   `parse(serialize(v, pretty)) == v`, in both layouts and for every value, exactly when each number in it is read
   back from its own text.
   */
  lemma ParseUndoesSerialize(stod: Stod, show: Show, v: Json, pretty: bool)
    requires WellFormed(v) && Prints(show, v)
    ensures Parse(stod, ValueText(show, v, pretty, 0)) == Some(v) <==> AllFaithful(stod, show, v)
  {
    if AllFaithful(stod, show, v) {
      FaithfulIsRead(stod, show, v);
      ParseRereads(stod, show, v, pretty);
      RereadIsSame(stod, show, v);
    }
    if Parse(stod, ValueText(show, v, pretty, 0)) == Some(v) {
      CompletedRoundTrip(stod, Int(0), show, v, pretty);
      CompletedRoundTrip(stod, Int(1), show, v, pretty);
      FaithfulTwice(stod, show, v);
    }
  }

  /** Values whose numbers are integers within 2^53 always come back, whatever the library does. */
  lemma IntegersRoundTrip(stod: Stod, show: Show, v: Json, pretty: bool)
    requires WellFormed(v) && IntegersOnly(v)
    ensures Parse(stod, ValueText(show, v, pretty, 0)) == Some(v)
  {
    IntegersAreFaithful(stod, show, v);
    ParseUndoesSerialize(stod, show, v, pretty);
  }

  /** An infinity, or not a number, comes back as `null`: the round trip fails. */
  lemma NonFiniteIsLost(stod: Stod, show: Show, tag: nat, pretty: bool)
    requires show(tag) == "null"
    ensures Parse(stod, ValueText(show, Num(Other(tag)), pretty, 0)) == Some(Null)
  {
    ParseRereads(stod, show, Num(Other(tag)), pretty);
  }

  // Compact texts hold no control characters

  ghost predicate NoControls(s: string) {
    forall i :: 0 <= i < |s| ==> s[i] as int >= 0x20
  }

  lemma {:induction false} UnitsNoControls(s: string)
    ensures NoControls(UnitsYield(UnitsOf(s)))
  {
    if s != "" {
      UnitsFront(s);
      UnitsNoControls(s[1..]);
      assert NoControls(UnitYield(UnitOf(s[0])));
    }
  }

  lemma LexemeNoControls(x: Lexeme)
    requires LexemeOk(x)
    ensures NoControls(LexemeYield(x))
  {
    assert NoControls(FractionYield(x.frac)) && NoControls(ExponentYield(x.exp));
  }

  /** No byte below 0x20, in particular no line break, occurs in a compact text, whatever the strings hold. */
  lemma {:induction false} CompactNoControls(show: Show, v: Json, depth: nat)
    requires Prints(show, v)
    ensures NoControls(ValueText(show, v, false, depth))
    decreases v
  {
    match v
    case Num(x) => if NumberText(show, x) != "null" { LexemeNoControls(LexemeFor(show, x)); }
    case Str(s) => UnitsNoControls(s);
    case Arr(items) => CompactItemsNoControls(show, items, depth);
    case Obj(ms) => CompactMembersNoControls(show, ms, depth);
    case _ =>
  }

  lemma {:induction false} CompactItemsNoControls(show: Show, items: seq<Json>, depth: nat)
    requires forall i :: 0 <= i < |items| ==> Prints(show, items[i])
    ensures NoControls(ItemsText(show, items, false, depth))
    decreases items
  {
    if items != [] {
      CompactNoControls(show, items[0], depth + 1);
      CompactItemsNoControls(show, items[1..], depth);
    }
  }

  lemma {:induction false} CompactMembersNoControls(show: Show, ms: seq<Member>, depth: nat)
    requires forall i :: 0 <= i < |ms| ==> Prints(show, ms[i].val)
    ensures NoControls(MembersText(show, ms, false, depth))
    decreases ms
  {
    if ms != [] {
      var m := ms[0];
      UnitsNoControls(m.key);
      CompactNoControls(show, m.val, depth + 1);
      CompactMembersNoControls(show, ms[1..], depth);
      assert NoControls(Quoted(UnitsOf(m.key)));
      assert NoControls(MemberText(show, m, |ms| == 1, false, depth));
    }
  }
}
