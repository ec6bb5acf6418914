/**
 The texts the parser is meant to accept, given as derivation trees: RFC 8259 section 2, made lenient by leading
 zeros and loose number lexemes, raw control characters inside strings, and repeated keys.
 A tree keeps the white space in front of each token, the text it derives is `Yield`, its value is `Meaning`.
 */
module JsonGrammar {
  import opened Wrappers
  import opened JsonValues

  /** How the C++ library reads a number lexeme that is not a small integer (`std::stod`). */
  type Stod = string -> Option<Number>

  datatype Tree = Tree(lead: string, body: Body)

  datatype Body =
    | Word(word: Word)
    | Numeral(lexeme: Lexeme)
    | Text(units: seq<Unit>)
    | Array(items: seq<Item>, close: string)      // `close` is the space inside an empty array
    | Object(fields: seq<Field>, closing: string)

  datatype Word = NullWord | TrueWord | FalseWord
  datatype Item = Item(val: Tree, after: string)
  datatype Field = Field(lead: string, key: seq<Unit>, gap: string, val: Tree, after: string)
  datatype Lexeme = Lexeme(minus: bool, digits: string, frac: Option<string>, exp: Option<Exponent>)
  datatype Exponent = Exponent(e: char, sign: string, digits: string)
  datatype Unit = Plain(c: char) | Escape(e: char) | Hex(h: string)

  // Characters

  predicate IsWs(c: char) {
    c == ' ' || c == '\t' || c == '\n' || c == '\r'
  }

  predicate AllWs(s: string) {
    forall i :: 0 <= i < |s| ==> IsWs(s[i])
  }

  predicate IsDigit(c: char) {
    '0' <= c <= '9'
  }

  predicate AllDigits(s: string) {
    forall i :: 0 <= i < |s| ==> IsDigit(s[i])
  }

  predicate IsHex(c: char) {
    IsDigit(c) || 'a' <= c <= 'f' || 'A' <= c <= 'F'
  }

  predicate IsEscape(e: char) {
    e == '"' || e == '\\' || e == '/' || e == 'n' || e == 'r' || e == 't' || e == 'b' || e == 'f'
  }

  function Unescaped(e: char): char
    requires IsEscape(e)
  {
    match e
    case 'n' => '\n'
    case 'r' => '\r'
    case 't' => '\t'
    case 'b' => '\U{8}'
    case 'f' => '\U{C}'
    case _ => e
  }

  function HexDigit(c: char): (d: nat)
    requires IsHex(c)
    ensures d < 16
  {
    if IsDigit(c) then c as int - '0' as int
    else if 'a' <= c <= 'f' then c as int - 'a' as int + 10
    else c as int - 'A' as int + 10
  }

  /** The code point of a hexadecimal string. */
  function HexValue(h: string): (n: nat)
    requires forall i :: 0 <= i < |h| ==> IsHex(h[i])
  {
    if h == "" then 0 else HexValue(h[..|h| - 1]) * 16 + HexDigit(h[|h| - 1])
  }

  lemma HexValueBound(h: string)
    requires |h| == 4 && forall i :: 0 <= i < |h| ==> IsHex(h[i])
    ensures HexValue(h) == HexDigit(h[0]) * 4096 + HexDigit(h[1]) * 256 + HexDigit(h[2]) * 16 + HexDigit(h[3])
    ensures HexValue(h) < 0x1_0000
  {
    assert h[..3][..2] == h[..2] && h[..2][..1] == h[..1] && h[..1][..0] == "";
    assert HexValue(h[..1]) == HexDigit(h[0]);
    assert HexValue(h[..2]) == HexValue(h[..1]) * 16 + HexDigit(h[1]);
    assert HexValue(h[..3]) == HexValue(h[..2]) * 16 + HexDigit(h[2]);
  }

  /** UTF-8 bytes of a code point of the basic plane, as the parser writes them (RFC 3629 section 3). */
  function Utf8(cp: nat): string
    requires cp < 0x1_0000
  {
    if cp < 0x80 then [cp as char]
    else if cp < 0x800 then [(0xC0 + cp / 64) as char, (0x80 + cp % 64) as char]
    else [(0xE0 + cp / 4096) as char, (0x80 + cp / 64 % 64) as char, (0x80 + cp % 64) as char]
  }

  // String literals

  predicate UnitOk(u: Unit) {
    match u
    case Plain(c) => c != '"' && c != '\\'
    case Escape(e) => IsEscape(e)
    case Hex(h) => |h| == 4 && forall i :: 0 <= i < 4 ==> IsHex(h[i])
  }

  ghost predicate UnitsOk(us: seq<Unit>) {
    forall i :: 0 <= i < |us| ==> UnitOk(us[i])
  }

  function UnitYield(u: Unit): string {
    match u
    case Plain(c) => [c]
    case Escape(e) => ['\\', e]
    case Hex(h) => "\\u" + h
  }

  function UnitMeaning(u: Unit): string
    requires UnitOk(u)
  {
    match u
    case Plain(c) => [c]
    case Escape(e) => [Unescaped(e)]
    case Hex(h) => HexValueBound(h); Utf8(HexValue(h))
  }

  ghost function UnitsYield(us: seq<Unit>): string {
    if us == [] then "" else UnitYield(us[0]) + UnitsYield(us[1..])
  }

  ghost function UnitsMeaning(us: seq<Unit>): string
    requires UnitsOk(us)
  {
    if us == [] then "" else UnitMeaning(us[0]) + UnitsMeaning(us[1..])
  }

  // Numbers

  function MinusYield(minus: bool): string {
    if minus then "-" else ""
  }

  function FractionYield(frac: Option<string>): string {
    match frac case None => "" case Some(f) => "." + f
  }

  function ExponentYield(exp: Option<Exponent>): string {
    match exp case None => "" case Some(p) => [p.e] + (p.sign + p.digits)
  }

  function LexemeYield(x: Lexeme): string {
    MinusYield(x.minus) + (x.digits + (FractionYield(x.frac) + ExponentYield(x.exp)))
  }

  predicate LexemeOk(x: Lexeme) {
    && AllDigits(x.digits)
    && (!x.minus ==> x.digits != "")
    && (x.frac.Some? ==> AllDigits(x.frac.value))
    && (x.exp.Some? ==>
          && (x.exp.value.e == 'e' || x.exp.value.e == 'E')
          && (x.exp.value.sign == "" || x.exp.value.sign == "+" || x.exp.value.sign == "-")
          && AllDigits(x.exp.value.digits))
  }

  function Decimal(s: string): nat
    requires AllDigits(s)
  {
    if s == "" then 0 else Decimal(s[..|s| - 1]) * 10 + (s[|s| - 1] as int - '0' as int)
  }

  /** An optional minus sign and at least one digit. */
  predicate IsInteger(lexeme: string) {
    if lexeme != "" && lexeme[0] == '-' then lexeme != "-" && AllDigits(lexeme[1..])
    else lexeme != "" && AllDigits(lexeme)
  }

  function IntegerValue(lexeme: string): int
    requires IsInteger(lexeme)
  {
    if lexeme[0] == '-' then 0 - Decimal(lexeme[1..]) as int else Decimal(lexeme)
  }

  /** Integers within 2^53 are read exactly; for other lexemes the answer is the library's. */
  function NumberOf(stod: Stod, lexeme: string): Option<Number> {
    if IsInteger(lexeme) && -EXACT <= IntegerValue(lexeme) <= EXACT then Some(Int(IntegerValue(lexeme)))
    else stod(lexeme)
  }

  // Values

  function WordYield(w: Word): string {
    match w
    case NullWord => "null"
    case TrueWord => "true"
    case FalseWord => "false"
  }

  function WordMeaning(w: Word): Json {
    match w
    case NullWord => Null
    case TrueWord => Bool(true)
    case FalseWord => Bool(false)
  }

  ghost predicate Ok(stod: Stod, t: Tree) {
    AllWs(t.lead) && BodyOk(stod, t.body)
  }

  ghost predicate BodyOk(stod: Stod, b: Body) {
    match b
    case Word(_) => true
    case Numeral(x) => LexemeOk(x) && NumberOf(stod, LexemeYield(x)).Some?
    case Text(us) => UnitsOk(us)
    case Array(items, close) => AllWs(close) && ItemsOk(stod, items)
    case Object(fields, close) => AllWs(close) && FieldsOk(stod, fields)
  }

  ghost predicate ItemsOk(stod: Stod, items: seq<Item>) {
    items == [] || (Ok(stod, items[0].val) && AllWs(items[0].after) && ItemsOk(stod, items[1..]))
  }

  ghost predicate FieldsOk(stod: Stod, fs: seq<Field>) {
    fs == [] ||
    (&& AllWs(fs[0].lead) && UnitsOk(fs[0].key) && AllWs(fs[0].gap)
     && Ok(stod, fs[0].val) && AllWs(fs[0].after) && FieldsOk(stod, fs[1..]))
  }

  ghost function Yield(t: Tree): string {
    t.lead + BodyYield(t.body)
  }

  ghost function BodyYield(b: Body): string {
    match b
    case Word(w) => WordYield(w)
    case Numeral(x) => LexemeYield(x)
    case Text(us) => Quoted(us)
    case Array(items, close) => "[" + (if items == [] then close + "]" else ItemsYield(items))
    case Object(fields, close) => "{" + (if fields == [] then close + "}" else FieldsYield(fields))
  }

  ghost function Quoted(us: seq<Unit>): string {
    "\"" + UnitsYield(us) + "\""
  }

  /** The items of an array from here to its closing bracket. */
  ghost function ItemsYield(items: seq<Item>): string
    requires items != []
  {
    Yield(items[0].val) + (items[0].after + (if |items| == 1 then "]" else "," + ItemsYield(items[1..])))
  }

  ghost function FieldsYield(fs: seq<Field>): string
    requires fs != []
  {
    fs[0].lead + (Quoted(fs[0].key) + (fs[0].gap + (":" + (Yield(fs[0].val)
    + (fs[0].after + (if |fs| == 1 then "}" else "," + FieldsYield(fs[1..])))))))
  }

  ghost function Meaning(stod: Stod, t: Tree): Json
    requires Ok(stod, t)
  {
    BodyMeaning(stod, t.body)
  }

  ghost function BodyMeaning(stod: Stod, b: Body): Json
    requires BodyOk(stod, b)
  {
    match b
    case Word(w) => WordMeaning(w)
    case Numeral(x) => Num(NumberOf(stod, LexemeYield(x)).value)
    case Text(us) => Str(UnitsMeaning(us))
    case Array(items, _) => Arr(ItemsMeaning(stod, items))
    case Object(fields, _) => Obj(Collect([], FieldsMeaning(stod, fields)))
  }

  ghost function ItemsMeaning(stod: Stod, items: seq<Item>): seq<Json>
    requires ItemsOk(stod, items)
  {
    if items == [] then [] else [Meaning(stod, items[0].val)] + ItemsMeaning(stod, items[1..])
  }

  ghost function FieldsMeaning(stod: Stod, fs: seq<Field>): seq<Member>
    requires FieldsOk(stod, fs)
  {
    if fs == [] then []
    else [Member(UnitsMeaning(fs[0].key), Meaning(stod, fs[0].val))] + FieldsMeaning(stod, fs[1..])
  }

  /** The tree and trailing space `tail` derive the whole text, with the value `v`. */
  ghost predicate Derives(stod: Stod, t: Tree, tail: string, text: string, v: Json) {
    Ok(stod, t) && AllWs(tail) && text == Yield(t) + tail && v == Meaning(stod, t)
  }
}
