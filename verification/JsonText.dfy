/** JSON values and the text they are printed as. Texts are C strings: bytes other than NUL,
    followed by a NUL that is not part of the sequence. */
module JsonText {

  type Char = c: int | 0 < c < 256 witness 1

  type CString = seq<Char>

  const TAB: Char := 9
  const NEWLINE: Char := 10
  const SPACE: Char := 32
  const QUOTE: Char := 34
  const COMMA: Char := 44
  const MINUS: Char := 45
  const ZERO: Char := 48
  const COLON: Char := 58
  const OPEN_ARRAY: Char := 91
  const BACKSLASH: Char := 92
  const CLOSE_ARRAY: Char := 93
  const OPEN_OBJECT: Char := 123
  const CLOSE_OBJECT: Char := 125

  const NULL_WORD: CString := [110, 117, 108, 108]
  const FALSE_WORD: CString := [102, 97, 108, 115, 101]
  const TRUE_WORD: CString := [116, 114, 117, 101]

  /** A parsed item; items of an array and members of an object are chained. */
  datatype Json =
    | Null
    | False
    | True
    | Number(value: real)
    | Str(text: CString)
    | Array(items: Items)
    | Object(members: Members)

  datatype Items = NoItem | Item(value: Json, next: Items)

  datatype Members = NoMember | Member(name: CString, value: Json, next: Members)

  /** Where the text of a whole number is given up for an exponent: 10^60. */
  const WHOLE_LIMIT: int := 1_000_000_000_000_000_000_000_000_000_000_000_000_000_000_000_000_000_000_000_000

  predicate FitsInt32(n: int) {
    -0x8000_0000 <= n <= 0x7fff_ffff
  }

  /** Numbers that are printed digit by digit: whole ones, 32-bit integers or beyond, below 10^60. */
  predicate IsWhole(d: real) {
    d == d.Floor as real && -WHOLE_LIMIT < d.Floor < WHOLE_LIMIT
  }

  /** All numbers in the value are whole. */
  predicate IntegersOnly(v: Json) {
    match v
    case Number(d) => IsWhole(d)
    case Array(items) => IntegerItems(items)
    case Object(members) => IntegerMembers(members)
    case _ => true
  }

  predicate IntegerItems(items: Items) {
    items.Item? ==> IntegersOnly(items.value) && IntegerItems(items.next)
  }

  predicate IntegerMembers(members: Members) {
    members.Member? ==> IntegersOnly(members.value) && IntegerMembers(members.next)
  }

  // ---- strings ---------------------------------------------------------------------------------

  /** The letter that follows the backslash for a character with a short escape, or 0. */
  function ShortEscape(c: Char): int {
    if c == BACKSLASH then BACKSLASH
    else if c == QUOTE then QUOTE
    else if c == 8 then 98
    else if c == 12 then 102
    else if c == 10 then 110
    else if c == 13 then 114
    else if c == 9 then 116
    else 0
  }

  function HexDigit(d: int): Char
    requires 0 <= d < 16
  {
    if d < 10 then 48 + d else 87 + d
  }

  /** How one character of a string is printed. */
  function EscapedChar(c: Char): CString {
    if c > 31 && c != QUOTE && c != BACKSLASH then [c]
    else if ShortEscape(c) != 0 then [BACKSLASH, ShortEscape(c)]
    else [BACKSLASH, 117, 48, 48, HexDigit(c / 16), HexDigit(c % 16)]
  }

  function Escaped(s: CString): CString {
    if s == [] then [] else EscapedChar(s[0]) + Escaped(s[1..])
  }

  function Quoted(s: CString): CString {
    [QUOTE] + Escaped(s) + [QUOTE]
  }

  // ---- numbers ---------------------------------------------------------------------------------

  function Decimal(n: nat): CString {
    if n < 10 then [ZERO + n] else Decimal(n / 10) + [ZERO + n % 10]
  }

  function PrintInt(n: int): CString {
    if n < 0 then [MINUS] + Decimal(-n) else Decimal(n)
  }

  // ---- values ----------------------------------------------------------------------------------

  function Tabs(n: int): CString {
    if n <= 0 then [] else [TAB] + Tabs(n - 1)
  }

  lemma {:induction false} TabsAre(n: int)
    ensures |Tabs(n)| == if n < 0 then 0 else n
    ensures forall k :: 0 <= k < |Tabs(n)| ==> Tabs(n)[k] == TAB
  {
    if n > 0 {
      TabsAre(n - 1);
    }
  }

  function Comma(fmt: bool): CString {
    if fmt then [COMMA, SPACE] else [COMMA]
  }

  function Break(fmt: bool): CString {
    if fmt then [NEWLINE] else []
  }

  function Indent(depth: int, fmt: bool): CString {
    if fmt then Tabs(depth) else []
  }

  function Colon(fmt: bool): CString {
    if fmt then [COLON, TAB] else [COLON]
  }

  /** The printed text, `fmt` with line breaks and tabs. */
  function Print(v: Json, depth: nat, fmt: bool): CString
    requires IntegersOnly(v)
  {
    match v
    case Null => NULL_WORD
    case False => FALSE_WORD
    case True => TRUE_WORD
    case Number(d) => PrintInt(d.Floor)
    case Str(text) => Quoted(text)
    case Array(items) => [OPEN_ARRAY] + (PrintItems(items, depth, fmt) + [CLOSE_ARRAY])
    case Object(members) =>
      if members.NoMember? then
        [OPEN_OBJECT] + (Break(fmt) + Indent(depth - 1, fmt) + [CLOSE_OBJECT])
      else
        [OPEN_OBJECT] + (Break(fmt) + (PrintMembers(members, depth + 1, fmt) + (Indent(depth, fmt) + [CLOSE_OBJECT])))
  }

  function PrintItems(items: Items, depth: nat, fmt: bool): CString
    requires IntegerItems(items)
  {
    match items
    case NoItem => []
    case Item(v, next) =>
      Print(v, depth + 1, fmt) + (if next.Item? then Comma(fmt) + PrintItems(next, depth, fmt) else [])
  }

  function PrintMembers(members: Members, depth: nat, fmt: bool): CString
    requires IntegerMembers(members)
  {
    match members
    case NoMember => []
    case Member(name, v, next) =>
      Indent(depth, fmt)
      + (Quoted(name) + (Colon(fmt) + (Print(v, depth, fmt) + (LineEnd(next.Member?, fmt) + PrintMembers(next, depth, fmt)))))
  }

  /** What follows a member: a comma unless it is the last, and a line break. */
  function LineEnd(more: bool, fmt: bool): CString {
    (if more then [COMMA] else []) + Break(fmt)
  }

  lemma PrintedArray(items: Items, depth: nat, fmt: bool)
    requires IntegerItems(items)
    ensures Print(Array(items), depth, fmt) == [OPEN_ARRAY] + (PrintItems(items, depth, fmt) + [CLOSE_ARRAY])
  {
  }

  /** The text t stands in s from place i on. */
  predicate Has(s: CString, i: nat, t: CString) {
    i + |t| <= |s| && s[i..i + |t|] == t
  }

  lemma HasParts(s: CString, i: nat, a: CString, b: CString)
    ensures Has(s, i, a + b) <==> Has(s, i, a) && Has(s, i + |a|, b)
  {
    if Has(s, i, a) && Has(s, i + |a|, b) {
      assert s[i..i + |a + b|] == s[i..i + |a|] + s[i + |a|..i + |a| + |b|];
    }
    if Has(s, i, a + b) {
      assert s[i..i + |a|] == (a + b)[..|a|];
      assert s[i + |a|..i + |a| + |b|] == (a + b)[|a|..];
    }
  }
}
