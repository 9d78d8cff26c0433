/** JSON texts as the grammar of RFC 8259 derives them, and the value each denotes. Without `strict` the
    grammar is the wider one the parser goes by. */
module JsonGrammar {
  import opened JsonText
  import opened JsonParse
  import opened JsonNumerals

  // ---- strings -----------------------------------------------------------------------------------

  /** A character, an escape of two characters, or one or two Unicode escapes. */
  datatype StrItem = Plain(c: Char) | Short(letter: Char) | Quad(hex: CString) | Pair(high: CString, low: CString)

  predicate IsHexChar(c: int) {
    48 <= c <= 57 || 65 <= c <= 70 || 97 <= c <= 102
  }

  function HexNumber(c: int): int {
    if c <= 57 then c - 48 else if c <= 70 then c - 65 + 10 else c - 97 + 10
  }

  predicate IsQuad(h: CString) {
    |h| == 4 && forall k :: 0 <= k < 4 ==> IsHexChar(h[k])
  }

  function QuadNumber(h: CString): int
    requires |h| == 4
  {
    HexNumber(h[0]) * 0x1000 + HexNumber(h[1]) * 0x100 + HexNumber(h[2]) * 0x10 + HexNumber(h[3])
  }

  /** What the letter behind a backslash stands for. */
  function ShortMeaning(letter: Char): Char {
    if letter == 98 then 8
    else if letter == 102 then 12
    else if letter == 110 then 10
    else if letter == 114 then 13
    else if letter == 116 then 9
    else letter
  }

  predicate IsHigh(u: int) {
    0xD800 <= u <= 0xDBFF
  }

  predicate IsLow(u: int) {
    0xDC00 <= u <= 0xDFFF
  }

  /** The parser takes control characters as they are, any letter behind a backslash, a Unicode escape
      of zero or of half a pair, and a pair whose second half is none. */
  predicate IsItem(it: StrItem, strict: bool) {
    match it
    case Plain(c) => c != QUOTE && c != BACKSLASH && (strict ==> c >= 32)
    case Short(l) => if strict then l in [QUOTE, BACKSLASH, 47, 98, 102, 110, 114, 116] else l != 117
    case Quad(h) => IsQuad(h) && (strict ==> QuadNumber(h) != 0 && !IsHigh(QuadNumber(h)) && !IsLow(QuadNumber(h)))
    case Pair(h, l) => IsQuad(h) && IsQuad(l) && IsHigh(QuadNumber(h)) && (strict ==> IsLow(QuadNumber(l)))
  }

  function ItemText(it: StrItem): CString {
    match it
    case Plain(c) => [c]
    case Short(l) => [BACKSLASH, l]
    case Quad(h) => [BACKSLASH, 117] + h
    case Pair(h, l) => [BACKSLASH, 117] + h + ([BACKSLASH, 117] + l)
  }

  lemma QuadIsSmall(h: CString)
    requires IsQuad(h)
    ensures 0 <= QuadNumber(h) < 0x10000
  {
    assert forall k :: 0 <= k < 4 ==> 0 <= HexNumber(h[k]) < 16;
  }

  /** The bytes an item stands for: escapes that stand for no character give none. */
  function ItemBytes(it: StrItem): CString {
    match it
    case Plain(c) => [c]
    case Short(l) => [ShortMeaning(l)]
    case Quad(h) =>
      if !IsQuad(h) || QuadNumber(h) == 0 || IsHigh(QuadNumber(h)) || IsLow(QuadNumber(h)) then []
      else QuadIsSmall(h); Utf8(QuadNumber(h))
    case Pair(h, l) =>
      if !IsQuad(h) || !IsQuad(l) || !IsHigh(QuadNumber(h)) || !IsLow(QuadNumber(l)) then []
      else Utf8(0x10000 + (QuadNumber(h) - 0xD800) * 0x400 + (QuadNumber(l) - 0xDC00))
  }

  /** An escape of the first half of a pair, with no escape of the second half. */
  predicate IsHalf(it: StrItem) {
    it.Quad? && IsQuad(it.hex) && IsHigh(QuadNumber(it.hex))
  }

  predicate AreItems(items: seq<StrItem>, strict: bool) {
    && (forall k :: 0 <= k < |items| ==> IsItem(items[k], strict))
    && forall k :: 0 < k < |items| && IsHalf(items[k - 1]) ==> items[k].Plain? || items[k].Short?
  }

  function ItemsText(items: seq<StrItem>): CString {
    if items == [] then [] else ItemText(items[0]) + ItemsText(items[1..])
  }

  function ItemsBytes(items: seq<StrItem>): CString {
    if items == [] then [] else ItemBytes(items[0]) + ItemsBytes(items[1..])
  }

  function StringText(items: seq<StrItem>): CString {
    [QUOTE] + (ItemsText(items) + [QUOTE])
  }

  // ---- values ------------------------------------------------------------------------------------

  datatype Node =
    | NullNode | FalseNode | TrueNode
    | NumberNode(number: Numeral)
    | StringNode(items: seq<StrItem>)
    | ArrayNode(space: CString, elements: Elements)
    | ObjectNode(space: CString, entries: Entries)

  /** Elements with the space before and after each. */
  datatype Elements = NoElement | Element(before: CString, node: Node, after: CString, next: Elements)

  /** Members with the space before the name, around the colon and after the value. */
  datatype Entries =
    | NoEntry
    | Entry(before: CString, name: seq<StrItem>, mid: CString, lead: CString, node: Node, after: CString, next: Entries)

  /** Space of the grammar; the parser takes every control character for space. */
  predicate IsSpace(w: CString, strict: bool) {
    forall k :: 0 <= k < |w| ==> if strict then w[k] == SPACE || w[k] == TAB || w[k] == NEWLINE || w[k] == 13 else w[k] <= 32
  }

  predicate IsNode(n: Node, strict: bool) {
    match n
    case NumberNode(number) => IsNumeral(number, strict)
    case StringNode(items) => AreItems(items, strict)
    case ArrayNode(space, elements) => IsSpace(space, strict) && AreElements(elements, strict)
    case ObjectNode(space, entries) => IsSpace(space, strict) && AreEntries(entries, strict)
    case _ => true
  }

  predicate AreElements(e: Elements, strict: bool) {
    e.Element? ==>
      IsSpace(e.before, strict) && IsNode(e.node, strict) && IsSpace(e.after, strict) && AreElements(e.next, strict)
  }

  predicate AreEntries(e: Entries, strict: bool) {
    e.Entry? ==>
      && IsSpace(e.before, strict) && AreItems(e.name, strict) && IsSpace(e.mid, strict) && IsSpace(e.lead, strict)
      && IsNode(e.node, strict) && IsSpace(e.after, strict) && AreEntries(e.next, strict)
  }

  lemma {:induction false} StrictIsNode(n: Node)
    requires IsNode(n, true)
    ensures IsNode(n, false)
    decreases n
  {
    hide IsItem;
    match n
    case StringNode(items) => StrictAreItems(items);
    case ArrayNode(_, elements) => StrictAreElements(elements);
    case ObjectNode(_, entries) => StrictAreEntries(entries);
    case _ =>
  }

  lemma StrictAreItems(items: seq<StrItem>)
    requires AreItems(items, true)
    ensures AreItems(items, false)
  {
    hide IsQuad, QuadNumber;
  }

  lemma {:induction false} StrictAreElements(e: Elements)
    requires AreElements(e, true)
    ensures AreElements(e, false)
    decreases e
  {
    hide IsNode;
    if e.Element? {
      StrictIsNode(e.node);
      StrictAreElements(e.next);
    }
  }

  lemma {:induction false} StrictAreEntries(e: Entries)
    requires AreEntries(e, true)
    ensures AreEntries(e, false)
    decreases e
  {
    hide IsNode, AreItems;
    if e.Entry? {
      StrictIsNode(e.node);
      StrictAreItems(e.name);
      StrictAreEntries(e.next);
    }
  }

  function NodeText(n: Node): CString {
    match n
    case NullNode => NULL_WORD
    case FalseNode => FALSE_WORD
    case TrueNode => TRUE_WORD
    case NumberNode(number) => NumeralText(number)
    case StringNode(items) => StringText(items)
    case ArrayNode(space, elements) =>
      if elements.NoElement? then [OPEN_ARRAY] + (space + [CLOSE_ARRAY])
      else [OPEN_ARRAY] + (elements.before + ElementsText(elements))
    case ObjectNode(space, entries) =>
      if entries.NoEntry? then [OPEN_OBJECT] + (space + [CLOSE_OBJECT])
      else [OPEN_OBJECT] + (entries.before + EntriesText(entries))
  }

  /** From the first value to the closing bracket. */
  function ElementsText(e: Elements): CString
    requires e.Element?
  {
    NodeText(e.node) + (e.after + (if e.next.NoElement? then [CLOSE_ARRAY] else [COMMA] + (e.next.before + ElementsText(e.next))))
  }

  /** From the first name to the closing brace. */
  function EntriesText(e: Entries): CString
    requires e.Entry?
    decreases e, 1
  {
    StringText(e.name) + (e.mid + ([COLON] + (e.lead + (NodeText(e.node) + (e.after + EntriesTail(e))))))
  }

  function EntriesTail(e: Entries): CString
    requires e.Entry?
    decreases e, 0
  {
    if e.next.NoEntry? then [CLOSE_OBJECT] else [COMMA] + (e.next.before + EntriesText(e.next))
  }

  /** The value a text denotes. */
  function Meaning(n: Node): Json {
    match n
    case NullNode => Null
    case FalseNode => False
    case TrueNode => True
    case NumberNode(number) => Number(NumeralValue(number))
    case StringNode(items) => Str(ItemsBytes(items))
    case ArrayNode(_, elements) => Array(ElementsMeaning(elements))
    case ObjectNode(_, entries) => Object(EntriesMeaning(entries))
  }

  function ElementsMeaning(e: Elements): Items {
    if e.NoElement? then NoItem else Item(Meaning(e.node), ElementsMeaning(e.next))
  }

  function EntriesMeaning(e: Entries): Members {
    if e.NoEntry? then NoMember else Member(ItemsBytes(e.name), Meaning(e.node), EntriesMeaning(e.next))
  }
}
