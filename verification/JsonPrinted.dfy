/** What is printed is a text of the grammar that denotes the value, laid out in one fixed way. */
module JsonPrinted {
  import opened JsonText
  import opened JsonNumerals
  import opened JsonGrammar

  // ---- the layout --------------------------------------------------------------------------------

  /** A character is escaped only where it has to be, in the shortest way, with small letters. */
  predicate IsShortest(it: StrItem)
    requires IsItem(it, true)
  {
    match it
    case Plain(_) => true
    case Short(l) => l != 47
    case Quad(h) => QuadNumber(h) < 32 && QuadNumber(h) !in {8, 9, 10, 12, 13} && forall k :: 0 <= k < 4 ==> !(65 <= h[k] <= 70)
    case Pair(_, _) => false
  }

  predicate AreShortest(items: seq<StrItem>)
    requires AreItems(items, true)
  {
    forall k :: 0 <= k < |items| ==> IsShortest(items[k])
  }

  /** A line break and so many tabs, or nothing in the compact layout. */
  predicate IsBreak(w: CString, tabs: int, fmt: bool) {
    if fmt then |w| == (if tabs < 0 then 1 else 1 + tabs) && w[0] == 10 && forall k :: 1 <= k < |w| ==> w[k] == 9
    else w == []
  }

  /** One space of the given kind, or nothing in the compact layout. */
  predicate IsGap(w: CString, c: Char, fmt: bool) {
    w == if fmt then [c] else []
  }

  /** Integers without point and exponent, shortest strings, and, where space is used at all, a space
      behind each comma of an array, each member on a line of its own behind a tab for every object and
      array around it, a tab behind its colon, and the closing brace on a line of its own. */
  predicate IsLaidOut(n: Node, depth: nat, fmt: bool)
    requires IsNode(n, true)
  {
    match n
    case NumberNode(number) => number.fraction == [] && number.exponent.NoPower? && (number.minus ==> number.whole != [0])
    case StringNode(items) => AreShortest(items)
    case ArrayNode(space, elements) => space == [] && AreInLine(elements, true, depth, fmt)
    case ObjectNode(space, entries) => IsBreak(space, depth - 1, fmt) && AreOnLines(entries, depth, fmt)
    case _ => true
  }

  predicate AreInLine(e: Elements, first: bool, depth: nat, fmt: bool)
    requires AreElements(e, true)
  {
    e.Element? ==>
      && IsGap(e.before, 32, fmt && !first) && e.after == []
      && IsLaidOut(e.node, depth + 1, fmt) && AreInLine(e.next, false, depth, fmt)
  }

  predicate AreOnLines(e: Entries, depth: nat, fmt: bool)
    requires AreEntries(e, true)
  {
    e.Entry? ==>
      && IsBreak(e.before, depth + 1, fmt) && AreShortest(e.name) && e.mid == [] && IsGap(e.lead, 9, fmt)
      && IsLaidOut(e.node, depth + 1, fmt) && (if e.next.Entry? then e.after == [] else IsBreak(e.after, depth, fmt))
      && AreOnLines(e.next, depth, fmt)
  }

  // ---- strings -----------------------------------------------------------------------------------

  function ItemOf(c: Char): StrItem {
    if c > 31 && c != QUOTE && c != BACKSLASH then Plain(c)
    else if ShortEscape(c) != 0 then Short(ShortEscape(c))
    else Quad([48, 48, HexDigit(c / 16), HexDigit(c % 16)])
  }

  lemma ItemOfIs(c: Char)
    ensures var it := ItemOf(c);
      IsItem(it, true) && !IsHalf(it) && IsShortest(it) && ItemText(it) == EscapedChar(c) && ItemBytes(it) == [c]
  {
    var it := ItemOf(c);
    if it.Quad? {
      assert HexNumber(HexDigit(c / 16)) == c / 16 && HexNumber(HexDigit(c % 16)) == c % 16;
      assert QuadNumber(it.hex) == c;
    }
  }

  function ItemsOf(t: CString): seq<StrItem> {
    seq(|t|, k requires 0 <= k < |t| => ItemOf(t[k]))
  }

  lemma {:induction false} ItemsOfAre(t: CString)
    ensures AreItems(ItemsOf(t), true) && AreShortest(ItemsOf(t))
    ensures StringText(ItemsOf(t)) == Quoted(t) && ItemsBytes(ItemsOf(t)) == t
  {
    hide ItemOf, IsItem, IsShortest, ItemText, EscapedChar, ItemBytes, IsHalf;
    forall c: Char ensures IsItem(ItemOf(c), true) && IsShortest(ItemOf(c)) && !IsHalf(ItemOf(c)) {
      ItemOfIs(c);
    }
    ItemsSpell(t);
    assert [QUOTE] + (Escaped(t) + [QUOTE]) == Quoted(t);
  }

  lemma {:induction false} ItemsSpell(t: CString)
    ensures ItemsText(ItemsOf(t)) == Escaped(t) && ItemsBytes(ItemsOf(t)) == t
  {
    hide ItemOf, IsItem, ItemText, EscapedChar, ItemBytes;
    if t != [] {
      assert ItemsOf(t)[1..] == ItemsOf(t[1..]) && ItemsOf(t)[0] == ItemOf(t[0]);
      ItemOfIs(t[0]);
      ItemsSpell(t[1..]);
      assert [t[0]] + t[1..] == t;
    }
  }

  // ---- values ------------------------------------------------------------------------------------

  function Gap(c: Char, fmt: bool): CString {
    if fmt then [c] else []
  }

  /** How the printed text of a value derives from the grammar. */
  function NodeOf(v: Json, depth: nat, fmt: bool): Node
    requires IntegersOnly(v)
  {
    match v
    case Null => NullNode
    case False => FalseNode
    case True => TrueNode
    case Number(d) => NumberNode(NumeralOf(d.Floor))
    case Str(text) => StringNode(ItemsOf(text))
    case Array(items) => ArrayNode([], ElementsOf(items, true, depth, fmt))
    case Object(members) => ObjectNode(Break(fmt) + Indent(depth - 1, fmt), EntriesOf(members, depth, fmt))
  }

  function ElementsOf(items: Items, first: bool, depth: nat, fmt: bool): Elements
    requires IntegerItems(items)
  {
    if items.NoItem? then NoElement
    else
      Element(Gap(SPACE, fmt && !first), NodeOf(items.value, depth + 1, fmt), [], ElementsOf(items.next, false, depth, fmt))
  }

  function EntriesOf(m: Members, depth: nat, fmt: bool): Entries
    requires IntegerMembers(m)
  {
    if m.NoMember? then NoEntry
    else
      Entry(Break(fmt) + Indent(depth + 1, fmt), ItemsOf(m.name), [], Gap(TAB, fmt), NodeOf(m.value, depth + 1, fmt),
        if m.next.Member? then [] else Break(fmt) + Indent(depth, fmt), EntriesOf(m.next, depth, fmt))
  }

  lemma BreaksAre(depth: int, fmt: bool)
    ensures var w := Break(fmt) + Indent(depth, fmt);
      IsSpace(w, true) && IsBreak(w, depth, fmt)
  {
    TabsAre(depth);
  }

  lemma {:induction false} NodeOfIs(v: Json, depth: nat, fmt: bool)
    requires IntegersOnly(v)
    ensures var n := NodeOf(v, depth, fmt);
      IsNode(n, true) && IsLaidOut(n, depth, fmt) && Meaning(n) == v
    decreases v
  {
    hide NumeralOf, NumeralText, NumeralValue, IsNumeral, AreItems, AreShortest, ItemsBytes, IsSpace, IsBreak, Indent, Break,
      AreElements, AreEntries, AreInLine, AreOnLines, ElementsMeaning, EntriesMeaning, ElementsOf, EntriesOf, ItemsOf;
    match v
    case Number(d) =>
      PrintedInteger(d.Floor);
      NoMinusZero(d.Floor);
    case Str(text) => ItemsOfAre(text);
    case Array(items) =>
      NothingIsSpace();
      ElementsOfAre(items, true, depth, fmt);
    case Object(members) =>
      BreaksAre(depth - 1, fmt);
      EntriesOfAre(members, depth, fmt);
    case _ =>
  }

  lemma NothingIsSpace()
    ensures IsSpace([], true) && IsSpace([SPACE], true) && IsSpace([TAB], true)
  {
  }

  lemma NoMinusZero(n: int)
    ensures NumeralOf(n).minus ==> NumeralOf(n).whole != [0]
  {
    if n < 0 {
      DecimalIsDigits(-n);
    }
  }

  lemma {:induction false} ElementsOfAre(items: Items, first: bool, depth: nat, fmt: bool)
    requires IntegerItems(items)
    ensures var e := ElementsOf(items, first, depth, fmt);
      AreElements(e, true) && AreInLine(e, first, depth, fmt) && ElementsMeaning(e) == items
    decreases items
  {
    hide NodeOf, IsNode, IsLaidOut, Meaning, IsSpace, AreElements, AreInLine, ElementsMeaning;
    if items.NoItem? {
      NoElementIs(first, depth, fmt);
    } else {
      NothingIsSpace();
      NodeOfIs(items.value, depth + 1, fmt);
      ElementsOfAre(items.next, false, depth, fmt);
      ElementIs(ElementsOf(items, first, depth, fmt), first, depth, fmt);
    }
  }

  lemma NoElementIs(first: bool, depth: nat, fmt: bool)
    ensures AreElements(NoElement, true) && AreInLine(NoElement, first, depth, fmt) && ElementsMeaning(NoElement) == NoItem
  {
  }

  lemma ElementIs(e: Elements, first: bool, depth: nat, fmt: bool)
    requires e.Element? && IsSpace(e.before, true) && IsNode(e.node, true) && IsSpace(e.after, true) && AreElements(e.next, true)
    requires IsGap(e.before, 32, fmt && !first) && e.after == [] && IsLaidOut(e.node, depth + 1, fmt)
    requires AreInLine(e.next, false, depth, fmt)
    ensures AreElements(e, true) && AreInLine(e, first, depth, fmt)
    ensures ElementsMeaning(e) == Item(Meaning(e.node), ElementsMeaning(e.next))
  {
    hide IsNode, IsLaidOut, Meaning, IsSpace;
  }

  lemma {:induction false} EntriesOfAre(m: Members, depth: nat, fmt: bool)
    requires IntegerMembers(m)
    ensures var e := EntriesOf(m, depth, fmt);
      AreEntries(e, true) && AreOnLines(e, depth, fmt) && EntriesMeaning(e) == m
    decreases m
  {
    hide NodeOf, IsNode, IsLaidOut, Meaning, IsSpace, IsBreak, Indent, Break, AreItems, AreShortest, ItemsBytes, ItemsOf, AreEntries,
      AreOnLines, EntriesMeaning;
    if m.NoMember? {
      NoEntryIs(depth, fmt);
    } else {
      NothingIsSpace();
      BreaksAre(depth + 1, fmt);
      BreaksAre(depth, fmt);
      ItemsOfAre(m.name);
      NodeOfIs(m.value, depth + 1, fmt);
      EntriesOfAre(m.next, depth, fmt);
      EntryIs(EntriesOf(m, depth, fmt), depth, fmt);
    }
  }

  lemma NoEntryIs(depth: nat, fmt: bool)
    ensures AreEntries(NoEntry, true) && AreOnLines(NoEntry, depth, fmt) && EntriesMeaning(NoEntry) == NoMember
  {
  }

  lemma EntryIs(e: Entries, depth: nat, fmt: bool)
    requires e.Entry? && IsSpace(e.before, true) && AreItems(e.name, true) && IsSpace(e.mid, true) && IsSpace(e.lead, true)
    requires IsNode(e.node, true) && IsSpace(e.after, true) && AreEntries(e.next, true)
    requires IsBreak(e.before, depth + 1, fmt) && AreShortest(e.name) && e.mid == [] && IsGap(e.lead, 9, fmt)
    requires IsLaidOut(e.node, depth + 1, fmt) && (if e.next.Entry? then e.after == [] else IsBreak(e.after, depth, fmt))
    requires AreOnLines(e.next, depth, fmt)
    ensures AreEntries(e, true) && AreOnLines(e, depth, fmt)
    ensures EntriesMeaning(e) == Member(ItemsBytes(e.name), Meaning(e.node), EntriesMeaning(e.next))
  {
    hide IsNode, IsLaidOut, Meaning, IsSpace, AreItems, AreShortest, IsBreak, ItemsBytes;
  }

  // ---- the text ----------------------------------------------------------------------------------

  lemma {:induction false} NodeOfText(v: Json, depth: nat, fmt: bool)
    requires IntegersOnly(v)
    ensures NodeText(NodeOf(v, depth, fmt)) == Print(v, depth, fmt)
    decreases v, 1
  {
    hide NumeralOf, NumeralText, StringText, Quoted, ItemsOf, PrintInt, ElementsText, EntriesText, PrintItems, PrintMembers, Break,
      Indent;
    match v
    case Number(d) => PrintedInteger(d.Floor);
    case Str(text) => ItemsOfAre(text);
    case Array(items) =>
      if items.Item? {
        ElementsOfText(items, true, depth, fmt);
        assert [] + ElementsText(ElementsOf(items, true, depth, fmt)) == PrintItems(items, depth, fmt) + [CLOSE_ARRAY];
      } else {
        NoItems(depth, fmt);
      }
    case Object(members) =>
      if members.Member? {
        EntriesOfText(members, depth, fmt);
        LinesOf(members, depth, fmt, EntriesText(EntriesOf(members, depth, fmt)));
      }
    case _ =>
  }

  lemma NoItems(depth: nat, fmt: bool)
    ensures PrintItems(NoItem, depth, fmt) == []
  {
  }

  lemma LinesOf(m: Members, depth: nat, fmt: bool, text: CString)
    requires m.Member? && IntegerMembers(m)
    requires Indent(depth + 1, fmt) + text == PrintMembers(m, depth + 1, fmt) + (Indent(depth, fmt) + [CLOSE_OBJECT])
    ensures Break(fmt) + Indent(depth + 1, fmt) + text
      == Break(fmt) + (PrintMembers(m, depth + 1, fmt) + (Indent(depth, fmt) + [CLOSE_OBJECT]))
  {
    hide PrintMembers, Indent, Break;
    assert Break(fmt) + Indent(depth + 1, fmt) + text == Break(fmt) + (Indent(depth + 1, fmt) + text);
  }

  lemma {:induction false} ElementsOfText(items: Items, first: bool, depth: nat, fmt: bool)
    requires items.Item? && IntegerItems(items)
    ensures ElementsText(ElementsOf(items, first, depth, fmt)) == PrintItems(items, depth, fmt) + [CLOSE_ARRAY]
    decreases items, 0
  {
    hide NodeText, NodeOf, Print;
    NodeOfText(items.value, depth + 1, fmt);
    var p := Print(items.value, depth + 1, fmt);
    if items.next.Item? {
      ElementsOfText(items.next, false, depth, fmt);
      var rest := PrintItems(items.next, depth, fmt) + [CLOSE_ARRAY];
      assert [COMMA] + (Gap(SPACE, fmt) + rest) == Comma(fmt) + rest;
      assert p + ([] + (Comma(fmt) + rest)) == PrintItems(items, depth, fmt) + [CLOSE_ARRAY];
    } else {
      assert p + ([] + [CLOSE_ARRAY]) == PrintItems(items, depth, fmt) + [CLOSE_ARRAY];
    }
  }

  /** The text behind the first indentation. */
  lemma {:induction false} EntriesOfText(m: Members, depth: nat, fmt: bool)
    requires m.Member? && IntegerMembers(m)
    ensures Indent(depth + 1, fmt) + EntriesText(EntriesOf(m, depth, fmt))
      == PrintMembers(m, depth + 1, fmt) + (Indent(depth, fmt) + [CLOSE_OBJECT])
    decreases m, 0
  {
    hide NodeText, NodeOf, Print, StringText, Quoted, ItemsOf, Indent, Break, EntriesTail, LineEnd, PrintMembers, EntriesText;
    NodeOfText(m.value, depth + 1, fmt);
    ItemsOfAre(m.name);
    if m.next.Member? {
      EntriesOfText(m.next, depth, fmt);
    }
    TailOf(m, depth, fmt);
    PrintedMember(m, depth, fmt);
    EntryText(m, depth, fmt);
    var tail := LineEnd(m.next.Member?, fmt) + PrintMembers(m.next, depth + 1, fmt);
    Regrouped(Indent(depth + 1, fmt), Quoted(m.name), fmt, Print(m.value, depth + 1, fmt), tail,
      Indent(depth, fmt) + [CLOSE_OBJECT]);
  }

  lemma PrintedMember(m: Members, depth: nat, fmt: bool)
    requires m.Member? && IntegerMembers(m)
    ensures PrintMembers(m, depth + 1, fmt) == Indent(depth + 1, fmt) + (Quoted(m.name) + (Colon(fmt)
      + (Print(m.value, depth + 1, fmt) + (LineEnd(m.next.Member?, fmt) + PrintMembers(m.next, depth + 1, fmt)))))
  {
    hide Indent, Quoted, Colon, Print, LineEnd;
  }

  lemma EntryText(m: Members, depth: nat, fmt: bool)
    requires m.Member? && IntegerMembers(m)
    ensures var e := EntriesOf(m, depth, fmt);
      EntriesText(e) == StringText(ItemsOf(m.name)) + ([] + ([COLON] + (Gap(TAB, fmt)
        + (NodeText(NodeOf(m.value, depth + 1, fmt)) + (e.after + EntriesTail(e))))))
  {
    hide Indent, Break, StringText, ItemsOf, NodeText, NodeOf, EntriesTail;
  }

  lemma Regrouped(w: CString, q: CString, fmt: bool, p: CString, tail: CString, close: CString)
    ensures w + (q + ([] + ([COLON] + (Gap(TAB, fmt) + (p + (tail + close)))))) == w + (q + (Colon(fmt) + (p + tail))) + close
  {
    assert [] + ([COLON] + (Gap(TAB, fmt) + (p + (tail + close)))) == Colon(fmt) + (p + tail) + close;
  }

  lemma TailOf(m: Members, depth: nat, fmt: bool)
    requires m.Member? && IntegerMembers(m)
    requires m.next.Member? ==>
      Indent(depth + 1, fmt) + EntriesText(EntriesOf(m.next, depth, fmt))
        == PrintMembers(m.next, depth + 1, fmt) + (Indent(depth, fmt) + [CLOSE_OBJECT])
    ensures var e := EntriesOf(m, depth, fmt);
      e.after + EntriesTail(e)
        == LineEnd(m.next.Member?, fmt) + PrintMembers(m.next, depth + 1, fmt) + (Indent(depth, fmt) + [CLOSE_OBJECT])
  {
    hide Indent, Break, NodeText, EntriesText, NodeOf, ItemsOf, PrintMembers;
    if m.next.Member? {
      var e := EntriesOf(m.next, depth, fmt);
      CommaEnds(Break(fmt), Indent(depth + 1, fmt), EntriesText(e), PrintMembers(m.next, depth + 1, fmt),
        Indent(depth, fmt) + [CLOSE_OBJECT]);
    } else {
      NoMembers(depth, fmt);
      BraceEnds(Break(fmt), Indent(depth, fmt));
    }
  }

  lemma CommaEnds(b: CString, w: CString, text: CString, rest: CString, close: CString)
    requires w + text == rest + close
    ensures [] + ([COMMA] + (b + w + text)) == [COMMA] + b + rest + close
  {
    assert b + w + text == b + (w + text);
  }

  lemma BraceEnds(b: CString, w: CString)
    ensures b + w + [CLOSE_OBJECT] == [] + b + [] + (w + [CLOSE_OBJECT])
  {
  }

  lemma NoMembers(depth: nat, fmt: bool)
    ensures PrintMembers(NoMember, depth + 1, fmt) == []
  {
  }

  /** Every printed text is one of the grammar that denotes the value, laid out as the format asks. */
  lemma PrintedIsJson(v: Json, depth: nat, fmt: bool)
    requires IntegersOnly(v)
    ensures exists n ::
      IsNode(n, true) && NodeText(n) == Print(v, depth, fmt) && Meaning(n) == v && IsLaidOut(n, depth, fmt)
  {
    NodeOfIs(v, depth, fmt);
    NodeOfText(v, depth, fmt);
  }
}
