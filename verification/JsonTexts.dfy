/** The parser reads every text of the grammar as the value the text denotes. */
module JsonTexts {
  import opened JsonText
  import opened JsonParse
  import opened JsonRoundTrip
  import opened JsonNumerals
  import opened JsonGrammar

  // ---- strings -----------------------------------------------------------------------------------

  lemma HexNumberIs(c: int)
    requires IsHexChar(c)
    ensures HexValue(c) == HexNumber(c) && 0 <= HexNumber(c) < 16
  {
  }

  lemma QuadIsRead(s: CString, i: nat, h: CString)
    requires Has(s, i, h) && IsQuad(h)
    ensures IsHex4(s, i) && Hex4(s, i) == QuadNumber(h) && i + 4 <= |s|
  {
    forall k | 0 <= k < 4 ensures At(s, i + k) == h[k] && HexValue(h[k]) == HexNumber(h[k]) >= 0 {
      assert s[i..i + 4][k] == h[k];
      HexNumberIs(h[k]);
    }
    assert At(s, i) == h[0] && At(s, i + 1) == h[1] && At(s, i + 2) == h[2] && At(s, i + 3) == h[3];
  }

  lemma EscapeAt(s: CString, i: nat, h: CString)
    requires Has(s, i, [BACKSLASH, 117] + h) && IsQuad(h)
    ensures i + 6 <= |s| && s[i] == BACKSLASH && s[i + 1] == 117 && IsHex4(s, i + 2) && Hex4(s, i + 2) == QuadNumber(h)
  {
    HasParts(s, i, [BACKSLASH, 117], h);
    assert s[i..i + 2][0] == BACKSLASH && s[i..i + 2][1] == 117;
    QuadIsRead(s, i + 2, h);
  }

  lemma SurrogateParts(h: int, l: int)
    requires IsHigh(h) && IsLow(l)
    ensures 0x10000 + h % 0x400 * 0x400 + l % 0x400 == 0x10000 + (h - 0xD800) * 0x400 + (l - 0xDC00)
  {
  }

  /** An item of a string is read as the bytes it stands for. */
  lemma ItemIsRead(s: CString, i: nat, it: StrItem)
    requires Has(s, i, ItemText(it)) && IsItem(it, false)
    requires IsHalf(it) ==> At(s, i + 6) != BACKSLASH || At(s, i + 7) != 117
    ensures i < |s| && s[i] != QUOTE
    ensures Unescaped(s, i) == Ok(ItemBytes(it), i + |ItemText(it)|)
  {
    hide Hex4, IsHex4, QuadNumber, Utf8;
    match it
    case Plain(c) => HasAt(s, i, c);
    case Short(l) =>
      assert s[i..i + 2][0] == BACKSLASH && s[i..i + 2][1] == l;
    case Quad(h) =>
      EscapeAt(s, i, h);
    case Pair(h, l) =>
      HasParts(s, i, [BACKSLASH, 117] + h, [BACKSLASH, 117] + l);
      EscapeAt(s, i, h);
      EscapeAt(s, i + 6, l);
      if IsLow(QuadNumber(l)) {
        SurrogateParts(QuadNumber(h), QuadNumber(l));
      }
  }

  /** A quote, or the end of the text. */
  predicate StringEnds(s: CString, e: nat) {
    e == |s| || (e < |s| && s[e] == QUOTE)
  }

  /** What follows the first item does not make it half of a pair. */
  lemma NoHalf(s: CString, i: nat, items: seq<StrItem>)
    requires items != [] && AreItems(items, false) && Has(s, i, ItemsText(items[1..]))
    requires StringEnds(s, i + |ItemsText(items[1..])|)
    ensures IsHalf(items[0]) ==> At(s, i) != BACKSLASH || At(s, i + 1) != 117
  {
    hide IsHalf, IsQuad, QuadNumber, Has;
    if |items| > 1 && IsHalf(items[0]) {
      var next := items[1];
      assert IsHalf(items[1 - 1]);
      HasParts(s, i, ItemText(next), ItemsText(items[1..][1..]));
      PlainOrShortAt(s, i, next);
    }
  }

  lemma PlainOrShortAt(s: CString, i: nat, it: StrItem)
    requires Has(s, i, ItemText(it)) && IsItem(it, false) && (it.Plain? || it.Short?)
    ensures At(s, i) != BACKSLASH || At(s, i + 1) != 117
  {
    if it.Plain? {
      HasAt(s, i, it.c);
    } else {
      assert s[i..i + 2][1] == it.letter;
    }
  }

  lemma {:induction false} ItemsAreRead(s: CString, i: nat, items: seq<StrItem>)
    requires i <= |s| && Has(s, i, ItemsText(items)) && AreItems(items, false) && StringEnds(s, i + |ItemsText(items)|)
    ensures Characters(s, i) == Ok(ItemsBytes(items), i + |ItemsText(items)|)
    decreases |items|
  {
    hide Unescaped, ItemText, ItemBytes, IsItem, Has, IsHalf;
    if items != [] {
      var it, rest := items[0], items[1..];
      HasParts(s, i, ItemText(it), ItemsText(rest));
      NoHalf(s, i + |ItemText(it)|, items);
      if IsHalf(it) {
        HalfIsSix(it);
      }
      ItemIsRead(s, i, it);
      RestAreItems(items);
      ItemsAreRead(s, i + |ItemText(it)|, rest);
    }
  }

  lemma HalfIsSix(it: StrItem)
    requires IsHalf(it)
    ensures |ItemText(it)| == 6
  {
  }

  lemma RestAreItems(items: seq<StrItem>)
    requires items != [] && AreItems(items, false)
    ensures AreItems(items[1..], false)
  {
    hide IsItem, IsHalf;
    forall k | 0 < k < |items[1..]| && IsHalf(items[1..][k - 1]) ensures items[1..][k].Plain? || items[1..][k].Short? {
      assert IsHalf(items[k + 1 - 1]);
    }
  }

  lemma StringIsRead(s: CString, i: nat, items: seq<StrItem>)
    requires Has(s, i, StringText(items)) && AreItems(items, false)
    ensures i < |s| && s[i] == QUOTE
    ensures ParseString(s, i) == Ok(ItemsBytes(items), i + |StringText(items)|)
  {
    hide Has, ItemsText, ItemsBytes, Characters, AreItems;
    HasParts(s, i, [QUOTE], ItemsText(items) + [QUOTE]);
    HasAt(s, i, QUOTE);
    HasParts(s, i + 1, ItemsText(items), [QUOTE]);
    HasAt(s, i + 1 + |ItemsText(items)|, QUOTE);
    ItemsAreRead(s, i + 1, items);
  }

  /** A string that nothing closes is read to the end of the text. */
  lemma UnclosedIsRead(s: CString, i: nat, items: seq<StrItem>)
    requires Has(s, i, [QUOTE] + ItemsText(items)) && AreItems(items, false) && i + 1 + |ItemsText(items)| == |s|
    ensures i < |s| && s[i] == QUOTE && ParseString(s, i) == Ok(ItemsBytes(items), |s|)
  {
    hide Has, ItemsText, ItemsBytes, Characters, AreItems;
    HasParts(s, i, [QUOTE], ItemsText(items));
    HasAt(s, i, QUOTE);
    ItemsAreRead(s, i + 1, items);
  }

  // ---- space -------------------------------------------------------------------------------------

  lemma SpaceIsBlank(w: CString)
    requires IsSpace(w, false)
    ensures Blank(w)
  {
  }

  lemma SpaceIsSkipped(s: CString, i: nat, w: CString)
    requires Has(s, i, w) && IsSpace(w, false) && At(s, i + |w|) > 32
    ensures i <= |s| && Skip(s, i) == i + |w|
  {
    SpaceIsBlank(w);
    SkipsBlank(s, i, w);
  }

  /** Space, a comma, a closing bracket or brace, or the end. */
  predicate Separates(c: int) {
    c <= 32 || c == COMMA || c == CLOSE_ARRAY || c == CLOSE_OBJECT
  }

  lemma SpaceSeparates(s: CString, k: nat, w: CString, c: Char)
    requires Has(s, k, w) && Has(s, k + |w|, [c]) && IsSpace(w, false) && Separates(c)
    ensures k < |s| && Separates(At(s, k))
  {
    HasAt(s, k + |w|, c);
    if w != [] {
      assert s[k..k + |w|][0] == w[0];
    }
  }

  // ---- values ------------------------------------------------------------------------------------

  lemma NodeBegins(s: CString, i: nat, n: Node)
    requires IsNode(n, false) && Has(s, i, NodeText(n))
    ensures i < |s| && BeginsValue(s[i])
    ensures n.NumberNode? ==> s[i] == MINUS || IsDigit(s[i])
  {
    if n.NumberNode? {
      NumeralBegins(s, i, n.number);
    } else {
      var p := NodeText(n);
      HasParts(s, i, [p[0]], p[1..]);
      assert p == [p[0]] + p[1..];
      HasAt(s, i, p[0]);
    }
  }

  lemma NumeralBegins(s: CString, i: nat, n: Numeral)
    requires IsNumeral(n, false) && Has(s, i, NumeralText(n))
    ensures i < |s| && (s[i] == MINUS || IsDigit(s[i]))
  {
    NumeralParts(s, i, n);
    if n.minus {
      HasAt(s, i, MINUS);
    } else {
      DigitAt(s, i, n.whole);
    }
  }

  /** What may follow a value. */
  predicate EndsNode(n: Node, c: int) {
    if n.NumberNode? then EndsNumeral(n.number, c) else EndsNumber(c)
  }

  lemma SeparatorEnds(n: Node, c: int)
    requires Separates(c)
    ensures EndsNode(n, c)
  {
  }

  lemma WordIsParsed(s: CString, i: nat, n: Node)
    requires (n.NullNode? || n.FalseNode? || n.TrueNode?) && Has(s, i, NodeText(n))
    ensures ParseValue(Exactly(), s, i) == Ok(Meaning(n), i + |NodeText(n)|)
  {
    var p := NodeText(n);
    assert s[i..i + |p|][0] == p[0];
    assert Has(s, i, NULL_WORD) ==> s[i..i + 4][0] == 110;
    assert Has(s, i, FALSE_WORD) ==> s[i..i + 5][0] == 102;
  }

  /** Wherever a text of the grammar stands, the parser reads the value it denotes, and stops behind it. */
  lemma {:induction false} NodeIsParsed(s: CString, i: nat, n: Node)
    requires IsNode(n, false) && Has(s, i, NodeText(n)) && EndsNode(n, At(s, i + |NodeText(n)|))
    ensures ParseValue(Exactly(), s, i) == Ok(Meaning(n), i + |NodeText(n)|)
    decreases n, 1
  {
    hide ParseItems, ParseMembers, ParseNumber, ParseString, Has, NumeralText, NumeralValue, IsNumeral, StringText, ItemsBytes,
      AreItems, ElementsText, EntriesText;
    match n
    case NullNode => WordIsParsed(s, i, n);
    case FalseNode => WordIsParsed(s, i, n);
    case TrueNode => WordIsParsed(s, i, n);
    case NumberNode(number) =>
      NumeralIsParsed(s, i, number);
      NoWord(s, i);
    case StringNode(items) =>
      StringIsRead(s, i, items);
      NoWord(s, i);
    case ArrayNode(space, elements) =>
      ArrayIsParsed(s, i, space, elements);
    case ObjectNode(space, entries) =>
      ObjectIsParsed(s, i, space, entries);
  }

  lemma {:induction false} ArrayIsParsed(s: CString, i: nat, space: CString, e: Elements)
    requires IsSpace(space, false) && AreElements(e, false) && Has(s, i, NodeText(ArrayNode(space, e)))
    ensures ParseValue(Exactly(), s, i) == Ok(Array(ElementsMeaning(e)), i + |NodeText(ArrayNode(space, e))|)
    decreases e, 3
  {
    hide ParseItems, ParseMembers, ParseNumber, ParseString, Has, Skip, IsSpace, ElementsText, NodeText;
    OpensArray(s, i, space, e);
    if e.NoElement? {
      HasParts(s, i + 1, space, [CLOSE_ARRAY]);
      HasAt(s, i + 1 + |space|, CLOSE_ARRAY);
      SpaceIsSkipped(s, i + 1, space);
    } else {
      HasParts(s, i + 1, e.before, ElementsText(e));
      var j := i + 1 + |e.before|;
      ElementsBegin(s, j, e);
      SpaceIsSkipped(s, i + 1, e.before);
      SkipsNothing(s, j);
      ElementsAreParsed(s, j, e);
    }
  }

  lemma OpensArray(s: CString, i: nat, space: CString, e: Elements)
    requires Has(s, i, NodeText(ArrayNode(space, e)))
    ensures i < |s| && s[i] == OPEN_ARRAY
    ensures !Has(s, i, NULL_WORD) && !Has(s, i, FALSE_WORD) && !Has(s, i, TRUE_WORD)
    ensures e.NoElement? ==> Has(s, i + 1, space + [CLOSE_ARRAY]) && |NodeText(ArrayNode(space, e))| == |space| + 2
    ensures e.Element? ==> Has(s, i + 1, e.before + ElementsText(e))
    ensures e.Element? ==> |NodeText(ArrayNode(space, e))| == 1 + |e.before| + |ElementsText(e)|
  {
    hide Has, ElementsText;
    HasParts(s, i, [OPEN_ARRAY], if e.NoElement? then space + [CLOSE_ARRAY] else e.before + ElementsText(e));
    HasAt(s, i, OPEN_ARRAY);
    NoWord(s, i);
  }

  lemma ElementsBegin(s: CString, i: nat, e: Elements)
    requires e.Element? && AreElements(e, false) && Has(s, i, ElementsText(e))
    ensures i < |s| && BeginsValue(s[i])
  {
    var rest := ElementsText(e)[|NodeText(e.node)|..];
    assert ElementsText(e) == NodeText(e.node) + rest;
    HasParts(s, i, NodeText(e.node), rest);
    NodeBegins(s, i, e.node);
  }

  function ElementsTail(e: Elements): CString
    requires e.Element?
  {
    if e.next.NoElement? then [CLOSE_ARRAY] else [COMMA] + (e.next.before + ElementsText(e.next))
  }

  /** Behind an element: space, then a comma or the closing bracket. */
  lemma ElementEnds(s: CString, k: nat, e: Elements, c: Char)
    requires e.Element? && AreElements(e, false) && Has(s, k, e.after + ElementsTail(e))
    requires c == if e.next.NoElement? then CLOSE_ARRAY else COMMA
    ensures k < |s| && Separates(At(s, k)) && Skip(s, k) == k + |e.after| < |s| && At(s, Skip(s, k)) == c
    ensures e.next.Element? ==> Has(s, Skip(s, k) + 1, e.next.before + ElementsText(e.next))
  {
    hide Has, Skip, ElementsText, IsSpace;
    HasParts(s, k, e.after, ElementsTail(e));
    var j := k + |e.after|;
    if e.next.Element? {
      HasParts(s, j, [COMMA], e.next.before + ElementsText(e.next));
    }
    HasAt(s, j, c);
    SpaceSeparates(s, k, e.after, c);
    SpaceIsSkipped(s, k, e.after);
  }

  lemma {:induction false} ElementsAreParsed(s: CString, i: nat, e: Elements)
    requires e.Element? && AreElements(e, false) && i <= |s| && Has(s, Skip(s, i), ElementsText(e))
    ensures ParseItems(Exactly(), s, i) == Ok(ElementsMeaning(e), Skip(s, i) + |ElementsText(e)|)
    decreases e, 2
  {
    hide ParseValue, Has, Skip, NodeText, Meaning, IsSpace, EndsNode, Separates, BeginsValue, IsNode;
    var at := Skip(s, i);
    var p := NodeText(e.node);
    assert ElementsText(e) == p + (e.after + ElementsTail(e));
    HasParts(s, at, p, e.after + ElementsTail(e));
    var k := at + |p|;
    ElementEnds(s, k, e, if e.next.NoElement? then CLOSE_ARRAY else COMMA);
    SeparatorEnds(e.node, At(s, k));
    NodeIsParsed(s, at, e.node);
    if e.next.Element? {
      NextElement(s, Skip(s, k) + 1, e.next);
      ElementsAreParsed(s, Skip(s, k) + 1, e.next);
    }
  }

  lemma NextElement(s: CString, i: nat, e: Elements)
    requires e.Element? && AreElements(e, false) && Has(s, i, e.before + ElementsText(e))
    ensures i <= |s| && Skip(s, i) == i + |e.before| && Has(s, Skip(s, i), ElementsText(e))
  {
    hide Has, Skip, ElementsText, IsSpace;
    HasParts(s, i, e.before, ElementsText(e));
    ElementsBegin(s, i + |e.before|, e);
    SpaceIsSkipped(s, i, e.before);
  }

  // ---- objects -----------------------------------------------------------------------------------

  lemma {:induction false} ObjectIsParsed(s: CString, i: nat, space: CString, e: Entries)
    requires IsSpace(space, false) && AreEntries(e, false) && Has(s, i, NodeText(ObjectNode(space, e)))
    ensures ParseValue(Exactly(), s, i) == Ok(Object(EntriesMeaning(e)), i + |NodeText(ObjectNode(space, e))|)
    decreases e, 3
  {
    hide ParseItems, ParseMembers, ParseNumber, ParseString, Has, Skip, IsSpace, EntriesText, NodeText;
    OpensEntries(s, i, space, e);
    if e.NoEntry? {
      HasParts(s, i + 1, space, [CLOSE_OBJECT]);
      HasAt(s, i + 1 + |space|, CLOSE_OBJECT);
      SpaceIsSkipped(s, i + 1, space);
    } else {
      NextEntry(s, i + 1, e);
      SkipsNothing(s, i + 1 + |e.before|);
      EntriesAreParsed(s, i + 1 + |e.before|, e);
    }
  }

  lemma OpensEntries(s: CString, i: nat, space: CString, e: Entries)
    requires Has(s, i, NodeText(ObjectNode(space, e)))
    ensures i < |s| && s[i] == OPEN_OBJECT
    ensures !Has(s, i, NULL_WORD) && !Has(s, i, FALSE_WORD) && !Has(s, i, TRUE_WORD)
    ensures e.NoEntry? ==> Has(s, i + 1, space + [CLOSE_OBJECT]) && |NodeText(ObjectNode(space, e))| == |space| + 2
    ensures e.Entry? ==> Has(s, i + 1, e.before + EntriesText(e))
    ensures e.Entry? ==> |NodeText(ObjectNode(space, e))| == 1 + |e.before| + |EntriesText(e)|
  {
    hide Has, EntriesText;
    HasParts(s, i, [OPEN_OBJECT], if e.NoEntry? then space + [CLOSE_OBJECT] else e.before + EntriesText(e));
    HasAt(s, i, OPEN_OBJECT);
    NoWord(s, i);
  }

  lemma EntriesBegin(s: CString, i: nat, e: Entries)
    requires e.Entry? && Has(s, i, EntriesText(e))
    ensures i < |s| && s[i] == QUOTE
  {
    var p := EntriesText(e);
    assert p[0] == QUOTE && p == [p[0]] + p[1..];
    HasParts(s, i, [p[0]], p[1..]);
    HasAt(s, i, p[0]);
  }

  lemma NextEntry(s: CString, i: nat, e: Entries)
    requires e.Entry? && AreEntries(e, false) && Has(s, i, e.before + EntriesText(e))
    ensures i <= |s| && Skip(s, i) == i + |e.before| && Has(s, Skip(s, i), EntriesText(e))
    ensures Skip(s, i) < |s| && At(s, Skip(s, i)) == QUOTE
  {
    hide Has, Skip, EntriesText, IsSpace;
    HasParts(s, i, e.before, EntriesText(e));
    EntriesBegin(s, i + |e.before|, e);
    SpaceIsSkipped(s, i, e.before);
  }

  /** Behind a name: space, a colon, space, and the value. */
  lemma NameEnds(s: CString, c: nat, e: Entries, rest: CString)
    requires e.Entry? && AreEntries(e, false) && Has(s, c, e.mid + ([COLON] + (e.lead + (NodeText(e.node) + rest))))
    ensures c <= |s| && Skip(s, c) == c + |e.mid| < |s| && At(s, Skip(s, c)) == COLON
    ensures Skip(s, Skip(s, c) + 1) == c + |e.mid| + 1 + |e.lead| <= |s|
    ensures Has(s, c + |e.mid| + 1 + |e.lead|, NodeText(e.node) + rest)
  {
    hide Has, Skip, NodeText, IsSpace, IsNode, BeginsValue;
    HasParts(s, c, e.mid, [COLON] + (e.lead + (NodeText(e.node) + rest)));
    var d := c + |e.mid|;
    HasParts(s, d, [COLON], e.lead + (NodeText(e.node) + rest));
    HasAt(s, d, COLON);
    SpaceIsSkipped(s, c, e.mid);
    HasParts(s, d + 1, e.lead, NodeText(e.node) + rest);
    HasParts(s, d + 1 + |e.lead|, NodeText(e.node), rest);
    NodeBegins(s, d + 1 + |e.lead|, e.node);
    BeginsAbove(s[d + 1 + |e.lead|]);
    SpaceIsSkipped(s, d + 1, e.lead);
  }

  lemma BeginsAbove(c: int)
    requires BeginsValue(c)
    ensures c > 32
  {
  }

  /** Behind a member: space, then a comma or the closing brace. */
  lemma EntryEnds(s: CString, k: nat, e: Entries, c: Char)
    requires e.Entry? && AreEntries(e, false) && Has(s, k, e.after + EntriesTail(e))
    requires c == if e.next.NoEntry? then CLOSE_OBJECT else COMMA
    ensures k < |s| && Separates(At(s, k)) && Skip(s, k) == k + |e.after| < |s| && At(s, Skip(s, k)) == c
    ensures e.next.Entry? ==> Has(s, Skip(s, k) + 1, e.next.before + EntriesText(e.next))
  {
    hide Has, Skip, EntriesText, IsSpace;
    HasParts(s, k, e.after, EntriesTail(e));
    var j := k + |e.after|;
    if e.next.Entry? {
      HasParts(s, j, [COMMA], e.next.before + EntriesText(e.next));
    }
    HasAt(s, j, c);
    SpaceSeparates(s, k, e.after, c);
    SpaceIsSkipped(s, k, e.after);
  }

  lemma {:induction false} EntriesAreParsed(s: CString, i: nat, e: Entries)
    requires e.Entry? && AreEntries(e, false) && i <= |s| && Has(s, Skip(s, i), EntriesText(e))
    ensures ParseMembers(Exactly(), s, i) == Ok(EntriesMeaning(e), Skip(s, i) + |EntriesText(e)|)
    decreases e, 2
  {
    hide ParseValue, ParseString, Has, Skip, NodeText, StringText, Meaning, IsSpace, EndsNode, Separates, IsNode, AreItems, ItemsBytes,
      EntriesTail;
    var at := Skip(s, i);
    var name, p, tail := StringText(e.name), NodeText(e.node), e.after + EntriesTail(e);
    HasParts(s, at, name, e.mid + ([COLON] + (e.lead + (p + tail))));
    StringIsRead(s, at, e.name);
    var c := at + |name|;
    NameEnds(s, c, e, tail);
    var l := c + |e.mid| + 1 + |e.lead|;
    HasParts(s, l, p, tail);
    var k := l + |p|;
    EntryEnds(s, k, e, if e.next.NoEntry? then CLOSE_OBJECT else COMMA);
    SeparatorEnds(e.node, At(s, k));
    NodeIsParsed(s, l, e.node);
    TailLength(e);
    if e.next.Entry? {
      NextEntry(s, Skip(s, k) + 1, e.next);
      EntriesAreParsed(s, Skip(s, k) + 1, e.next);
    }
  }

  lemma TailLength(e: Entries)
    requires e.Entry?
    ensures |EntriesTail(e)| == if e.next.NoEntry? then 1 else 1 + |e.next.before| + |EntriesText(e.next)|
  {
  }

  /** A whole text, with space around it, parses to the value it denotes. */
  lemma TextIsParsed(before: CString, n: Node, after: CString, whole: bool)
    requires IsSpace(before, false) && IsNode(n, false) && IsSpace(after, false)
    ensures var s := before + NodeText(n) + after;
      var r := Parse(Exactly(), s, whole);
      r == Ok(Meaning(n), if whole then |s| else |before| + |NodeText(n)|)
  {
    hide NodeText, Meaning, ParseValue, IsNode, IsSpace, Has, Skip, EndsNode, Separates, BeginsValue;
    var s := before + NodeText(n) + after;
    Whole(before, NodeText(n), after);
    NodeBegins(s, |before|, n);
    BeginsAbove(s[|before|]);
    SpaceIsSkipped(s, 0, before);
    AfterText(s, |before| + |NodeText(n)|, after);
    SeparatorEnds(n, At(s, |before| + |NodeText(n)|));
    NodeIsParsed(s, |before|, n);
  }

  lemma Whole(a: CString, b: CString, c: CString)
    ensures var s := a + b + c;
      Has(s, 0, a) && Has(s, |a|, b) && Has(s, |a| + |b|, c)
  {
  }

  lemma {:induction false} SpaceToTheEnd(s: CString, i: nat, w: CString)
    requires Has(s, i, w) && IsSpace(w, false) && i + |w| == |s|
    ensures Skip(s, i) == |s|
    decreases |w|
  {
    if w != [] {
      assert w == [w[0]] + w[1..];
      HasParts(s, i, [w[0]], w[1..]);
      HasAt(s, i, w[0]);
      SpaceToTheEnd(s, i + 1, w[1..]);
    }
  }

  lemma AfterText(s: CString, i: nat, w: CString)
    requires Has(s, i, w) && IsSpace(w, false) && i + |w| == |s|
    ensures Separates(At(s, i)) && Skip(s, i) == |s|
  {
    SpaceToTheEnd(s, i, w);
    if w != [] {
      assert s[i..i + |w|][0] == w[0];
    }
  }
}
