/** What the parser accepts: every text it takes derives from the wider grammar. */
module JsonAccepted {
  import opened JsonText
  import opened JsonParse
  import opened JsonRoundTrip
  import opened JsonNumerals
  import opened JsonGrammar
  import opened JsonTexts

  lemma Joined(s: CString, i: nat, j: nat, k: nat)
    requires i <= j <= k <= |s|
    ensures s[i..k] == s[i..j] + s[j..k]
  {
  }

  // ---- strings -----------------------------------------------------------------------------------

  lemma QuadAt(s: CString, i: nat) returns (h: CString)
    requires IsHex4(s, i)
    ensures i + 4 <= |s| && h == s[i..i + 4] && IsQuad(h) && QuadNumber(h) == Hex4(s, i)
  {
    h := s[i..i + 4];
    forall k | 0 <= k < 4 ensures h[k] == At(s, i + k) && IsHexChar(h[k]) {
    }
    assert Has(s, i, h);
    QuadIsRead(s, i, h);
  }

  /** The item at place i. */
  lemma ItemIsTaken(s: CString, i: nat) returns (it: StrItem)
    requires i < |s| && s[i] != QUOTE && Unescaped(s, i).Ok?
    ensures var k := Unescaped(s, i).next;
      IsItem(it, false) && ItemText(it) == s[i..k] && (IsHalf(it) ==> At(s, k) != BACKSLASH || At(s, k + 1) != 117)
  {
    hide UnicodeEscape;
    if s[i] != BACKSLASH {
      it := Plain(s[i]);
    } else if At(s, i + 1) == 117 {
      it := EscapeIsTaken(s, i);
    } else {
      it := Short(s[i + 1]);
      assert s[i..i + 2] == [BACKSLASH, s[i + 1]];
    }
  }

  lemma EscapeIsTaken(s: CString, i: nat) returns (it: StrItem)
    requires i + 1 < |s| && s[i] == BACKSLASH && s[i + 1] == 117 && UnicodeEscape(s, i).Ok?
    ensures var k := UnicodeEscape(s, i).next;
      IsItem(it, false) && ItemText(it) == s[i..k] && (IsHalf(it) ==> At(s, k) != BACKSLASH || At(s, k + 1) != 117)
  {
    hide IsHex4, Hex4, IsQuad, QuadNumber, Utf8;
    var h := QuadAt(s, i + 2);
    assert s[i..i + 6] == [BACKSLASH, 117] + h;
    if IsHigh(QuadNumber(h)) && At(s, i + 6) == BACKSLASH && At(s, i + 7) == 117 {
      var l := QuadAt(s, i + 8);
      it := Pair(h, l);
      assert s[i..i + 12] == s[i..i + 6] + ([BACKSLASH, 117] + l);
    } else {
      it := Quad(h);
    }
  }

  lemma {:induction false} CharactersAreItems(s: CString, i: nat) returns (items: seq<StrItem>)
    requires i <= |s| && Characters(s, i).Ok?
    ensures var j := Characters(s, i).next;
      AreItems(items, false) && ItemsText(items) == s[i..j] && StringEnds(s, j)
    decreases |s| - i
  {
    hide Unescaped, IsItem, ItemText, IsHalf;
    if i == |s| || s[i] == QUOTE {
      items := [];
    } else {
      var k, j := Unescaped(s, i).next, Characters(s, i).next;
      var it := ItemIsTaken(s, i);
      var rest := CharactersAreItems(s, k);
      items := [it] + rest;
      assert items[1..] == rest;
      Joined(s, i, k, j);
      if IsHalf(it) && rest != [] {
        FirstIsNoEscape(s, k, j, rest);
      }
      ItemsPrepended(it, rest);
    }
  }

  lemma EscapeBegins(items: seq<StrItem>)
    requires items != []
    ensures items[0].Quad? || items[0].Pair? ==>
      |ItemsText(items)| >= 2 && ItemsText(items)[0] == BACKSLASH && ItemsText(items)[1] == 117
  {
    var w := ItemText(items[0]) + ItemsText(items[1..]);
    assert w == ItemsText(items);
  }

  lemma FirstIsNoEscape(s: CString, k: nat, j: nat, rest: seq<StrItem>)
    requires k <= j <= |s| && rest != [] && ItemsText(rest) == s[k..j]
    requires At(s, k) != BACKSLASH || At(s, k + 1) != 117
    ensures rest[0].Plain? || rest[0].Short?
  {
    hide ItemsText;
    EscapeBegins(rest);
    assert j - k >= 2 ==> s[k..j][0] == At(s, k) && s[k..j][1] == At(s, k + 1);
  }

  lemma ItemsPrepended(it: StrItem, rest: seq<StrItem>)
    requires IsItem(it, false) && AreItems(rest, false) && (IsHalf(it) && rest != [] ==> rest[0].Plain? || rest[0].Short?)
    ensures AreItems([it] + rest, false)
  {
    hide IsItem, IsHalf;
    var items := [it] + rest;
    forall k | 0 < k < |items| && IsHalf(items[k - 1]) ensures items[k].Plain? || items[k].Short? {
      if k > 1 {
        assert items[k] == rest[k - 1] && items[k - 1] == rest[k - 1 - 1];
      }
    }
  }

  /** A string that was read and closed. */
  lemma StringIsTaken(s: CString, i: nat) returns (items: seq<StrItem>)
    requires i <= |s| && ParseString(s, i).Ok?
    ensures At(s, i) == QUOTE && AreItems(items, false)
    ensures var j := ParseString(s, i).next;
      || s[i..j] == StringText(items)
      || (j == |s| && s[i..j] == [QUOTE] + ItemsText(items))
  {
    hide Characters, AreItems, ItemsText;
    items := CharactersAreItems(s, i + 1);
    var e := Characters(s, i + 1).next;
    assert s[i..e] == [QUOTE] + s[i + 1..e];
    if e < |s| {
      assert s[i..e + 1] == [QUOTE] + (s[i + 1..e] + [QUOTE]);
    }
  }

  // ---- numbers -----------------------------------------------------------------------------------

  function DigitOf(c: int): Digit
    requires IsDigit(c)
  {
    c - 48
  }

  function Read(s: CString, i: nat, j: nat): (d: seq<Digit>)
    requires i <= j <= |s| && forall k :: i <= k < j ==> IsDigit(s[k])
    ensures |d| == j - i && forall k :: 0 <= k < |d| ==> d[k] == DigitOf(s[i + k])
    decreases j - i
  {
    if i == j then [] else [DigitOf(s[i])] + Read(s, i + 1, j)
  }

  lemma ReadText(s: CString, i: nat, j: nat)
    requires i <= j <= |s| && forall k :: i <= k < j ==> IsDigit(s[k])
    ensures DigitText(Read(s, i, j)) == s[i..j]
  {
  }

  lemma {:induction false} DigitsAreDigits(fp: Arithmetic, s: CString, i: nat, n: real)
    requires i <= |s|
    ensures forall k :: i <= k < Digits(fp, s, i, n).1 ==> IsDigit(s[k])
    decreases |s| - i
  {
    if IsDigit(At(s, i)) {
      DigitsAreDigits(fp, s, i + 1, WithDigit(fp, n, At(s, i) - 48));
    }
  }

  lemma {:induction false} IntDigitsAreDigits(s: CString, i: nat, n: int)
    requires i <= |s|
    ensures forall k :: i <= k < IntDigits(s, i, n).1 ==> IsDigit(s[k])
    decreases |s| - i
  {
    if IsDigit(At(s, i)) {
      IntDigitsAreDigits(s, i + 1, n * 10 + (At(s, i) - 48));
    }
  }

  lemma WholeIsTaken(fp: Arithmetic, s: CString, i: nat) returns (d: seq<Digit>)
    requires i <= |s|
    ensures DigitText(d) == s[i..IntegerPart(fp, s, i).1] && (|d| > 1 && d[0] == 0 ==> d[1] != 0)
    ensures d == [] ==> !IsDigit(At(s, i))
  {
    hide Digits;
    var k := IntegerPart(fp, s, i).1;
    var j := if At(s, i) == ZERO then i + 1 else i;
    DigitsAreDigits(fp, s, j, 0.0);
    if 49 <= At(s, j) <= 57 {
      StartsAtDigit(fp, s, j);
    }
    d := Read(s, i, k);
    ReadText(s, i, k);
  }

  lemma StartsAtDigit(fp: Arithmetic, s: CString, j: nat)
    requires j <= |s| && IsDigit(At(s, j))
    ensures Digits(fp, s, j, 0.0).1 > j
  {
  }

  lemma FractionIsTaken(fp: Arithmetic, s: CString, i: nat, n: real) returns (f: seq<Digit>)
    requires i <= |s|
    ensures FractionText(f) == s[i..Fraction(fp, s, i, n).2]
  {
    hide Digits, Read, DigitText;
    if At(s, i) == 46 && IsDigit(At(s, i + 1)) {
      var j := Digits(fp, s, i + 1, n).1;
      DigitsAreDigits(fp, s, i + 1, n);
      FractionStarts(fp, s, i + 1, n);
      f := Read(s, i + 1, j);
      ReadText(s, i + 1, j);
      assert s[i..j] == [46] + s[i + 1..j];
    } else {
      f := [];
    }
  }

  lemma FractionStarts(fp: Arithmetic, s: CString, j: nat, n: real)
    requires j <= |s| && IsDigit(At(s, j))
    ensures Digits(fp, s, j, n).1 > j
  {
  }

  lemma ExponentIsTaken(s: CString, i: nat) returns (e: Power)
    requires i <= |s|
    ensures IsExponent(e) && ExponentText(e) == s[i..Exponent(s, i).1]
  {
    hide IntDigits, Read, DigitText;
    if At(s, i) == 101 || At(s, i) == 69 {
      var j := if At(s, i + 1) == 43 || At(s, i + 1) == MINUS then i + 2 else i + 1;
      var k := IntDigits(s, j, 0).1;
      IntDigitsAreDigits(s, j, 0);
      e := Power(s[i], s[i + 1..j], Read(s, j, k));
      ReadText(s, j, k);
      assert j == i + 2 ==> s[i + 1..j] == [s[i + 1]];
      ExponentParts(s, i, j, k);
    } else {
      e := NoPower;
    }
  }

  lemma ExponentParts(s: CString, i: nat, j: nat, k: nat)
    requires i < j <= k <= |s|
    ensures s[i..k] == [s[i]] + (s[i + 1..j] + s[j..k])
  {
  }

  lemma NumberIsTaken(fp: Arithmetic, s: CString, i: nat) returns (n: Numeral)
    requires i < |s| && (s[i] == MINUS || IsDigit(s[i]))
    ensures ParseNumber(fp, s, i).Ok? && IsNumeral(n, false) && NumeralText(n) == s[i..ParseNumber(fp, s, i).next]
  {
    hide IntegerPart, Fraction, Exponent, Scaled, WithSign, IsExponent, DigitText, FractionText, ExponentText, Power10;
    var j := Signed(i, s).1;
    var (a, k) := IntegerPart(fp, s, j);
    var l := Fraction(fp, s, k, a).2;
    var next := Exponent(s, l).1;
    var w := WholeIsTaken(fp, s, j);
    var f := FractionIsTaken(fp, s, k, a);
    var e := ExponentIsTaken(s, l);
    n := Numeral(s[i] == MINUS, w, f, e);
    SignIsTaken(s, i);
    FourParts(s, i, j, k, l, next);
  }

  lemma SignIsTaken(s: CString, i: nat)
    requires i < |s|
    ensures SignText(s[i] == MINUS) == s[i..Signed(i, s).1]
  {
  }

  lemma FourParts(s: CString, i: nat, j: nat, k: nat, l: nat, m: nat)
    requires i <= j <= k <= l <= m <= |s|
    ensures s[i..m] == s[i..j] + (s[j..k] + (s[k..l] + s[l..m]))
  {
  }

  // ---- values ------------------------------------------------------------------------------------

  lemma {:induction false} SkippedIsSpace(s: CString, i: nat)
    requires i <= |s|
    ensures IsSpace(s[i..Skip(s, i)], false)
    decreases |s| - i
  {
    if i < |s| && s[i] <= 32 {
      SkippedIsSpace(s, i + 1);
      assert s[i..Skip(s, i)] == [s[i]] + s[i + 1..Skip(s, i)];
    }
  }

  lemma {:induction false} SkippedIsDone(s: CString, i: nat)
    requires i <= |s|
    ensures Skip(s, Skip(s, i)) == Skip(s, i)
    decreases |s| - i
  {
    if i < |s| && s[i] <= 32 {
      SkippedIsDone(s, i + 1);
    }
  }

  /** The value at place i, unless it is a string that lasts to the end of the text. */
  lemma {:induction false} ValueIsTaken(fp: Arithmetic, s: CString, i: nat) returns (n: Node)
    requires i <= |s| && ParseValue(fp, s, i).Ok?
    requires At(s, i) == QUOTE ==> ParseValue(fp, s, i).next < |s|
    ensures IsNode(n, false) && NodeText(n) == s[i..ParseValue(fp, s, i).next]
    decreases |s| - i, 2
  {
    hide ParseItems, ParseMembers, ParseNumber, ParseString, Skip, IsNumeral, NumeralText, StringText, AreItems, Has;
    if Has(s, i, NULL_WORD) || Has(s, i, FALSE_WORD) || Has(s, i, TRUE_WORD) {
      n := WordIsTaken(fp, s, i);
    } else if At(s, i) == QUOTE {
      var items := StringIsTaken(s, i);
      n := StringNode(items);
    } else if At(s, i) == MINUS || IsDigit(At(s, i)) {
      var number := NumberIsTaken(fp, s, i);
      n := NumberNode(number);
    } else if At(s, i) == OPEN_ARRAY {
      n := ArrayIsTaken(fp, s, i);
    } else {
      n := ObjectIsTaken(fp, s, i);
    }
  }

  lemma WordIsTaken(fp: Arithmetic, s: CString, i: nat) returns (n: Node)
    requires i <= |s| && (Has(s, i, NULL_WORD) || Has(s, i, FALSE_WORD) || Has(s, i, TRUE_WORD))
    ensures ParseValue(fp, s, i).Ok? && IsNode(n, false) && NodeText(n) == s[i..ParseValue(fp, s, i).next]
  {
    n := if Has(s, i, NULL_WORD) then NullNode else if Has(s, i, FALSE_WORD) then FalseNode else TrueNode;
  }

  lemma NoSpace()
    ensures IsSpace([], false)
  {
  }

  lemma ArrayIsTaken(fp: Arithmetic, s: CString, i: nat) returns (n: Node)
    requires i < |s| && s[i] == OPEN_ARRAY && ParseValue(fp, s, i).Ok?
    ensures IsNode(n, false) && NodeText(n) == s[i..ParseValue(fp, s, i).next]
    decreases |s| - i, 1
  {
    hide ParseItems, ParseMembers, ParseNumber, ParseString, Skip, IsSpace, ElementsText, Has;
    NoWord(s, i);
    NoSpace();
    var j := Skip(s, i + 1);
    SkippedIsSpace(s, i + 1);
    if At(s, j) == CLOSE_ARRAY {
      n := ArrayNode(s[i + 1..j], NoElement);
      assert s[i..j + 1] == [OPEN_ARRAY] + (s[i + 1..j] + [CLOSE_ARRAY]);
    } else {
      SkippedIsDone(s, i + 1);
      var e := ItemsAreTaken(fp, s, j);
      var k := ParseItems(fp, s, j).next;
      n := ArrayNode([], e.(before := s[i + 1..j]));
      SameText(e, s[i + 1..j]);
      assert s[i..k] == [OPEN_ARRAY] + (s[i + 1..j] + s[j..k]);
    }
  }

  lemma SameText(e: Elements, space: CString)
    requires e.Element? && AreElements(e, false) && IsSpace(space, false)
    ensures AreElements(e.(before := space), false) && ElementsText(e.(before := space)) == ElementsText(e)
  {
  }

  lemma {:induction false} ItemsAreTaken(fp: Arithmetic, s: CString, i: nat) returns (e: Elements)
    requires i <= |s| && ParseItems(fp, s, i).Ok?
    ensures e.Element? && AreElements(e, false) && e.before == s[i..Skip(s, i)]
    ensures Skip(s, i) <= ParseItems(fp, s, i).next && ElementsText(e) == s[Skip(s, i)..ParseItems(fp, s, i).next]
    decreases |s| - i, 3
  {
    hide ParseValue, Skip, IsSpace, NodeText, IsNode;
    var at := Skip(s, i);
    var j := ParseValue(fp, s, at).next;
    var k := Skip(s, j);
    SkippedIsSpace(s, i);
    SkippedIsSpace(s, j);
    var n := ValueIsTaken(fp, s, at);
    if At(s, k) == COMMA {
      var next := ItemsAreTaken(fp, s, k + 1);
      var end := ParseItems(fp, s, k + 1).next;
      e := Element(s[i..at], n, s[j..k], next);
      MoreParts(s, at, j, k, Skip(s, k + 1), end);
    } else {
      e := Element(s[i..at], n, s[j..k], NoElement);
      LastParts(s, at, j, k);
    }
  }

  lemma MoreParts(s: CString, i: nat, j: nat, k: nat, l: nat, m: nat)
    requires i <= j <= k < l <= m <= |s|
    ensures s[i..m] == s[i..j] + (s[j..k] + ([s[k]] + (s[k + 1..l] + s[l..m])))
  {
  }

  lemma LastParts(s: CString, i: nat, j: nat, k: nat)
    requires i <= j <= k < |s|
    ensures s[i..k + 1] == s[i..j] + (s[j..k] + [s[k]])
  {
  }

  lemma ObjectIsTaken(fp: Arithmetic, s: CString, i: nat) returns (n: Node)
    requires i < |s| && s[i] == OPEN_OBJECT && ParseValue(fp, s, i).Ok?
    ensures IsNode(n, false) && NodeText(n) == s[i..ParseValue(fp, s, i).next]
    decreases |s| - i, 1
  {
    hide ParseItems, ParseMembers, ParseNumber, ParseString, Skip, IsSpace, EntriesText, Has;
    NoWord(s, i);
    NoSpace();
    var j := Skip(s, i + 1);
    SkippedIsSpace(s, i + 1);
    if At(s, j) == CLOSE_OBJECT {
      n := ObjectNode(s[i + 1..j], NoEntry);
      assert s[i..j + 1] == [OPEN_OBJECT] + (s[i + 1..j] + [CLOSE_OBJECT]);
    } else {
      SkippedIsDone(s, i + 1);
      var e := MembersAreTaken(fp, s, j);
      var k := ParseMembers(fp, s, j).next;
      n := ObjectNode([], e.(before := s[i + 1..j]));
      SameLines(e, s[i + 1..j]);
      assert s[i..k] == [OPEN_OBJECT] + (s[i + 1..j] + s[j..k]);
    }
  }

  lemma SameLines(e: Entries, space: CString)
    requires e.Entry? && AreEntries(e, false) && IsSpace(space, false)
    ensures AreEntries(e.(before := space), false) && EntriesText(e.(before := space)) == EntriesText(e)
  {
  }

  lemma {:induction false} MembersAreTaken(fp: Arithmetic, s: CString, i: nat) returns (e: Entries)
    requires i <= |s| && ParseMembers(fp, s, i).Ok?
    ensures e.Entry? && AreEntries(e, false) && e.before == s[i..Skip(s, i)]
    ensures Skip(s, i) <= ParseMembers(fp, s, i).next && EntriesText(e) == s[Skip(s, i)..ParseMembers(fp, s, i).next]
    decreases |s| - i, 3
  {
    hide ParseValue, ParseString, Skip, IsSpace, NodeText, IsNode, StringText, AreItems;
    var at := Skip(s, i);
    var a := ParseString(s, at).next;
    var c := Skip(s, a);
    var l := Skip(s, c + 1);
    var j := ParseValue(fp, s, l).next;
    var k := Skip(s, j);
    SkippedIsSpace(s, i);
    SkippedIsSpace(s, a);
    SkippedIsSpace(s, c + 1);
    SkippedIsSpace(s, j);
    var name := StringIsTaken(s, at);
    var n := ValueIsTaken(fp, s, l);
    if At(s, k) == COMMA {
      var next := MembersAreTaken(fp, s, k + 1);
      var end := ParseMembers(fp, s, k + 1).next;
      e := Entry(s[i..at], name, s[a..c], s[c + 1..l], n, s[j..k], next);
      MoreParts(s, l, j, k, Skip(s, k + 1), end);
      MemberParts(s, at, a, c, l, end);
    } else {
      e := Entry(s[i..at], name, s[a..c], s[c + 1..l], n, s[j..k], NoEntry);
      LastParts(s, l, j, k);
      MemberParts(s, at, a, c, l, k + 1);
    }
  }

  lemma MemberParts(s: CString, i: nat, a: nat, c: nat, l: nat, m: nat)
    requires i <= a <= c < l <= m <= |s|
    ensures s[i..m] == s[i..a] + (s[a..c] + ([s[c]] + (s[c + 1..l] + s[l..m])))
  {
  }

  // ---- the whole text ------------------------------------------------------------------------------

  /** A value of the wider grammar with space around it, or a string that nothing closes. */
  ghost predicate IsText(s: CString) {
    || (exists before, n, after ::
      IsSpace(before, false) && IsNode(n, false) && IsSpace(after, false) && s == before + NodeText(n) + after)
    || (exists before, items ::
      IsSpace(before, false) && AreItems(items, false) && s == before + ([QUOTE] + ItemsText(items)))
  }
  /** A text the parser takes to its end is one of the wider grammar. */
  lemma TakenIsText(fp: Arithmetic, s: CString)
    requires Parse(fp, s, true).Ok?
    ensures IsText(s)
  {
    hide ParseValue, ParseString, Skip, IsSpace, NodeText, IsNode, AreItems, StringText, ItemsText;
    var i := Skip(s, 0);
    var j := ParseValue(fp, s, i).next;
    SkippedIsSpace(s, 0);
    SkippedIsSpace(s, j);
    assert s == s[0..i] + s[i..j] + s[j..|s|];
    if At(s, i) == QUOTE {
      QuotedValue(fp, s, i);
      var items := StringIsTaken(s, i);
      if s[i..j] == StringText(items) {
        StringIsNode(items);
        Witness(s, s[0..i], StringNode(items), s[j..|s|]);
      } else {
        assert s == s[0..i] + ([QUOTE] + ItemsText(items));
      }
    } else {
      var n := ValueIsTaken(fp, s, i);
      Witness(s, s[0..i], n, s[j..|s|]);
    }
  }

  lemma Witness(s: CString, before: CString, n: Node, after: CString)
    requires IsSpace(before, false) && IsNode(n, false) && IsSpace(after, false) && s == before + NodeText(n) + after
    ensures IsText(s)
  {
    hide IsSpace, NodeText, IsNode;
  }

  lemma StringIsNode(items: seq<StrItem>)
    requires AreItems(items, false)
    ensures IsNode(StringNode(items), false) && NodeText(StringNode(items)) == StringText(items)
  {
  }

  lemma QuotedValue(fp: Arithmetic, s: CString, i: nat)
    requires i < |s| && s[i] == QUOTE
    ensures ParseString(s, i).Ok? <==> ParseValue(fp, s, i).Ok?
    ensures ParseString(s, i).Ok? ==> ParseValue(fp, s, i).next == ParseString(s, i).next
  {
    hide ParseString;
    NoWord(s, i);
  }

  /** Every text of the wider grammar is taken to its end. */
  lemma TextIsTaken(s: CString)
    requires IsText(s)
    ensures Parse(Exactly(), s, true).Ok?
  {
    hide ParseValue, NodeText, IsNode, IsSpace, AreItems, ItemsText;
    if before, n, after :| IsSpace(before, false) && IsNode(n, false) && IsSpace(after, false) && s == before + NodeText(n) + after {
      TextIsParsed(before, n, after, true);
    } else {
      var before, items :| IsSpace(before, false) && AreItems(items, false) && s == before + ([QUOTE] + ItemsText(items));
      var i := |before|;
      assert Has(s, 0, before) && Has(s, i, [QUOTE] + ItemsText(items));
      UnclosedIsRead(s, i, items);
      SpaceIsSkipped(s, 0, before);
      QuotedValue(Exactly(), s, i);
    }
  }

  // ---- the same in every arithmetic ----------------------------------------------------------------

  /** Both succeed at the same place, or both fail at the same place. */
  predicate Alike<T>(a: Parsed<T>, b: Parsed<T>) {
    match a
    case Ok(_, next) => b.Ok? && b.next == next
    case Bad(at) => b.Bad? && b.at == at
    case Outside => b.Outside?
  }

  lemma {:induction false} DigitsAlike(fp: Arithmetic, gp: Arithmetic, s: CString, i: nat, m: real, n: real)
    requires i <= |s|
    ensures Digits(fp, s, i, m).1 == Digits(gp, s, i, n).1
    decreases |s| - i
  {
    if IsDigit(At(s, i)) {
      DigitsAlike(fp, gp, s, i + 1, WithDigit(fp, m, At(s, i) - 48), WithDigit(gp, n, At(s, i) - 48));
    }
  }

  lemma NumbersAlike(fp: Arithmetic, gp: Arithmetic, s: CString, i: nat)
    requires i < |s|
    ensures Alike(ParseNumber(fp, s, i), ParseNumber(gp, s, i))
  {
    hide Digits, Exponent, Scaled, WithSign;
    var j := Signed(i, s).1;
    var k := if At(s, j) == ZERO then j + 1 else j;
    DigitsAlike(fp, gp, s, k, 0.0, 0.0);
    var l := IntegerPart(fp, s, j).1;
    DigitsAlike(fp, gp, s, if l < |s| then l + 1 else l, IntegerPart(fp, s, j).0, IntegerPart(gp, s, j).0);
  }

  lemma {:induction false} ValuesAlike(fp: Arithmetic, gp: Arithmetic, s: CString, i: nat)
    requires i <= |s|
    ensures Alike(ParseValue(fp, s, i), ParseValue(gp, s, i))
    decreases |s| - i, 2
  {
    hide ParseItems, ParseMembers, ParseNumber, ParseString, Skip, Has;
    if At(s, i) == MINUS || IsDigit(At(s, i)) {
      NumbersAlike(fp, gp, s, i);
    } else if At(s, i) == OPEN_ARRAY {
      ItemsAlike(fp, gp, s, Skip(s, i + 1));
    } else if At(s, i) == OPEN_OBJECT {
      MembersAlike(fp, gp, s, Skip(s, i + 1));
    }
  }

  lemma {:induction false} ItemsAlike(fp: Arithmetic, gp: Arithmetic, s: CString, i: nat)
    requires i <= |s|
    ensures Alike(ParseItems(fp, s, i), ParseItems(gp, s, i))
    decreases |s| - i, 3
  {
    hide ParseValue, Skip;
    ValuesAlike(fp, gp, s, Skip(s, i));
    var v := ParseValue(fp, s, Skip(s, i));
    if v.Ok? && At(s, Skip(s, v.next)) == COMMA {
      ItemsAlike(fp, gp, s, Skip(s, v.next) + 1);
    }
  }

  lemma {:induction false} MembersAlike(fp: Arithmetic, gp: Arithmetic, s: CString, i: nat)
    requires i <= |s|
    ensures Alike(ParseMembers(fp, s, i), ParseMembers(gp, s, i))
    decreases |s| - i, 3
  {
    hide ParseValue, ParseString, Skip;
    var name := ParseString(s, Skip(s, i));
    if name.Ok? && At(s, Skip(s, name.next)) == COLON {
      var l := Skip(s, Skip(s, name.next) + 1);
      ValuesAlike(fp, gp, s, l);
      var v := ParseValue(fp, s, l);
      if v.Ok? && At(s, Skip(s, v.next)) == COMMA {
        MembersAlike(fp, gp, s, Skip(s, v.next) + 1);
      }
    }
  }

  /** The parser takes a text to its end, in any arithmetic, exactly if the text is one of the wider grammar. */
  lemma AcceptedIff(fp: Arithmetic, s: CString)
    ensures Parse(fp, s, true).Ok? <==> IsText(s)
  {
    hide ParseValue, IsText, Skip;
    if Parse(fp, s, true).Ok? {
      TakenIsText(fp, s);
    }
    if IsText(s) {
      TextIsTaken(s);
      ValuesAlike(fp, Exactly(), s, Skip(s, 0));
    }
  }
}
