/** Parsing what was printed gives back the value. */
module JsonRoundTrip {
  import opened JsonText
  import opened JsonParse

  lemma HasAt(s: CString, i: nat, c: Char)
    requires Has(s, i, [c])
    ensures i < |s| && s[i] == c && At(s, i) == c
  {
    assert s[i..i + 1][0] == c;
  }

  // ---- strings ---------------------------------------------------------------------------------

  lemma HexDigitValue(d: int)
    requires 0 <= d < 16
    ensures HexValue(HexDigit(d)) == d
  {
  }

  /** A printed character is read back as itself. */
  lemma CharacterRoundTrip(s: CString, i: nat, c: Char)
    requires Has(s, i, EscapedChar(c))
    ensures i < |s| && s[i] != QUOTE
    ensures Unescaped(s, i) == Ok([c], i + |EscapedChar(c)|)
  {
    var e := EscapedChar(c);
    var w := s[i..i + |e|];
    assert forall k :: 0 <= k < |e| ==> w[k] == s[i + k] == At(s, i + k);
    if |e| == 6 {
      HexDigitValue(c / 16);
      HexDigitValue(c % 16);
      assert At(s, i) == e[0] && At(s, i + 1) == e[1] && At(s, i + 2) == e[2] && At(s, i + 3) == e[3] && At(s, i + 4) == e[4] && At(s, i + 5) == e[5];
      assert Hex4(s, i + 2) == c;
    } else if |e| == 2 {
      assert At(s, i) == e[0] && At(s, i + 1) == e[1];
    } else {
      assert At(s, i) == e[0];
    }
  }

  lemma {:induction false} CharactersRoundTrip(s: CString, i: nat, t: CString)
    requires Has(s, i, Escaped(t) + [QUOTE])
    ensures i + |Escaped(t)| < |s|
    ensures Characters(s, i) == Ok(t, i + |Escaped(t)|)
    decreases |t|
  {
    hide Unescaped, EscapedChar, Has;
    HasParts(s, i, Escaped(t), [QUOTE]);
    HasAt(s, i + |Escaped(t)|, QUOTE);
    if t == [] {
      HasAt(s, i, QUOTE);
    } else {
      var c := t[0];
      assert Escaped(t) + [QUOTE] == EscapedChar(c) + (Escaped(t[1..]) + [QUOTE]);
      HasParts(s, i, EscapedChar(c), Escaped(t[1..]) + [QUOTE]);
      CharacterRoundTrip(s, i, c);
      CharactersRoundTrip(s, i + |EscapedChar(c)|, t[1..]);
      assert [c] + t[1..] == t;
    }
  }

  /** parse_string inverts print_string_ptr. */
  lemma StringRoundTrip(s: CString, i: nat, t: CString)
    requires Has(s, i, Quoted(t))
    ensures i < |s| && s[i] == QUOTE
    ensures ParseString(s, i) == Ok(t, i + |Quoted(t)|)
  {
    hide Has, Escaped, Characters;
    assert Quoted(t) == [QUOTE] + (Escaped(t) + [QUOTE]);
    HasParts(s, i, [QUOTE], Escaped(t) + [QUOTE]);
    HasAt(s, i, QUOTE);
    CharactersRoundTrip(s, i + 1, t);
    HasParts(s, i + 1, Escaped(t), [QUOTE]);
    HasAt(s, i + 1 + |Escaped(t)|, QUOTE);
  }

  // ---- numbers ---------------------------------------------------------------------------------

  /** What ends a number that was printed: not a digit, a point or an exponent. */
  predicate EndsNumber(c: int) {
    !IsDigit(c) && c != 46 && c != 101 && c != 69
  }

  /** What the digits of n add up to when they are read one by one. */
  function Accumulated(fp: Arithmetic, n: nat): real {
    if n == 0 then 0.0 else WithDigit(fp, Accumulated(fp, n / 10), n % 10)
  }

  /** The number that is read from the digits of n. */
  function ReadBack(fp: Arithmetic, n: int): real {
    Scaled(fp, WithSign(n, Accumulated(fp, if n < 0 then -n else n)), 0)
  }

  /** A value as it is read from its text: numbers are what their digits add up to. */
  function AsRead(fp: Arithmetic, v: Json): Json {
    match v
    case Number(d) => Number(ReadBack(fp, d.Floor))
    case Array(items) => Array(ItemsAsRead(fp, items))
    case Object(members) => Object(MembersAsRead(fp, members))
    case _ => v
  }

  function ItemsAsRead(fp: Arithmetic, items: Items): Items {
    match items
    case NoItem => NoItem
    case Item(v, next) => Item(AsRead(fp, v), ItemsAsRead(fp, next))
  }

  function MembersAsRead(fp: Arithmetic, members: Members): Members {
    match members
    case NoMember => NoMember
    case Member(name, v, next) => Member(name, AsRead(fp, v), MembersAsRead(fp, next))
  }

  lemma {:induction false} DecimalIsRead(fp: Arithmetic, s: CString, i: nat, n: nat)
    requires Has(s, i, Decimal(n)) && n > 0
    ensures i + |Decimal(n)| <= |s|
    ensures Digits(fp, s, i, 0.0) == Digits(fp, s, i + |Decimal(n)|, Accumulated(fp, n))
  {
    if n < 10 {
      HasAt(s, i, ZERO + n);
      assert Accumulated(fp, n / 10) == 0.0;
    } else {
      HasParts(s, i, Decimal(n / 10), [ZERO + n % 10]);
      DecimalIsRead(fp, s, i, n / 10);
      HasAt(s, i + |Decimal(n / 10)|, ZERO + n % 10);
    }
  }

  lemma {:induction false} FirstDigit(s: CString, i: nat, n: nat)
    requires Has(s, i, Decimal(n))
    ensures i < |s| && IsDigit(s[i]) && (n > 0 ==> s[i] != ZERO)
    ensures n == 0 ==> s[i] == ZERO
  {
    if n < 10 {
      HasAt(s, i, ZERO + n);
    } else {
      HasParts(s, i, Decimal(n / 10), [ZERO + n % 10]);
      FirstDigit(s, i, n / 10);
    }
  }

  lemma NaturalRoundTrip(fp: Arithmetic, s: CString, i: nat, n: nat)
    requires Has(s, i, Decimal(n)) && EndsNumber(At(s, i + |Decimal(n)|))
    ensures i + |Decimal(n)| <= |s|
    ensures IntegerPart(fp, s, i) == (Accumulated(fp, n), i + |Decimal(n)|)
  {
    FirstDigit(s, i, n);
    if n > 0 {
      DecimalIsRead(fp, s, i, n);
    }
  }

  /** From the digits of a whole number what they add up to is read, whatever the rounding. */
  lemma NumberRoundTrip(fp: Arithmetic, s: CString, i: nat, n: int)
    requires Has(s, i, PrintInt(n)) && EndsNumber(At(s, i + |PrintInt(n)|))
    ensures i < |s| && (s[i] == MINUS || IsDigit(s[i]))
    ensures ParseNumber(fp, s, i) == Ok(Number(ReadBack(fp, n)), i + |PrintInt(n)|)
  {
    hide Accumulated, Scaled;
    var m, j := if n < 0 then -n else n, if n < 0 then i + 1 else i;
    if n < 0 {
      HasParts(s, i, [MINUS], Decimal(m));
      HasAt(s, i, MINUS);
    }
    FirstDigit(s, j, m);
    NaturalRoundTrip(fp, s, j, m);
  }

  // ---- values ----------------------------------------------------------------------------------

  /** The first character of a printed value. */
  predicate BeginsValue(c: int) {
    c == 110 || c == 102 || c == 116 || c == QUOTE || c == MINUS || IsDigit(c) || c == OPEN_ARRAY || c == OPEN_OBJECT
  }

  lemma ValueBegins(s: CString, i: nat, v: Json, depth: nat, fmt: bool)
    requires IntegersOnly(v) && Has(s, i, Print(v, depth, fmt))
    ensures i < |s| && BeginsValue(s[i])
    ensures v.Array? ==> s[i] == OPEN_ARRAY
    ensures v.Object? ==> s[i] == OPEN_OBJECT
    ensures v.Str? ==> s[i] == QUOTE
    ensures v.Number? ==> s[i] == MINUS || IsDigit(s[i])
  {
    var p := Print(v, depth, fmt);
    match v
    case Number(d) =>
      var n := d.Floor;
      if n < 0 {
        HasParts(s, i, [MINUS], Decimal(-n));
        HasAt(s, i, MINUS);
      } else {
        FirstDigit(s, i, n);
      }
    case _ =>
      HasParts(s, i, [p[0]], p[1..]);
      assert p == [p[0]] + p[1..];
      HasAt(s, i, p[0]);
  }

  predicate Blank(w: CString) {
    forall k :: 0 <= k < |w| ==> w[k] <= 32
  }

  lemma {:induction false} SkipsBlank(s: CString, i: nat, w: CString)
    requires Has(s, i, w) && Blank(w) && At(s, i + |w|) > 32
    ensures i <= |s| && Skip(s, i) == i + |w|
    decreases |w|
  {
    if w != [] {
      assert w == [w[0]] + w[1..];
      HasParts(s, i, [w[0]], w[1..]);
      HasAt(s, i, w[0]);
      SkipsBlank(s, i + 1, w[1..]);
    }
  }

  lemma SkipsNothing(s: CString, i: nat)
    requires i <= |s| && (At(s, i) > 32 || i == |s|)
    ensures Skip(s, i) == i
  {
  }

  /** A member's text behind its indentation. */
  function MemberBody(m: Members, depth: nat, fmt: bool): CString
    requires m.Member? && IntegerMembers(m)
  {
    Quoted(m.name) + (Colon(fmt) + (Print(m.value, depth, fmt) + MemberTail(m, depth, fmt)))
  }

  function MemberTail(m: Members, depth: nat, fmt: bool): CString
    requires m.Member? && IntegerMembers(m)
  {
    LineEnd(m.next.Member?, fmt) + PrintMembers(m.next, depth, fmt)
  }

  lemma MembersAreIndentedBodies(m: Members, depth: nat, fmt: bool)
    requires m.Member? && IntegerMembers(m)
    ensures PrintMembers(m, depth, fmt) == Indent(depth, fmt) + MemberBody(m, depth, fmt)
  {
  }

  lemma WordRoundTrip(fp: Arithmetic, s: CString, i: nat, v: Json, depth: nat, fmt: bool)
    requires v.Null? || v.False? || v.True?
    requires Has(s, i, Print(v, depth, fmt))
    ensures ParseValue(fp, s, i) == Ok(v, i + |Print(v, depth, fmt)|)
  {
    var p := Print(v, depth, fmt);
    assert s[i..i + |p|][0] == p[0];
    assert Has(s, i, NULL_WORD) ==> s[i..i + 4][0] == 110;
    assert Has(s, i, FALSE_WORD) ==> s[i..i + 5][0] == 102;
  }

  lemma FirstChar(s: CString, i: nat, w: CString)
    requires w != []
    ensures Has(s, i, w) ==> i < |s| && s[i] == w[0]
  {
    if Has(s, i, w) {
      assert s[i..i + |w|][0] == w[0];
    }
  }

  /** Where no literal word begins, the first character decides. */
  lemma NoWord(s: CString, i: nat)
    requires i < |s| && s[i] != 110 && s[i] != 102 && s[i] != 116
    ensures !Has(s, i, NULL_WORD) && !Has(s, i, FALSE_WORD) && !Has(s, i, TRUE_WORD)
  {
    hide Has;
    FirstChar(s, i, NULL_WORD);
    FirstChar(s, i, FALSE_WORD);
    FirstChar(s, i, TRUE_WORD);
  }

  /** What is read where the text of a value stands is the value, up to the rounding of its numbers. */
  lemma {:induction false} ValueRoundTrip(fp: Arithmetic, s: CString, i: nat, v: Json, depth: nat, fmt: bool)
    requires IntegersOnly(v) && Has(s, i, Print(v, depth, fmt))
    requires EndsNumber(At(s, i + |Print(v, depth, fmt)|))
    ensures ParseValue(fp, s, i) == Ok(AsRead(fp, v), i + |Print(v, depth, fmt)|)
    decreases v, 1
  {
    hide ReadBack, Escaped, PrintItems, PrintMembers, ParseItems, ParseMembers, ParseNumber, ParseString, Has, PrintInt;
    match v
    case Null => WordRoundTrip(fp, s, i, v, depth, fmt);
    case False => WordRoundTrip(fp, s, i, v, depth, fmt);
    case True => WordRoundTrip(fp, s, i, v, depth, fmt);
    case Number(d) =>
      NumberRoundTrip(fp, s, i, d.Floor);
      NoWord(s, i);
    case Str(text) =>
      StringRoundTrip(s, i, text);
      NoWord(s, i);
    case Array(items) =>
      ArrayRoundTrip(fp, s, i, items, depth, fmt);
    case Object(members) =>
      ObjectRoundTrip(fp, s, i, members, depth, fmt);
  }

  lemma {:induction false} ArrayRoundTrip(fp: Arithmetic, s: CString, i: nat, items: Items, depth: nat, fmt: bool)
    requires IntegerItems(items) && Has(s, i, Print(Array(items), depth, fmt))
    ensures ParseValue(fp, s, i) == Ok(Array(ItemsAsRead(fp, items)), i + |Print(Array(items), depth, fmt)|)
    decreases items, 3
  {
    hide Print, PrintItems, ParseItems, ParseMembers, ParseNumber, ParseString, Has, Skip;
    var body := PrintItems(items, depth, fmt) + [CLOSE_ARRAY];
    PrintedArray(items, depth, fmt);
    HasParts(s, i, [OPEN_ARRAY], body);
    HasAt(s, i, OPEN_ARRAY);
    NoWord(s, i);
    if items.NoItem? {
      EmptyItems(depth, fmt);
      HasAt(s, i + 1, CLOSE_ARRAY);
      SkipsNothing(s, i + 1);
    } else {
      ItemsBegin(s, i + 1, items, depth, fmt);
      SkipsNothing(s, i + 1);
      ItemsRoundTrip(fp, s, i + 1, items, depth, fmt);
    }
  }

  lemma EmptyItems(depth: nat, fmt: bool)
    ensures PrintItems(NoItem, depth, fmt) + [CLOSE_ARRAY] == [CLOSE_ARRAY]
  {
  }

  lemma ItemsBegin(s: CString, i: nat, items: Items, depth: nat, fmt: bool)
    requires items.Item? && IntegerItems(items) && Has(s, i, PrintItems(items, depth, fmt) + [CLOSE_ARRAY])
    ensures i < |s| && BeginsValue(s[i])
  {
    var p := Print(items.value, depth + 1, fmt);
    var rest := (if items.next.Item? then Comma(fmt) + PrintItems(items.next, depth, fmt) else []) + [CLOSE_ARRAY];
    assert PrintItems(items, depth, fmt) + [CLOSE_ARRAY] == p + rest;
    HasParts(s, i, p, rest);
    ValueBegins(s, i, items.value, depth + 1, fmt);
  }

  lemma {:induction false} ItemsRoundTrip(fp: Arithmetic, s: CString, i: nat, items: Items, depth: nat, fmt: bool)
    requires items.Item? && IntegerItems(items) && i <= |s|
    requires Has(s, Skip(s, i), PrintItems(items, depth, fmt) + [CLOSE_ARRAY])
    ensures ParseItems(fp, s, i) == Ok(ItemsAsRead(fp, items), Skip(s, i) + |PrintItems(items, depth, fmt)| + 1)
    decreases items, 2
  {
    hide Print, ParseValue, Has, Skip, AsRead;
    var at := Skip(s, i);
    var p := Print(items.value, depth + 1, fmt);
    var j := at + |p|;
    if items.next.Item? {
      var rest := PrintItems(items.next, depth, fmt) + [CLOSE_ARRAY];
      assert PrintItems(items, depth, fmt) + [CLOSE_ARRAY] == p + (Comma(fmt) + rest);
      HasParts(s, at, p, Comma(fmt) + rest);
      HasParts(s, j, Comma(fmt), rest);
      CommaAt(s, j, fmt);
      ValueRoundTrip(fp, s, at, items.value, depth + 1, fmt);
      SkipsNothing(s, j);
      ItemsBegin(s, j + |Comma(fmt)|, items.next, depth, fmt);
      SkipsAfterComma(s, j, fmt);
      ItemsRoundTrip(fp, s, j + 1, items.next, depth, fmt);
    } else {
      assert PrintItems(items, depth, fmt) + [CLOSE_ARRAY] == p + [CLOSE_ARRAY];
      HasParts(s, at, p, [CLOSE_ARRAY]);
      HasAt(s, j, CLOSE_ARRAY);
      ValueRoundTrip(fp, s, at, items.value, depth + 1, fmt);
      SkipsNothing(s, j);
    }
  }

  lemma CommaAt(s: CString, j: nat, fmt: bool)
    requires Has(s, j, Comma(fmt))
    ensures j < |s| && s[j] == COMMA
    ensures fmt ==> j + 1 < |s| && s[j + 1] == SPACE
  {
    var c := Comma(fmt);
    assert s[j..j + |c|][0] == c[0];
    assert fmt ==> s[j..j + |c|][1] == c[1];
  }

  lemma SkipsAfterComma(s: CString, j: nat, fmt: bool)
    requires Has(s, j, Comma(fmt)) && j + |Comma(fmt)| < |s| && s[j + |Comma(fmt)|] > 32
    ensures Skip(s, j + 1) == j + |Comma(fmt)|
  {
    CommaAt(s, j, fmt);
    assert fmt ==> Skip(s, j + 1) == Skip(s, j + 2);
  }

  lemma {:induction false} ObjectRoundTrip(fp: Arithmetic, s: CString, i: nat, members: Members, depth: nat, fmt: bool)
    requires IntegerMembers(members) && Has(s, i, Print(Object(members), depth, fmt))
    ensures ParseValue(fp, s, i) == Ok(Object(MembersAsRead(fp, members)), i + |Print(Object(members), depth, fmt)|)
    decreases members, 3
  {
    hide Print, PrintMembers, ParseItems, ParseMembers, ParseNumber, ParseString, Has, Skip, MemberBody, Indent, Break;
    if members.NoMember? {
      EmptyObjectRoundTrip(fp, s, i, depth, fmt);
    } else {
      var lead := Break(fmt) + Indent(depth + 1, fmt);
      var body := MemberBody(members, depth + 1, fmt) + (Indent(depth, fmt) + [CLOSE_OBJECT]);
      PrintedObject(members, depth, fmt);
      OpensObject(s, i, lead + body);
      HasParts(s, i + 1, lead, body);
      BodyBegins(s, i + 1 + |lead|, members, depth, fmt);
      BlankLead(depth + 1, fmt);
      SkipsBlank(s, i + 1, lead);
      SkipsNothing(s, i + 1 + |lead|);
      MembersRoundTrip(fp, s, i + 1 + |lead|, members, depth, fmt);
    }
  }

  lemma OpensObject(s: CString, i: nat, rest: CString)
    requires Has(s, i, [OPEN_OBJECT] + rest)
    ensures i < |s| && s[i] == OPEN_OBJECT && Has(s, i + 1, rest)
    ensures !Has(s, i, NULL_WORD) && !Has(s, i, FALSE_WORD) && !Has(s, i, TRUE_WORD)
  {
    HasParts(s, i, [OPEN_OBJECT], rest);
    HasAt(s, i, OPEN_OBJECT);
    NoWord(s, i);
  }

  lemma EmptyObjectRoundTrip(fp: Arithmetic, s: CString, i: nat, depth: nat, fmt: bool)
    requires Has(s, i, Print(Object(NoMember), depth, fmt))
    ensures ParseValue(fp, s, i) == Ok(Object(NoMember), i + |Print(Object(NoMember), depth, fmt)|)
  {
    hide ParseItems, ParseMembers, ParseNumber, ParseString, Has, Skip, Indent, Break;
    var lead := Break(fmt) + Indent(depth - 1, fmt);
    BlankLead(depth - 1, fmt);
    OpensObject(s, i, lead + [CLOSE_OBJECT]);
    HasParts(s, i + 1, lead, [CLOSE_OBJECT]);
    HasAt(s, i + 1 + |lead|, CLOSE_OBJECT);
    SkipsBlank(s, i + 1, lead);
  }

  lemma BlankLead(depth: int, fmt: bool)
    ensures Blank(Break(fmt) + Indent(depth, fmt))
  {
    TabsAre(depth);
  }

  lemma PrintedObject(members: Members, depth: nat, fmt: bool)
    requires members.Member? && IntegerMembers(members)
    ensures Print(Object(members), depth, fmt) ==
      [OPEN_OBJECT] + (Break(fmt) + Indent(depth + 1, fmt) + (MemberBody(members, depth + 1, fmt) + (Indent(depth, fmt) + [CLOSE_OBJECT])))
  {
    hide Indent, MemberBody, PrintMembers;
    MembersAreIndentedBodies(members, depth + 1, fmt);
  }

  lemma BodyBegins(s: CString, i: nat, m: Members, depth: nat, fmt: bool)
    requires m.Member? && IntegerMembers(m)
    requires Has(s, i, MemberBody(m, depth + 1, fmt) + (Indent(depth, fmt) + [CLOSE_OBJECT]))
    ensures i < |s| && s[i] == QUOTE
  {
    var b := MemberBody(m, depth + 1, fmt) + (Indent(depth, fmt) + [CLOSE_OBJECT]);
    assert b[0] == QUOTE;
    assert s[i..i + |b|][0] == QUOTE;
  }

  /** depth is that of the object; its members stand one deeper. */
  lemma {:induction false} MembersRoundTrip(fp: Arithmetic, s: CString, i: nat, m: Members, depth: nat, fmt: bool)
    requires m.Member? && IntegerMembers(m) && i <= |s|
    requires Has(s, Skip(s, i), MemberBody(m, depth + 1, fmt) + (Indent(depth, fmt) + [CLOSE_OBJECT]))
    ensures ParseMembers(fp, s, i) ==
      Ok(MembersAsRead(fp, m), Skip(s, i) + |MemberBody(m, depth + 1, fmt)| + |Indent(depth, fmt)| + 1)
    decreases m, 2
  {
    hide Print, ParseValue, ParseString, Has, Skip, Quoted, Indent, MemberTail, Blank, Colon;
    var at := Skip(s, i);
    var name, colon, p, tail := Quoted(m.name), Colon(fmt), Print(m.value, depth + 1, fmt), MemberTail(m, depth + 1, fmt);
    var close := Indent(depth, fmt) + [CLOSE_OBJECT];
    assert MemberBody(m, depth + 1, fmt) + close == name + (colon + (p + (tail + close)));
    HasParts(s, at, name, colon + (p + (tail + close)));
    StringRoundTrip(s, at, m.name);
    var c := at + |name|;
    HasParts(s, c, colon, p + (tail + close));
    ColonAt(s, c, fmt);
    SkipsNothing(s, c);
    var l := c + |colon|;
    HasParts(s, l, p, tail + close);
    ValueBegins(s, l, m.value, depth + 1, fmt);
    SkipsAfterColon(s, c, fmt);
    TailEnds(s, l + |p|, m, depth, fmt);
    ValueRoundTrip(fp, s, l, m.value, depth + 1, fmt);
    if m.next.Member? {
      NextBegins(s, l + |p|, m, depth, fmt);
      MembersRoundTrip(fp, s, l + |p| + 1, m.next, depth, fmt);
    }
  }

  /** Behind a member's value: a comma, or only space up to the closing brace. */
  lemma TailEnds(s: CString, k: nat, m: Members, depth: nat, fmt: bool)
    requires m.Member? && IntegerMembers(m)
    requires Has(s, k, MemberTail(m, depth + 1, fmt) + (Indent(depth, fmt) + [CLOSE_OBJECT]))
    ensures k < |s| && EndsNumber(At(s, k))
    ensures m.next.Member? ==> At(s, k) == COMMA && Skip(s, k) == k
    ensures m.next.NoMember? ==>
      Skip(s, k) == k + |MemberTail(m, depth + 1, fmt)| + |Indent(depth, fmt)| && At(s, Skip(s, k)) == CLOSE_OBJECT
  {
    hide Has, Skip, Indent, PrintMembers;
    var close := Indent(depth, fmt) + [CLOSE_OBJECT];
    if m.next.Member? {
      var rest := Break(fmt) + PrintMembers(m.next, depth + 1, fmt) + close;
      assert MemberTail(m, depth + 1, fmt) + close == [COMMA] + rest;
      HasParts(s, k, [COMMA], rest);
      HasAt(s, k, COMMA);
      SkipsNothing(s, k);
    } else {
      LastTail(m, depth, fmt);
      var w := Break(fmt) + Indent(depth, fmt);
      BlankEnds(s, k, w, depth, fmt);
    }
  }

  lemma LastTail(m: Members, depth: nat, fmt: bool)
    requires m.Member? && m.next.NoMember? && IntegerMembers(m)
    ensures MemberTail(m, depth + 1, fmt) == Break(fmt)
    ensures MemberTail(m, depth + 1, fmt) + (Indent(depth, fmt) + [CLOSE_OBJECT]) == Break(fmt) + Indent(depth, fmt) + [CLOSE_OBJECT]
  {
    hide Indent, Break;
    assert LineEnd(false, fmt) == Break(fmt);
  }

  lemma BlankEnds(s: CString, k: nat, w: CString, depth: nat, fmt: bool)
    requires w == Break(fmt) + Indent(depth, fmt) && Has(s, k, w + [CLOSE_OBJECT])
    ensures k < |s| && EndsNumber(At(s, k))
    ensures Skip(s, k) == k + |w| && At(s, k + |w|) == CLOSE_OBJECT
  {
    hide Skip, Has, Indent;
    BlankLead(depth, fmt);
    HasParts(s, k, w, [CLOSE_OBJECT]);
    HasAt(s, k + |w|, CLOSE_OBJECT);
    SkipsBlank(s, k, w);
    FirstOf(s, k, w, CLOSE_OBJECT);
  }

  /** The first character of a blank and what follows it does not continue a number. */
  lemma FirstOf(s: CString, k: nat, w: CString, c: Char)
    requires Has(s, k, w) && Has(s, k + |w|, [c]) && Blank(w) && EndsNumber(c)
    ensures k < |s| && EndsNumber(s[k])
  {
    HasAt(s, k + |w|, c);
    if w != [] {
      assert s[k..k + |w|][0] == w[0];
    }
  }

  lemma NextBegins(s: CString, k: nat, m: Members, depth: nat, fmt: bool)
    requires m.Member? && IntegerMembers(m) && m.next.Member?
    requires Has(s, k, MemberTail(m, depth + 1, fmt) + (Indent(depth, fmt) + [CLOSE_OBJECT]))
    ensures k + 1 <= |s|
    ensures Has(s, Skip(s, k + 1), MemberBody(m.next, depth + 1, fmt) + (Indent(depth, fmt) + [CLOSE_OBJECT]))
    ensures Skip(s, k + 1) + |MemberBody(m.next, depth + 1, fmt)| == k + |MemberTail(m, depth + 1, fmt)|
  {
    hide Has, Skip, Indent, MemberBody, PrintMembers;
    var close := Indent(depth, fmt) + [CLOSE_OBJECT];
    var lead := Break(fmt) + Indent(depth + 1, fmt);
    var body := MemberBody(m.next, depth + 1, fmt) + close;
    MembersAreIndentedBodies(m.next, depth + 1, fmt);
    assert MemberTail(m, depth + 1, fmt) + close == [COMMA] + (lead + body);
    HasParts(s, k, [COMMA], lead + body);
    HasAt(s, k, COMMA);
    HasParts(s, k + 1, lead, body);
    BodyBegins(s, k + 1 + |lead|, m.next, depth, fmt);
    BlankLead(depth + 1, fmt);
    SkipsBlank(s, k + 1, lead);
  }

  lemma ColonAt(s: CString, c: nat, fmt: bool)
    requires Has(s, c, Colon(fmt))
    ensures c < |s| && s[c] == COLON
    ensures fmt ==> c + 1 < |s| && s[c + 1] == TAB
  {
    var w := Colon(fmt);
    assert s[c..c + |w|][0] == w[0];
    assert fmt ==> s[c..c + |w|][1] == w[1];
  }

  lemma SkipsAfterColon(s: CString, c: nat, fmt: bool)
    requires Has(s, c, Colon(fmt)) && c + |Colon(fmt)| < |s| && s[c + |Colon(fmt)|] > 32
    ensures Skip(s, c + 1) == c + |Colon(fmt)|
  {
    ColonAt(s, c, fmt);
    assert fmt ==> Skip(s, c + 1) == Skip(s, c + 2);
  }

  /** The whole text of a value parses to the value as it is read, whether or not the end is checked. */
  lemma PrintedParses(fp: Arithmetic, v: Json, fmt: bool, whole: bool)
    requires IntegersOnly(v)
    ensures Parse(fp, Print(v, 0, fmt), whole) == Ok(AsRead(fp, v), |Print(v, 0, fmt)|)
  {
    hide AsRead;
    var s := Print(v, 0, fmt);
    assert s[0..0 + |s|] == s;
    assert Has(s, 0, s);
    ValueBegins(s, 0, v, 0, fmt);
    SkipsNothing(s, 0);
    ValueRoundTrip(fp, s, 0, v, 0, fmt);
    SkipsNothing(s, |s|);
  }
}
