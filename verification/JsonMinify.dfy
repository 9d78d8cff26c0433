/** Taking space and comments out of a JSON text, in place. */
module JsonMinify {
  import opened Options
  import opened JsonText
  import opened JsonParse
  import opened JsonRoundTrip

  predicate IsSpace(c: int) {
    c == 32 || c == 9 || c == 13 || c == 10
  }

  /** The place of the quote that closes a string, if there is one. */
  function ClosingQuote(s: CString, i: nat): (j: Option<nat>)
    ensures j.Some? ==> i <= j.value < |s| && s[j.value] == QUOTE
    decreases |s| + 1 - i
  {
    if i >= |s| then None
    else if s[i] == QUOTE then Some(i)
    else if s[i] == BACKSLASH then (if i + 1 >= |s| then None else ClosingQuote(s, i + 2))
    else ClosingQuote(s, i + 1)
  }

  /** Where a line comment ends: before the line break, or with the text. */
  function LineCommentEnd(s: CString, i: nat): (j: nat)
    requires i <= |s|
    ensures i <= j <= |s|
    decreases |s| - i
  {
    if i == |s| || s[i] == NEWLINE then i else LineCommentEnd(s, i + 1)
  }

  /** The place behind a block comment, if it is closed. */
  function BlockCommentEnd(s: CString, i: nat): (j: Option<nat>)
    requires i <= |s|
    ensures j.Some? ==> i < j.value <= |s|
    decreases |s| - i
  {
    if i == |s| then None
    else if s[i] == 42 && At(s, i + 1) == 47 then Some(i + 2)
    else BlockCommentEnd(s, i + 1)
  }

  function Then(a: CString, rest: Option<CString>): Option<CString> {
    if rest.None? then None else Some(a + rest.value)
  }

  /** The text from place i on without space and comments; strings are kept as they are. There is no
      result where a string or a block comment is not closed. */
  function Minified(s: CString, i: nat): (r: Option<CString>)
    requires i <= |s|
    decreases |s| - i
  {
    if i == |s| then Some([])
    else if IsSpace(s[i]) then Minified(s, i + 1)
    else if s[i] == 47 && At(s, i + 1) == 47 then Minified(s, LineCommentEnd(s, i + 1))
    else if s[i] == 47 && At(s, i + 1) == 42 then
      match BlockCommentEnd(s, i)
      case None => None
      case Some(j) => Minified(s, j)
    else if s[i] == QUOTE then
      match ClosingQuote(s, i + 1)
      case None => None
      case Some(j) => Then(s[i..j + 1], Minified(s, j + 1))
    else Then([s[i]], Minified(s, i + 1))
  }

  // ---- minifying what was printed ----------------------------------------------------------------

  lemma ThenThen(a: CString, b: CString, rest: Option<CString>)
    ensures Then(a, Then(b, rest)) == Then(a + b, rest)
  {
    if rest.Some? {
      assert a + (b + rest.value) == a + b + rest.value;
    }
  }

  /** Characters that are neither space, quote nor slash stay. */
  predicate Plain(w: CString) {
    forall k :: 0 <= k < |w| ==> !IsSpace(w[k]) && w[k] != QUOTE && w[k] != 47
  }

  lemma {:induction false} PlainStays(s: CString, i: nat, w: CString)
    requires Has(s, i, w) && Plain(w)
    ensures Minified(s, i) == Then(w, Minified(s, i + |w|))
    decreases |w|
  {
    if w == [] {
      ThenNothing(Minified(s, i));
    } else {
      assert w == [w[0]] + w[1..];
      HasParts(s, i, [w[0]], w[1..]);
      HasAt(s, i, w[0]);
      PlainStays(s, i + 1, w[1..]);
      ThenThen([w[0]], w[1..], Minified(s, i + |w|));
    }
  }

  lemma {:induction false} SpaceGoes(s: CString, i: nat, w: CString)
    requires Has(s, i, w) && forall k :: 0 <= k < |w| ==> IsSpace(w[k])
    ensures Minified(s, i) == Minified(s, i + |w|)
    decreases |w|
  {
    if w != [] {
      assert w == [w[0]] + w[1..];
      HasParts(s, i, [w[0]], w[1..]);
      HasAt(s, i, w[0]);
      SpaceGoes(s, i + 1, w[1..]);
    }
  }

  lemma CharIsPassed(s: CString, i: nat, c: Char)
    requires Has(s, i, EscapedChar(c))
    ensures ClosingQuote(s, i) == ClosingQuote(s, i + |EscapedChar(c)|)
  {
    var e := EscapedChar(c);
    var w := s[i..i + |e|];
    assert forall k :: 0 <= k < |e| ==> w[k] == s[i + k];
    if |e| == 6 {
      assert s[i] == e[0] && s[i + 2] == e[2] && s[i + 3] == e[3] && s[i + 4] == e[4] && s[i + 5] == e[5];
      assert ClosingQuote(s, i) == ClosingQuote(s, i + 2);
      assert ClosingQuote(s, i + 2) == ClosingQuote(s, i + 3);
      assert ClosingQuote(s, i + 3) == ClosingQuote(s, i + 4);
      assert ClosingQuote(s, i + 4) == ClosingQuote(s, i + 5);
    } else {
      assert s[i] == e[0];
    }
  }

  lemma {:induction false} QuoteCloses(s: CString, i: nat, t: CString)
    requires Has(s, i, Escaped(t) + [QUOTE])
    ensures ClosingQuote(s, i) == Some(i + |Escaped(t)|)
    decreases |t|
  {
    hide EscapedChar, Has;
    HasParts(s, i, Escaped(t), [QUOTE]);
    HasAt(s, i + |Escaped(t)|, QUOTE);
    if t != [] {
      var c := t[0];
      assert Escaped(t) + [QUOTE] == EscapedChar(c) + (Escaped(t[1..]) + [QUOTE]);
      HasParts(s, i, EscapedChar(c), Escaped(t[1..]) + [QUOTE]);
      CharIsPassed(s, i, c);
      QuoteCloses(s, i + |EscapedChar(c)|, t[1..]);
    }
  }

  lemma StringStays(s: CString, i: nat, t: CString)
    requires Has(s, i, Quoted(t))
    ensures Minified(s, i) == Then(Quoted(t), Minified(s, i + |Quoted(t)|))
  {
    assert Quoted(t) == [QUOTE] + (Escaped(t) + [QUOTE]);
    HasParts(s, i, [QUOTE], Escaped(t) + [QUOTE]);
    HasAt(s, i, QUOTE);
    QuoteCloses(s, i + 1, t);
  }

  lemma {:induction false} DecimalIsPlain(n: nat)
    ensures Plain(Decimal(n))
  {
    if n >= 10 {
      DecimalIsPlain(n / 10);
    }
  }

  /** Where a stands at place i, it minifies to b, independently of what follows. */
  ghost predicate BecomesAt(s: CString, i: nat, a: CString, b: CString) {
    Has(s, i, a) ==> Minified(s, i) == Then(b, Minified(s, i + |a|))
  }

  lemma PartsBecome(s: CString, i: nat, a: CString, b: CString, a': CString, b': CString)
    requires BecomesAt(s, i, a, a') && BecomesAt(s, i + |a|, b, b')
    ensures BecomesAt(s, i, a + b, a' + b')
  {
    HasParts(s, i, a, b);
    if Has(s, i, a + b) {
      ThenThen(a', b', Minified(s, i + |a| + |b|));
    }
  }

  lemma ThenNothing(rest: Option<CString>)
    ensures Then([], rest) == rest
  {
    if rest.Some? {
      assert [] + rest.value == rest.value;
    }
  }

  lemma SpaceBecomesNothing(s: CString, i: nat, w: CString)
    requires forall k :: 0 <= k < |w| ==> IsSpace(w[k])
    ensures BecomesAt(s, i, w, [])
  {
    if Has(s, i, w) {
      SpaceGoes(s, i, w);
      ThenNothing(Minified(s, i + |w|));
    }
  }

  lemma PlainBecomesItself(s: CString, i: nat, w: CString)
    requires Plain(w)
    ensures BecomesAt(s, i, w, w)
  {
    if Has(s, i, w) {
      PlainStays(s, i, w);
    }
  }

  lemma StringBecomesItself(s: CString, i: nat, t: CString)
    ensures BecomesAt(s, i, Quoted(t), Quoted(t))
  {
    if Has(s, i, Quoted(t)) {
      StringStays(s, i, t);
    }
  }

  lemma IndentIsSpace(depth: int, fmt: bool)
    ensures forall k :: 0 <= k < |Break(fmt) + Indent(depth, fmt)| ==> IsSpace((Break(fmt) + Indent(depth, fmt))[k])
    ensures forall k :: 0 <= k < |Indent(depth, fmt)| ==> IsSpace(Indent(depth, fmt)[k])
  {
    TabsAre(depth);
  }

  /** A separator printed with space behind it becomes the bare one. */
  lemma SeparatorBecomes(s: CString, i: nat, c: Char, w: CString)
    requires Plain([c]) && forall k :: 0 <= k < |w| ==> IsSpace(w[k])
    ensures BecomesAt(s, i, [c] + w, [c])
  {
    PlainBecomesItself(s, i, [c]);
    SpaceBecomesNothing(s, i + 1, w);
    PartsBecome(s, i, [c], w, [c], []);
    assert [c] + [] == [c];
  }

  /** The formatted text of a value becomes its unformatted text, wherever it stands. */
  lemma {:induction false} ValueBecomes(s: CString, i: nat, v: Json, depth: nat)
    requires IntegersOnly(v)
    ensures BecomesAt(s, i, Print(v, depth, true), Print(v, depth, false))
    decreases v, 1
  {
    hide BecomesAt, PrintItems, PrintMembers, Escaped, Plain, Decimal;
    match v
    case Null => WordsArePlain(s, i);
    case False => WordsArePlain(s, i);
    case True => WordsArePlain(s, i);
    case Number(d) => IntegerBecomesItself(s, i, d.Floor);
    case Str(text) => StringBecomesItself(s, i, text);
    case Array(items) =>
      var a, b := PrintItems(items, depth, true), PrintItems(items, depth, false);
      PunctuationIsPlain(s, i);
      ItemsBecome(s, i + 1, items, depth);
      PunctuationIsPlain(s, i + 1 + |a|);
      PartsBecome(s, i + 1, a, [CLOSE_ARRAY], b, [CLOSE_ARRAY]);
      PartsBecome(s, i, [OPEN_ARRAY], a + [CLOSE_ARRAY], [OPEN_ARRAY], b + [CLOSE_ARRAY]);
    case Object(members) => ObjectBecomes(s, i, members, depth);
  }

  lemma IntegerBecomesItself(s: CString, i: nat, n: int)
    ensures BecomesAt(s, i, PrintInt(n), PrintInt(n))
  {
    DecimalIsPlain(if n < 0 then -n else n);
    PlainBecomesItself(s, i, PrintInt(n));
  }

  lemma WordsArePlain(s: CString, i: nat)
    ensures BecomesAt(s, i, NULL_WORD, NULL_WORD) && BecomesAt(s, i, FALSE_WORD, FALSE_WORD) && BecomesAt(s, i, TRUE_WORD, TRUE_WORD)
  {
    hide BecomesAt;
    PlainBecomesItself(s, i, NULL_WORD);
    PlainBecomesItself(s, i, FALSE_WORD);
    PlainBecomesItself(s, i, TRUE_WORD);
  }

  lemma PunctuationIsPlain(s: CString, i: nat)
    ensures BecomesAt(s, i, [OPEN_ARRAY], [OPEN_ARRAY]) && BecomesAt(s, i, [CLOSE_ARRAY], [CLOSE_ARRAY])
    ensures BecomesAt(s, i, [OPEN_OBJECT], [OPEN_OBJECT]) && BecomesAt(s, i, [CLOSE_OBJECT], [CLOSE_OBJECT])
    ensures BecomesAt(s, i, Comma(true), Comma(false)) && BecomesAt(s, i, Colon(true), Colon(false))
  {
    hide BecomesAt;
    PlainBecomesItself(s, i, [OPEN_ARRAY]);
    PlainBecomesItself(s, i, [CLOSE_ARRAY]);
    PlainBecomesItself(s, i, [OPEN_OBJECT]);
    PlainBecomesItself(s, i, [CLOSE_OBJECT]);
    SeparatorBecomes(s, i, COMMA, [SPACE]);
    SeparatorBecomes(s, i, COLON, [TAB]);
    assert [COMMA] + [SPACE] == Comma(true) && [COLON] + [TAB] == Colon(true);
  }

  lemma {:induction false} ItemsBecome(s: CString, i: nat, items: Items, depth: nat)
    requires IntegerItems(items)
    ensures BecomesAt(s, i, PrintItems(items, depth, true), PrintItems(items, depth, false))
    decreases items, 0
  {
    hide BecomesAt, Print, Comma;
    if items.NoItem? {
      SpaceBecomesNothing(s, i, []);
    } else {
      var a, a' := Print(items.value, depth + 1, true), Print(items.value, depth + 1, false);
      ValueBecomes(s, i, items.value, depth + 1);
      if items.next.Item? {
        var j := i + |a|;
        var b, b' := PrintItems(items.next, depth, true), PrintItems(items.next, depth, false);
        PunctuationIsPlain(s, j);
        ItemsBecome(s, j + |Comma(true)|, items.next, depth);
        PartsBecome(s, j, Comma(true), b, Comma(false), b');
        PartsBecome(s, i, a, Comma(true) + b, a', Comma(false) + b');
      } else {
        assert a + [] == a && a' + [] == a';
      }
    }
  }

  lemma {:induction false} ObjectBecomes(s: CString, i: nat, members: Members, depth: nat)
    requires IntegerMembers(members)
    ensures BecomesAt(s, i, Print(Object(members), depth, true), Print(Object(members), depth, false))
    decreases members, 1
  {
    hide BecomesAt, PrintMembers, Indent;
    PunctuationIsPlain(s, i);
    if members.NoMember? {
      var w := Break(true) + Indent(depth - 1, true);
      IndentIsSpace(depth - 1, true);
      SpaceBecomesNothing(s, i + 1, w);
      ClosesObject(s, i, w, []);
      NoIndent(depth - 1);
      assert Break(false) + Indent(depth - 1, false) == [];
    } else {
      var a, a' := PrintMembers(members, depth + 1, true), PrintMembers(members, depth + 1, false);
      var j := i + 1 + |Break(true)|;
      SpaceBecomesNothing(s, i + 1, Break(true));
      MembersBecome(s, j, members, depth + 1);
      IndentIsSpace(depth, true);
      SpaceBecomesNothing(s, j + |a|, Indent(depth, true));
      PunctuationIsPlain(s, j + |a| + |Indent(depth, true)|);
      PartsBecome(s, j + |a|, Indent(depth, true), [CLOSE_OBJECT], [], [CLOSE_OBJECT]);
      PartsBecome(s, j, a, Indent(depth, true) + [CLOSE_OBJECT], a', [] + [CLOSE_OBJECT]);
      PartsBecome(s, i + 1, Break(true), a + (Indent(depth, true) + [CLOSE_OBJECT]), [], a' + ([] + [CLOSE_OBJECT]));
      PartsBecome(s, i, [OPEN_OBJECT], Break(true) + (a + (Indent(depth, true) + [CLOSE_OBJECT])),
        [OPEN_OBJECT], [] + (a' + ([] + [CLOSE_OBJECT])));
      NoIndent(depth);
    }
  }

  lemma NoIndent(depth: int)
    ensures Indent(depth, false) == [] && Break(false) == []
  {
  }

  lemma ClosesObject(s: CString, i: nat, w: CString, w': CString)
    requires BecomesAt(s, i + 1, w, w')
    ensures BecomesAt(s, i, [OPEN_OBJECT] + (w + [CLOSE_OBJECT]), [OPEN_OBJECT] + (w' + [CLOSE_OBJECT]))
  {
    hide BecomesAt;
    PunctuationIsPlain(s, i);
    PunctuationIsPlain(s, i + 1 + |w|);
    PartsBecome(s, i + 1, w, [CLOSE_OBJECT], w', [CLOSE_OBJECT]);
    PartsBecome(s, i, [OPEN_OBJECT], w + [CLOSE_OBJECT], [OPEN_OBJECT], w' + [CLOSE_OBJECT]);
  }

  lemma LineEndBecomes(s: CString, i: nat, more: bool)
    ensures BecomesAt(s, i, LineEnd(more, true), LineEnd(more, false))
  {
    hide BecomesAt;
    if more {
      SeparatorBecomes(s, i, COMMA, [NEWLINE]);
      assert LineEnd(more, true) == [COMMA] + [NEWLINE] && LineEnd(more, false) == [COMMA];
    } else {
      SpaceBecomesNothing(s, i, [NEWLINE]);
      assert LineEnd(more, true) == [NEWLINE] && LineEnd(more, false) == [];
    }
  }

  lemma {:induction false} MembersBecome(s: CString, i: nat, members: Members, depth: nat)
    requires IntegerMembers(members)
    ensures BecomesAt(s, i, PrintMembers(members, depth, true), PrintMembers(members, depth, false))
    decreases members, 0
  {
    hide BecomesAt, Print, Colon, Indent, LineEnd, Quoted;
    match members
    case NoMember => SpaceBecomesNothing(s, i, []);
    case Member(name, v, next) =>
      var w, q, a, a' := Indent(depth, true), Quoted(name), Print(v, depth, true), Print(v, depth, false);
      var e, e' := LineEnd(next.Member?, true), LineEnd(next.Member?, false);
      var r, r' := PrintMembers(next, depth, true), PrintMembers(next, depth, false);
      var j := i + |w| + |q|;
      var k := j + |Colon(true)|;
      IndentIsSpace(depth, true);
      SpaceBecomesNothing(s, i, w);
      StringBecomesItself(s, i + |w|, name);
      PunctuationIsPlain(s, j);
      ValueBecomes(s, k, v, depth);
      LineEndBecomes(s, k + |a|, next.Member?);
      MembersBecome(s, k + |a| + |e|, next, depth);
      PartsBecome(s, k + |a|, e, r, e', r');
      PartsBecome(s, k, a, e + r, a', e' + r');
      PartsBecome(s, j, Colon(true), a + (e + r), Colon(false), a' + (e' + r'));
      PartsBecome(s, i + |w|, q, Colon(true) + (a + (e + r)), q, Colon(false) + (a' + (e' + r')));
      PartsBecome(s, i, w, q + (Colon(true) + (a + (e + r))), [], q + (Colon(false) + (a' + (e' + r'))));
      NoIndent(depth);
  }

  /** Minifying the formatted text of a value gives its unformatted text. */
  lemma MinifiedPrint(v: Json)
    requires IntegersOnly(v)
    ensures Minified(Print(v, 0, true), 0) == Some(Print(v, 0, false))
  {
    var s := Print(v, 0, true);
    assert s[0..0 + |s|] == s;
    assert Has(s, 0, s);
    ValueBecomes(s, 0, v, 0);
    assert Minified(s, |s|) == Some([]);
    assert Print(v, 0, false) + [] == Print(v, 0, false);
  }

  /** Minifying leaves what a text means: the minified text parses to the same value as the formatted
      one, in whatever arithmetic. */
  lemma MinifyingKeepsMeaning(fp: Arithmetic, v: Json)
    requires IntegersOnly(v)
    ensures var s := Print(v, 0, true);
      var m := Minified(s, 0);
      && m.Some? && Parse(fp, m.value, true).Ok? && Parse(fp, s, true).Ok?
      && Parse(fp, m.value, true).value == Parse(fp, s, true).value == AsRead(fp, v)
  {
    hide AsRead;
    MinifiedPrint(v);
    PrintedParses(fp, v, true, true);
    PrintedParses(fp, v, false, true);
  }

  // ---- in place --------------------------------------------------------------------------------

  /** The buffer holds the C string s from place `from` on. */
  ghost predicate Holds(a: array<int>, s: CString, from: nat)
    reads a
  {
    && from <= |s| < a.Length
    && (forall k :: from <= k < |s| ==> a[k] == s[k])
    && a[|s|] == 0
  }

  /** What is written so far and what is still to come make the result. */
  ghost predicate Progress(s: CString, written: seq<int>, at: nat) {
    && at <= |s|
    && Minified(s, 0).Some? && Minified(s, at).Some?
    && Minified(s, 0).value == written + Minified(s, at).value
  }

  lemma ProgressBy(s: CString, written: seq<int>, at: nat, w: CString, next: nat)
    requires Progress(s, written, at) && next <= |s|
    requires Minified(s, at) == Then(w, Minified(s, next))
    ensures Progress(s, written + w, next)
  {
    assert written + (w + Minified(s, next).value) == written + w + Minified(s, next).value;
  }

  lemma ProgressOver(s: CString, written: seq<int>, at: nat, next: nat)
    requires Progress(s, written, at) && next <= |s|
    requires Minified(s, at) == Minified(s, next)
    ensures Progress(s, written, next)
  {
  }

  /** Moves one character down. */
  method CopyOne(a: array<int>, ghost s: CString, into: nat, at: nat) returns (into': nat, at': nat)
    requires Holds(a, s, at) && into <= at < |s|
    modifies a
    ensures into' == into + 1 && at' == at + 1 && Holds(a, s, at')
    ensures a[into] == s[at] && a[..into'] == old(a[..into]) + [s[at]]
  {
    a[into] := a[at];
    into', at' := into + 1, at + 1;
  }

  lemma HoldsAt(a: array<int>, s: CString, p: nat)
    requires Holds(a, s, p)
    ensures p <= |s| < a.Length && a[p] == At(s, p)
    ensures p < |s| ==> a[p + 1] == At(s, p + 1)
  {
  }

  lemma HoldsLater(a: array<int>, s: CString, p: nat, q: nat)
    requires Holds(a, s, p) && p <= q <= |s|
    ensures Holds(a, s, q)
  {
  }

  lemma ClosingQuoteStep(s: CString, i: nat)
    requires i < |s| && s[i] != QUOTE && ClosingQuote(s, i).Some?
    ensures s[i] != BACKSLASH ==> ClosingQuote(s, i) == ClosingQuote(s, i + 1)
    ensures s[i] == BACKSLASH ==> i + 1 < |s| && ClosingQuote(s, i) == ClosingQuote(s, i + 2)
  {
  }

  /** Moves one character of a string down, with its backslash if it has one. */
  method CopyStep(a: array<int>, ghost s: CString, into: nat, at: nat) returns (into': nat, at': nat)
    requires Holds(a, s, at) && into <= at < |s| && s[at] != QUOTE && ClosingQuote(s, at).Some?
    modifies a
    ensures at < at' <= |s| && into' == into + (at' - at) && Holds(a, s, at')
    ensures ClosingQuote(s, at') == ClosingQuote(s, at)
    ensures a[..into'] == old(a[..into]) + s[at..at']
  {
    hide ClosingQuote, Holds;
    HoldsAt(a, s, at);
    ClosingQuoteStep(s, at);
    into', at' := into, at;
    if a[at'] == BACKSLASH {
      into', at' := CopyOne(a, s, into', at');
    }
    into', at' := CopyOne(a, s, into', at');
  }

  /** Copies what is left of a string, up to its closing quote. */
  method CopyRest(a: array<int>, ghost s: CString, into: nat, at: nat) returns (into': nat, at': nat)
    requires Holds(a, s, at) && into <= at <= |s| && ClosingQuote(s, at).Some?
    modifies a
    ensures at <= at' < |s| && s[at'] == QUOTE && at' == ClosingQuote(s, at).value && into' == into + (at' - at)
    ensures Holds(a, s, at')
    ensures a[..into'] == old(a[..into]) + s[at..at']
  {
    hide ClosingQuote, Holds;
    HoldsAt(a, s, at);
    into', at' := into, at;
    ghost var written := a[..into];
    while a[at'] != 0 && a[at'] != QUOTE
      invariant at <= at' <= |s| < a.Length && into' == into + (at' - at)
      invariant Holds(a, s, at') && a[at'] == At(s, at')
      invariant ClosingQuote(s, at') == ClosingQuote(s, at)
      invariant a[..into'] == written + s[at..at']
      decreases |s| - at'
    {
      ghost var p := at';
      into', at' := CopyStep(a, s, into', at');
      HoldsAt(a, s, at');
      assert s[at..at'] == s[at..p] + s[p..at'];
    }
    QuoteIsClosing(s, at');
  }

  /** Copies a string with its quotes down to place `into`. */
  method CopyString(a: array<int>, ghost s: CString, into: nat, at: nat) returns (into': nat, at': nat)
    requires Holds(a, s, at) && into <= at < |s| && s[at] == QUOTE
    requires ClosingQuote(s, at + 1).Some?
    modifies a
    ensures at' == ClosingQuote(s, at + 1).value + 1 && into' == into + (at' - at) && at' <= |s|
    ensures Holds(a, s, at') && into' <= a.Length
    ensures a[..into'] == old(a[..into]) + s[at..at']
  {
    hide ClosingQuote, Holds;
    HoldsAt(a, s, at);
    ghost var written := a[..into];
    into', at' := CopyOne(a, s, into, at);
    into', at' := CopyRest(a, s, into', at');
    QuotedCopy(written, s, at, at');
    into', at' := CopyOne(a, s, into', at');
    HoldsAt(a, s, at');
  }

  lemma QuotedCopy(written: seq<int>, s: CString, at: nat, end: nat)
    requires at < end < |s|
    ensures written + [s[at]] + s[at + 1..end] + [s[end]] == written + s[at..end + 1]
  {
    assert s[at..end + 1] == [s[at]] + s[at + 1..end] + [s[end]];
  }

  lemma QuoteIsClosing(s: CString, i: nat)
    requires ClosingQuote(s, i).Some? && i <= |s| && (i == |s| || s[i] == QUOTE)
    ensures i < |s| && ClosingQuote(s, i).value == i
  {
  }

  /** Minifies the text in the buffer; the result and its NUL are written over it from the front. */
  method MinifyInPlace(a: array<int>, ghost s: CString)
    requires Holds(a, s, 0) && Minified(s, 0).Some?
    modifies a
    ensures var m := Minified(s, 0).value;
      |m| <= |s| && a[..|m|] == m && a[|m|] == 0
  {
    hide ClosingQuote, LineCommentEnd, BlockCommentEnd, Holds;
    var into, at := 0, 0;
    HoldsAt(a, s, 0);
    assert [] + Minified(s, 0).value == Minified(s, 0).value;
    while a[at] != 0
      invariant 0 <= into <= at <= |s| < a.Length
      invariant Holds(a, s, at)
      invariant Progress(s, a[..into], at)
      decreases |s| - at
    {
      HoldsAt(a, s, at);
      ghost var written := a[..into];
      if a[at] == 32 || a[at] == 9 || a[at] == 13 || a[at] == 10 {
        ProgressOver(s, written, at, at + 1);
        HoldsLater(a, s, at, at + 1);
        at := at + 1;
      } else if a[at] == 47 && a[at + 1] == 47 {
        ghost var start := at;
        at := SkipLine(a, s, at);
        ProgressOver(s, written, start, at);
        HoldsLater(a, s, start, at);
      } else if a[at] == 47 && a[at + 1] == 42 {
        ghost var start := at;
        at := SkipBlock(a, s, at);
        ProgressOver(s, written, start, at);
        HoldsLater(a, s, start, at);
      } else if a[at] == QUOTE {
        ghost var start := at;
        into, at := CopyString(a, s, into, at);
        ProgressBy(s, written, start, s[start..at], at);
      } else {
        ProgressBy(s, written, at, [s[at]], at + 1);
        into, at := CopyOne(a, s, into, at);
      }
    }
    HoldsAt(a, s, at);
    assert a[..into] + [] == a[..into];
    a[into] := 0;
  }

  method SkipLine(a: array<int>, ghost s: CString, at: nat) returns (next: nat)
    requires Holds(a, s, at) && at < |s| && s[at] != NEWLINE
    ensures at < next <= |s| && next == LineCommentEnd(s, at + 1)
  {
    next := at;
    while a[next] != 0 && a[next] != NEWLINE
      invariant at <= next <= |s|
      invariant LineCommentEnd(s, next) == LineCommentEnd(s, at)
      decreases |s| - next
    {
      next := next + 1;
    }
  }

  method SkipBlock(a: array<int>, ghost s: CString, at: nat) returns (next: nat)
    requires Holds(a, s, at) && at < |s| && BlockCommentEnd(s, at).Some?
    ensures at < next <= |s| && next == BlockCommentEnd(s, at).value
  {
    next := at;
    while a[next] != 0 && !(a[next] == 42 && a[next + 1] == 47)
      invariant at <= next <= |s|
      invariant BlockCommentEnd(s, next) == BlockCommentEnd(s, at)
      decreases |s| - next
    {
      next := next + 1;
    }
    next := next + 2;
  }
}
