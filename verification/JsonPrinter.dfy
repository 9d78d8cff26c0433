/** Printing without a buffer: the texts of the children are printed first, and copied together
    into a new array whose size was added up while they were collected. */
module JsonPrinter {
  import opened JsonText
  import opened JsonStrings
  import opened JsonBuffer

  // ---- sizes -----------------------------------------------------------------------------------

  /** The room counted for the items of an array. */
  function ItemsRoom(items: Items, depth: nat, fmt: bool): nat
    requires IntegerItems(items)
  {
    match items
    case NoItem => 0
    case Item(v, next) => |Print(v, depth + 1, fmt)| + 2 + (if fmt then 1 else 0) + ItemsRoom(next, depth, fmt)
  }

  function ArrayRoom(items: Items, depth: nat, fmt: bool): nat
    requires IntegerItems(items)
  {
    if items.NoItem? then 3 else 5 + ItemsRoom(items, depth, fmt)
  }

  /** The room counted for the members of an object, which stand at `depth`. */
  function MembersRoom(members: Members, depth: nat, fmt: bool): nat
    requires IntegerMembers(members)
  {
    match members
    case NoMember => 0
    case Member(name, v, next) =>
      |Print(v, depth, fmt)| + |Quoted(name)| + 2 + (if fmt then 2 + depth else 0) + MembersRoom(next, depth, fmt)
  }

  function ObjectRoom(members: Members, depth: nat, fmt: bool): nat
    requires IntegerMembers(members)
  {
    if members.NoMember? then (if fmt then depth + 4 else 3)
    else 7 + (if fmt then depth + 1 else 0) + MembersRoom(members, depth + 1, fmt)
  }

  lemma {:induction false} ItemsFit(items: Items, depth: nat, fmt: bool)
    requires IntegerItems(items)
    ensures |PrintItems(items, depth, fmt)| <= ItemsRoom(items, depth, fmt)
  {
    hide Print;
    if items.Item? {
      ItemsFit(items.next, depth, fmt);
    }
  }

  lemma {:induction false} MembersFit(members: Members, depth: nat, fmt: bool)
    requires IntegerMembers(members)
    ensures |PrintMembers(members, depth, fmt)| <= MembersRoom(members, depth, fmt)
  {
    hide Print, Quoted, Tabs;
    if members.Member? {
      TabsAre(depth);
      MembersFit(members.next, depth, fmt);
    }
  }

  /** The text of an array or an object, with its NUL, fits the room computed for it. */
  lemma RoomCovers(v: Json, depth: nat, fmt: bool)
    requires IntegersOnly(v)
    ensures v.Array? ==> |Print(v, depth, fmt)| + 1 <= ArrayRoom(v.items, depth, fmt)
    ensures v.Object? ==> |Print(v, depth, fmt)| + 1 <= ObjectRoom(v.members, depth, fmt)
  {
    match v
    case Array(items) => ItemsFit(items, depth, fmt);
    case Object(members) =>
      MembersFit(members, depth + 1, fmt);
      TabsAre(depth);
      TabsAre(depth - 1);
    case _ =>
  }

  // ---- composing -------------------------------------------------------------------------------

  /** The buffer begins with the text w and a NUL. */
  ghost predicate IsText(b: seq<int>, w: CString) {
    |w| < |b| && b[..|w|] == w && b[|w|] == 0
  }

  method Strlen(b: array<int>, ghost w: CString) returns (n: nat)
    requires IsText(b[..], w)
    ensures n == |w|
  {
    n := 0;
    assert forall k :: 0 <= k < |w| ==> b[k] == w[k];
    while b[n] != 0
      invariant n <= |w| < b.Length
      decreases |w| - n
    {
      n := n + 1;
    }
  }

  /** Copies w to place `at`. */
  method Copy(out: array<int>, at: nat, w: CString) returns (end: nat)
    requires at + |w| <= out.Length
    modifies out
    ensures end == at + |w| && out[..end] == old(out[..at]) + w
  {
    ghost var before := out[..at];
    forall k | 0 <= k < |w| {
      out[at + k] := w[k];
    }
    end := at + |w|;
    assert out[..at] == before;
    forall k | 0 <= k < |w| ensures out[..end][at + k] == w[k] {
      assert out[at + k] == w[k];
    }
  }

  /** The texts of the items. */
  function Entries(items: Items, depth: nat, fmt: bool): seq<CString>
    requires IntegerItems(items)
  {
    if items.NoItem? then [] else [Print(items.value, depth + 1, fmt)] + Entries(items.next, depth, fmt)
  }

  /** Entries with commas between them. */
  function Joined(entries: seq<CString>, fmt: bool): CString {
    if entries == [] then []
    else entries[0] + ((if |entries| > 1 then Comma(fmt) else []) + Joined(entries[1..], fmt))
  }

  lemma {:induction false} JoinedEntries(items: Items, depth: nat, fmt: bool)
    requires IntegerItems(items)
    ensures Joined(Entries(items, depth, fmt), fmt) == PrintItems(items, depth, fmt)
  {
    hide Print, Comma;
    if items.Item? {
      JoinedEntries(items.next, depth, fmt);
      var e := Entries(items, depth, fmt);
      assert e[1..] == Entries(items.next, depth, fmt);
    }
  }

  /** The texts of the members' names and values. */
  function Names(members: Members): seq<CString> {
    if members.NoMember? then [] else [Quoted(members.name)] + Names(members.next)
  }

  function Values(members: Members, depth: nat, fmt: bool): (s: seq<CString>)
    requires IntegerMembers(members)
    ensures |s| == |Names(members)|
  {
    if members.NoMember? then [] else [Print(members.value, depth, fmt)] + Values(members.next, depth, fmt)
  }

  /** The lines of an object. */
  function Lines(names: seq<CString>, values: seq<CString>, depth: nat, fmt: bool): CString
    requires |names| == |values|
  {
    if names == [] then []
    else
      Indent(depth, fmt)
      + (names[0] + (Colon(fmt) + (values[0] + (LineEnd(|names| > 1, fmt) + Lines(names[1..], values[1..], depth, fmt)))))
  }

  lemma {:induction false} LinesOfMembers(members: Members, depth: nat, fmt: bool)
    requires IntegerMembers(members)
    ensures Lines(Names(members), Values(members, depth, fmt), depth, fmt) == PrintMembers(members, depth, fmt)
  {
    hide Print, Indent, Colon, Quoted, LineEnd;
    if members.Member? {
      LinesOfMembers(members.next, depth, fmt);
      assert Names(members)[1..] == Names(members.next);
      assert Values(members, depth, fmt)[1..] == Values(members.next, depth, fmt);
    }
  }

  // ---- the printer -----------------------------------------------------------------------------

  method PrintWord(w: CString) returns (out: array<int>)
    ensures fresh(out) && IsText(out[..], w)
  {
    out := new int[|w| + 1];
    var end := Copy(out, 0, w);
    out[end] := 0;
    assert out[..|w|] == w;
  }

  /** Numbers are formatted into a buffer of one of three fixed sizes. */
  method PrintNumber(d: real) returns (out: array<int>)
    requires IsWhole(d)
    ensures fresh(out) && IsText(out[..], PrintInt(d.Floor))
  {
    hide PrintInt;
    ZeroIsOneDigit();
    WholeIsShort(d.Floor);
    out := new int[if d == 0.0 then 2 else if FitsInt32(d.Floor) then 21 else 64];
    var end := Copy(out, 0, PrintInt(d.Floor));
    out[end] := 0;
    assert out[..end] == PrintInt(d.Floor);
  }

  method PrintValue(v: Json, depth: nat, fmt: bool) returns (out: array<int>)
    requires IntegersOnly(v)
    ensures fresh(out) && IsText(out[..], Print(v, depth, fmt))
    decreases v, 1
  {
    hide IsText, Quoted, PrintInt, PrintItems, PrintMembers;
    match v
    case Null => out := PrintWord(NULL_WORD);
    case False => out := PrintWord(FALSE_WORD);
    case True => out := PrintWord(TRUE_WORD);
    case Number(d) => out := PrintNumber(d);
    case Str(text) =>
      out := PrintString(text);
      assert IsText(out[..], Quoted(text)) by { AsText(out[..], Quoted(text)); }
    case Array(items) => out := PrintArray(items, depth, fmt);
    case Object(members) => out := PrintObject(members, depth, fmt);
  }

  lemma AsText(b: seq<int>, w: CString)
    requires |w| < |b| && b[..|w|] == w && b[|w|] == 0
    ensures IsText(b, w)
  {
  }

  /** What one more item adds to entries and room. */
  lemma ItemCollected(entries: seq<CString>, child: Items, depth: nat, fmt: bool)
    requires child.Item? && IntegerItems(child)
    ensures entries + Entries(child, depth, fmt) ==
      entries + [Print(child.value, depth + 1, fmt)] + Entries(child.next, depth, fmt)
    ensures ItemsRoom(child, depth, fmt) ==
      |Print(child.value, depth + 1, fmt)| + 2 + (if fmt then 1 else 0) + ItemsRoom(child.next, depth, fmt)
  {
    hide Print;
  }

  lemma NoItemCollected(entries: seq<CString>, depth: nat, fmt: bool)
    ensures entries + Entries(NoItem, depth, fmt) == entries && ItemsRoom(NoItem, depth, fmt) == 0
  {
  }

  /** Prints the items one by one and adds up the room they need together. */
  method CollectItems(items: Items, depth: nat, fmt: bool) returns (entries: seq<CString>, len: nat)
    requires IntegerItems(items)
    ensures entries == Entries(items, depth, fmt) && len == 5 + ItemsRoom(items, depth, fmt)
    decreases items, 0
  {
    hide Print, IsText, Entries, ItemsRoom;
    entries, len := [], 5;
    var child := items;
    assert [] + Entries(items, depth, fmt) == Entries(items, depth, fmt);
    while child.Item?
      invariant IntegerItems(child) && (child == items || child < items)
      invariant entries + Entries(child, depth, fmt) == Entries(items, depth, fmt)
      invariant len + ItemsRoom(child, depth, fmt) == 5 + ItemsRoom(items, depth, fmt)
      decreases child
    {
      ItemCollected(entries, child, depth, fmt);
      var entry := PrintedValue(child.value, depth + 1, fmt);
      entries := entries + [entry];
      len := len + |entry| + 2 + if fmt then 1 else 0;
      child := child.next;
    }
    NoItemCollected(entries, depth, fmt);
  }

  lemma TextIs(b: seq<int>, w: CString)
    requires IsText(b, w)
    ensures |w| < |b| && b[..|w|] == w
  {
  }

  /** The first n characters of a buffer. */
  method CopyOf(b: array<int>, n: nat, ghost w: CString) returns (s: CString)
    requires n == |w| < b.Length && b[..n] == w
    ensures s == w
  {
    s := [];
    for k := 0 to n
      invariant s == w[..k]
    {
      assert b[..n][k] == w[k];
      s := s + [b[k]];
    }
  }

  method PrintArray(items: Items, depth: nat, fmt: bool) returns (out: array<int>)
    requires IntegerItems(items)
    ensures fresh(out) && IsText(out[..], Print(Array(items), depth, fmt))
    decreases items, 1
  {
    hide Print, IsText, Comma, PrintItems, ItemsRoom;
    if items.NoItem? {
      EmptyArray(depth, fmt);
      out := PrintWord([OPEN_ARRAY, CLOSE_ARRAY]);
      return;
    }
    var entries, len := CollectItems(items, depth, fmt);
    JoinedEntries(items, depth, fmt);
    ItemsFit(items, depth, fmt);
    out := new int[len];
    var at := Copy(out, 0, [OPEN_ARRAY]);
    at := ComposeItems(out, at, entries, fmt);
    PrintedArray(items, depth, fmt);
    ghost var w := [OPEN_ARRAY] + PrintItems(items, depth, fmt);
    assert out[..at] == w;
    at := Copy(out, at, [CLOSE_ARRAY]);
    out[at] := 0;
    assert w + [CLOSE_ARRAY] == Print(Array(items), depth, fmt);
    assert out[..at] == w + [CLOSE_ARRAY];
    AsText(out[..], Print(Array(items), depth, fmt));
  }

  method ComposeItems(out: array<int>, at: nat, entries: seq<CString>, fmt: bool) returns (end: nat)
    requires at + |Joined(entries, fmt)| <= out.Length
    modifies out
    ensures end == at + |Joined(entries, fmt)| && out[..end] == old(out[..at]) + Joined(entries, fmt)
  {
    hide Comma;
    end := at;
    ghost var goal := out[..at] + Joined(entries, fmt);
    assert entries[0..] == entries;
    for i := 0 to |entries|
      invariant end + |Joined(entries[i..], fmt)| == |goal| && out[..end] + Joined(entries[i..], fmt) == goal
    {
      ghost var rest := Joined(entries[i + 1..], fmt);
      ghost var sep := if i + 1 < |entries| then Comma(fmt) else [];
      assert entries[i..][1..] == entries[i + 1..];
      Regroup(out[..end], entries[i], sep, rest);
      end := Copy(out, end, entries[i]);
      if i != |entries| - 1 {
        end := Copy(out, end, Comma(fmt));
      }
    }
  }

  lemma Regroup(done: seq<int>, a: CString, b: CString, rest: CString)
    ensures done + (a + (b + rest)) == done + a + b + rest
    ensures done + a + [] == done + a
  {
  }

  /** What one more member adds to names, values and room. */
  lemma MemberCollected(names: seq<CString>, values: seq<CString>, child: Members, depth: nat, fmt: bool)
    requires child.Member? && IntegerMembers(child)
    ensures names + Names(child) == names + [Quoted(child.name)] + Names(child.next)
    ensures values + Values(child, depth, fmt) == values + [Print(child.value, depth, fmt)] + Values(child.next, depth, fmt)
    ensures MembersRoom(child, depth, fmt) == |Print(child.value, depth, fmt)| + |Quoted(child.name)| + 2
      + (if fmt then 2 + depth else 0) + MembersRoom(child.next, depth, fmt)
  {
    hide Print, Quoted;
  }

  lemma NoneCollected(names: seq<CString>, depth: nat, fmt: bool)
    ensures names + Names(NoMember) == names && names + Values(NoMember, depth, fmt) == names
    ensures MembersRoom(NoMember, depth, fmt) == 0
  {
  }

  /** Prints names and values one by one and adds up the room they need together. */
  method CollectMembers(members: Members, depth: nat, fmt: bool) returns (names: seq<CString>, values: seq<CString>, len: nat)
    requires IntegerMembers(members)
    ensures names == Names(members) && values == Values(members, depth, fmt)
    ensures len == 7 + (if fmt then depth else 0) + MembersRoom(members, depth, fmt)
    decreases members, 0
  {
    hide Print, IsText, Quoted, Names, Values, MembersRoom;
    names, values, len := [], [], 7 + if fmt then depth else 0;
    ghost var start := len;
    var child := members;
    assert [] + Names(members) == Names(members) && [] + Values(members, depth, fmt) == Values(members, depth, fmt);
    while child.Member?
      invariant IntegerMembers(child) && (child == members || child < members)
      invariant names + Names(child) == Names(members)
      invariant values + Values(child, depth, fmt) == Values(members, depth, fmt)
      invariant len + MembersRoom(child, depth, fmt) == start + MembersRoom(members, depth, fmt)
      decreases child
    {
      MemberCollected(names, values, child, depth, fmt);
      var name := PrintedName(child.name);
      var value := PrintedValue(child.value, depth, fmt);
      names, values := names + [name], values + [value];
      len := len + |value| + |name| + 2 + if fmt then 2 + depth else 0;
      child := child.next;
    }
    NoneCollected(names, depth, fmt);
    NoneCollected(values, depth, fmt);
  }

  method PrintedName(name: CString) returns (s: CString)
    ensures s == Quoted(name)
  {
    hide Quoted;
    var str := PrintString(name);
    AsText(str[..], Quoted(name));
    var n := Strlen(str, Quoted(name));
    s := CopyOf(str, n, Quoted(name));
  }

  method PrintedValue(v: Json, depth: nat, fmt: bool) returns (s: CString)
    requires IntegersOnly(v)
    ensures s == Print(v, depth, fmt)
    decreases v, 2
  {
    hide Print, IsText;
    ghost var w := Print(v, depth, fmt);
    var ret := PrintValue(v, depth, fmt);
    var n := Strlen(ret, w);
    TextIs(ret[..], w);
    s := CopyOf(ret, n, w);
  }

  method PrintEmptyObject(depth: nat, fmt: bool) returns (out: array<int>)
    ensures fresh(out) && IsText(out[..], Print(Object(NoMember), depth, fmt))
  {
    hide Print, IsText, Break, Indent;
    EmptyObject(depth, fmt);
    ghost var w := [OPEN_OBJECT] + (Break(fmt) + Indent(depth - 1, fmt) + [CLOSE_OBJECT]);
    out := new int[if fmt then depth + 4 else 3];
    var at := Copy(out, 0, [OPEN_OBJECT]);
    at := Copy(out, at, Break(fmt));
    at := Copy(out, at, Indent(depth - 1, fmt));
    at := Copy(out, at, [CLOSE_OBJECT]);
    out[at] := 0;
    assert out[..at] == w;
    AsText(out[..], w);
  }

  method PrintObject(members: Members, depth: nat, fmt: bool) returns (out: array<int>)
    requires IntegerMembers(members)
    ensures fresh(out) && IsText(out[..], Print(Object(members), depth, fmt))
    decreases members, 1
  {
    hide Print, IsText, Break, Indent, PrintMembers, MembersRoom, Lines;
    if members.NoMember? {
      out := PrintEmptyObject(depth, fmt);
      return;
    }
    var names, values, len := CollectMembers(members, depth + 1, fmt);
    LinesOfMembers(members, depth + 1, fmt);
    MembersFit(members, depth + 1, fmt);
    LayoutLengths(depth, fmt);
    ObjectInPieces(members, depth, fmt);
    ghost var body, end := PrintMembers(members, depth + 1, fmt), Indent(depth, fmt) + [CLOSE_OBJECT];
    out := new int[len];
    var at := Copy(out, 0, [OPEN_OBJECT]);
    at := Copy(out, at, Break(fmt));
    at := ComposeLines(out, at, names, values, depth + 1, fmt);
    at := Copy(out, at, Indent(depth, fmt));
    at := Copy(out, at, [CLOSE_OBJECT]);
    out[at] := 0;
    ObjectText(Break(fmt), body, Indent(depth, fmt));
    AsText(out[..], [OPEN_OBJECT] + Break(fmt) + body + end);
  }

  lemma ObjectText(a: CString, body: CString, b: CString)
    ensures ([] + [OPEN_OBJECT]) + a + body + b + [CLOSE_OBJECT] == [OPEN_OBJECT] + a + body + (b + [CLOSE_OBJECT])
  {
  }

  method ComposeLines(out: array<int>, at: nat, names: seq<CString>, values: seq<CString>, depth: nat, fmt: bool) returns (end: nat)
    requires |names| == |values| && at + |Lines(names, values, depth, fmt)| <= out.Length
    modifies out
    ensures end == at + |Lines(names, values, depth, fmt)|
    ensures out[..end] == old(out[..at]) + Lines(names, values, depth, fmt)
  {
    hide Indent, Colon, LineEnd, Lines;
    end := at;
    ghost var goal := out[..at] + Lines(names, values, depth, fmt);
    assert names[0..] == names && values[0..] == values;
    for i := 0 to |names|
      invariant end + |Lines(names[i..], values[i..], depth, fmt)| == |goal|
      invariant out[..end] + Lines(names[i..], values[i..], depth, fmt) == goal
    {
      ghost var done, rest := out[..end], Lines(names[i + 1..], values[i + 1..], depth, fmt);
      ghost var line := LineText(names[i], values[i], i + 1 < |names|, depth, fmt);
      LinesStep(names, values, i, depth, fmt);
      assert done + (line + rest) == done + line + rest;
      end := ComposeLine(out, end, names[i], values[i], i != |names| - 1, depth, fmt);
    }
    NoLines(names, values, depth, fmt);
  }

  function LineText(name: CString, value: CString, more: bool, depth: nat, fmt: bool): CString {
    Indent(depth, fmt) + name + Colon(fmt) + value + LineEnd(more, fmt)
  }

  lemma LinesStep(names: seq<CString>, values: seq<CString>, i: nat, depth: nat, fmt: bool)
    requires |names| == |values| && i < |names|
    ensures Lines(names[i..], values[i..], depth, fmt) ==
      LineText(names[i], values[i], i + 1 < |names|, depth, fmt) + Lines(names[i + 1..], values[i + 1..], depth, fmt)
  {
    hide Indent, Colon, LineEnd;
    assert names[i..][1..] == names[i + 1..] && values[i..][1..] == values[i + 1..];
    FiveParts(Indent(depth, fmt), names[i], Colon(fmt), values[i], LineEnd(i + 1 < |names|, fmt),
              Lines(names[i + 1..], values[i + 1..], depth, fmt));
  }

  lemma FiveParts(a: CString, b: CString, c: CString, d: CString, e: CString, rest: CString)
    ensures a + (b + (c + (d + (e + rest)))) == a + b + c + d + e + rest
  {
  }

  lemma NoLines(names: seq<CString>, values: seq<CString>, depth: nat, fmt: bool)
    requires |names| == |values|
    ensures Lines(names[|names|..], values[|names|..], depth, fmt) == []
  {
  }

  method ComposeLine(out: array<int>, at: nat, name: CString, value: CString, more: bool, depth: nat, fmt: bool) returns (end: nat)
    requires at + |LineText(name, value, more, depth, fmt)| <= out.Length
    modifies out
    ensures end == at + |LineText(name, value, more, depth, fmt)|
    ensures out[..end] == old(out[..at]) + LineText(name, value, more, depth, fmt)
  {
    hide Indent, Colon, LineEnd;
    ghost var before := out[..at];
    end := Copy(out, at, Indent(depth, fmt));
    end := Copy(out, end, name);
    end := Copy(out, end, Colon(fmt));
    end := Copy(out, end, value);
    end := Copy(out, end, LineEnd(more, fmt));
    FiveBehind(before, Indent(depth, fmt), name, Colon(fmt), value, LineEnd(more, fmt));
  }

  lemma FiveBehind(before: seq<int>, a: CString, b: CString, c: CString, d: CString, e: CString)
    ensures before + a + b + c + d + e == before + (a + b + c + d + e)
  {
  }
}
