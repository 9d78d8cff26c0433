/** Printing into one buffer that grows as needed. */
module JsonBuffer {
  import opened JsonText
  import opened JsonStrings

  // ---- sizes -----------------------------------------------------------------------------------

  ghost predicate IsPower2(p: nat) {
    p == 1 || (p > 1 && p % 2 == 0 && IsPower2(p / 2))
  }

  /** The least power of two that is at least x, looked for from p on. */
  function PowerAbove(x: nat, p: nat): (r: nat)
    requires 1 <= p
    ensures x <= r && p <= r
    decreases if x > p then x - p else 0
  {
    if x <= p then p else PowerAbove(x, 2 * p)
  }

  lemma {:induction false} PowerAboveIsLeast(x: nat, p: nat)
    requires IsPower2(p) && (p == 1 || p / 2 < x)
    ensures IsPower2(PowerAbove(x, p))
    ensures PowerAbove(x, p) == 1 || PowerAbove(x, p) / 2 < x
    decreases if x > p then x - p else 0
  {
    if x > p {
      assert (2 * p) / 2 == p;
      PowerAboveIsLeast(x, 2 * p);
    }
  }

  /** The size computed by smearing bits is the least power of two that is large enough, for all
      sizes up to 2^30. */
  function Smeared(x: bv32): bv32 {
    var a := x - 1;
    var b := a | (a >> 1);
    var c := b | (b >> 2);
    var d := c | (c >> 4);
    var e := d | (d >> 8);
    var f := e | (e >> 16);
    f + 1
  }

  lemma SmearingIsPowerAbove(x: bv32)
    requires 1 <= x <= 0x4000_0000
    ensures x <= Smeared(x) && Smeared(x) & (Smeared(x) - 1) == 0
    ensures Smeared(x) == 1 || (Smeared(x) >> 1) < x
  {
  }

  // ---- the measure of recursion ------------------------------------------------------------------

  ghost function Size(v: Json): nat {
    match v
    case Array(items) => 1 + ItemsSize(items)
    case Object(members) => 1 + MembersSize(members)
    case _ => 0
  }

  ghost function ItemsSize(items: Items): nat {
    match items
    case NoItem => 0
    case Item(v, next) => 1 + Size(v) + ItemsSize(next)
  }

  ghost function MembersSize(members: Members): nat {
    match members
    case NoMember => 0
    case Member(_, v, next) => 1 + Size(v) + MembersSize(next)
  }

  /** The text w stands in b at place `at`, followed by a NUL. */
  ghost predicate Stands(b: seq<int>, at: nat, w: CString) {
    at + |w| < |b| && b[at..at + |w|] == w && b[at + |w|] == 0
  }

  class PrintBuffer {
    var buffer: array<int>
    var offset: nat

    constructor (prebuffer: nat)
      requires prebuffer >= 1
      ensures fresh(buffer) && buffer.Length == prebuffer && offset == 0
    {
      buffer := new int[prebuffer];
      offset := 0;
    }

    ghost predicate Valid()
      reads this
    {
      offset <= buffer.Length
    }

    /** What lies before the offset. */
    ghost function Written(): seq<int>
      requires Valid()
      reads this, buffer
    {
      buffer[..offset]
    }

    /** Makes room for `needed` characters behind the offset, moving to a larger buffer if there is none. */
    method Ensure(needed: nat)
      requires Valid()
      modifies this`buffer
      ensures Valid() && offset + needed <= buffer.Length
      ensures buffer == old(buffer) || fresh(buffer)
      ensures buffer.Length >= old(buffer.Length) && buffer[..old(buffer.Length)] == old(buffer[..])
      ensures buffer.Length == old(buffer.Length) || buffer.Length == PowerAbove(offset + needed, 1)
    {
      if needed + offset <= buffer.Length {
        return;
      }
      var size := PowerAbove(needed + offset, 1);
      var larger := new int[size];
      forall k | 0 <= k < buffer.Length {
        larger[k] := buffer[k];
      }
      assert larger[..buffer.Length] == buffer[..];
      buffer := larger;
    }

    /** Writes w behind the offset, which stays; if asked to, with a NUL. */
    method Store(needed: nat, w: CString, terminate: bool)
      requires Valid() && |w| + (if terminate then 1 else 0) <= needed
      modifies this`buffer, buffer
      ensures Valid() && (buffer == old(buffer) || fresh(buffer))
      ensures Written() == old(Written())
      ensures offset + |w| <= buffer.Length && buffer[offset..offset + |w|] == w
      ensures terminate ==> Stands(buffer[..], offset, w)
    {
      Ensure(needed);
      assert buffer[..offset] == old(buffer[..])[..offset];
      Put(w, terminate);
    }

    /** Writes w into the room behind the offset. */
    method Put(w: CString, terminate: bool)
      requires Valid() && offset + |w| + (if terminate then 1 else 0) <= buffer.Length
      modifies buffer
      ensures Written() == old(Written())
      ensures buffer[offset..offset + |w|] == w
      ensures terminate ==> Stands(buffer[..], offset, w)
    {
      ghost var before := buffer[..offset];
      forall k | 0 <= k < |w| {
        buffer[offset + k] := w[k];
      }
      if terminate {
        buffer[offset + |w|] := 0;
      }
      assert buffer[..offset] == before;
      forall k | 0 <= k < |w| ensures buffer[offset..offset + |w|][k] == w[k] {
        assert buffer[offset + k] == w[k];
      }
    }

    /** Writes w and moves the offset behind it. */
    method Append(needed: nat, w: CString, terminate: bool)
      requires Valid() && |w| + (if terminate then 1 else 0) <= needed
      modifies this, buffer
      ensures Valid() && (buffer == old(buffer) || fresh(buffer))
      ensures Written() == old(Written()) + w && offset == old(offset) + |w|
    {
      Store(needed, w, terminate);
      assert buffer[..offset + |w|] == buffer[..offset] + buffer[offset..offset + |w|];
      offset := offset + |w|;
    }

    /** Moves the offset to the NUL behind the text printed last. */
    method Update(ghost start: nat, ghost w: CString)
      requires Valid() && Stands(buffer[..], start, w) && start <= offset <= start + |w|
      modifies this`offset
      ensures Valid() && offset == start + |w|
      ensures Written() == buffer[..start] + w
    {
      ghost var k := offset - start;
      assert forall m :: 0 <= m < |w| ==> buffer[start..start + |w|][m] == w[m];
      while buffer[offset] != 0
        invariant 0 <= k <= |w| && offset == start + k < buffer.Length
        invariant buffer[..] == old(buffer[..])
        invariant k < |w| ==> buffer[offset] == w[k]
        decreases |w| - k
      {
        offset, k := offset + 1, k + 1;
      }
      assert buffer[..start + |w|] == buffer[..start] + buffer[start..start + |w|];
    }

    // What printing a value at the offset promises: its text stands there with a NUL behind it,
    // nothing before it changes, and the offset is not moved beyond it.

    /** Prints a string, making the room that counting asks for. */
    method PrintStringTo(str: CString)
      requires Valid()
      modifies this`buffer, buffer
      ensures Valid() && (buffer == old(buffer) || fresh(buffer))
      ensures Written() == old(Written())
      ensures Stands(buffer[..], offset, Quoted(str))
    {
      hide Escaped;
      var flag := HasSpecial(str);
      if !flag {
        Ensure(|str| + 3);
        assert buffer[..offset] == old(buffer[..])[..offset];
        ghost var before := buffer[..offset];
        WriteCopy(str, buffer, offset);
        assert buffer[..offset] == before;
      } else {
        var len := CountPrinted(str);
        Ensure(len + 3);
        assert buffer[..offset] == old(buffer[..])[..offset];
        ghost var before := buffer[..offset];
        WriteEscaped(str, buffer, offset);
        assert buffer[..offset] == before;
      }
    }

    method PrintTo(v: Json, depth: nat, fmt: bool)
      requires Valid() && IntegersOnly(v)
      modifies this, buffer
      ensures Valid() && (buffer == old(buffer) || fresh(buffer))
      ensures old(offset) <= offset <= old(offset) + |Print(v, depth, fmt)|
      ensures Stands(buffer[..], old(offset), Print(v, depth, fmt))
      ensures buffer[..old(offset)] == old(Written())
      decreases Size(v)
    {
      hide Stands, Escaped, Decimal, PrintItems, PrintMembers;
      match v
      case Null => Store(5, NULL_WORD, true);
      case False => Store(6, FALSE_WORD, true);
      case True => Store(5, TRUE_WORD, true);
      case Number(d) => PrintNumberTo(d);
      case Str(text) => PrintStringTo(text);
      case Array(items) => PrintArrayTo(items, depth, fmt);
      case Object(members) => PrintObjectTo(members, depth, fmt);
    }

    /** 32-bit integers have at most eleven characters, and whole numbers below 10^60 at most 61. */
    method PrintNumberTo(d: real)
      requires Valid() && IsWhole(d)
      modifies this`buffer, buffer
      ensures Valid() && (buffer == old(buffer) || fresh(buffer))
      ensures Written() == old(Written())
      ensures Stands(buffer[..], offset, PrintInt(d.Floor))
    {
      hide Stands;
      if d == 0.0 {
        ZeroIsOneDigit();
        Store(2, [ZERO], true);
      } else {
        WholeIsShort(d.Floor);
        Store(if FitsInt32(d.Floor) then 21 else 64, PrintInt(d.Floor), true);
      }
    }

    method PrintArrayTo(items: Items, depth: nat, fmt: bool)
      requires Valid() && IntegerItems(items)
      modifies this, buffer
      ensures Valid() && (buffer == old(buffer) || fresh(buffer))
      ensures old(offset) <= offset <= old(offset) + |Print(Array(items), depth, fmt)|
      ensures Stands(buffer[..], old(offset), Print(Array(items), depth, fmt))
      ensures buffer[..old(offset)] == old(Written())
      decreases ItemsSize(items), 2
    {
      hide Stands, PrintItems, Comma, Print;
      ghost var start, before := offset, Written();
      PrintedArray(items, depth, fmt);
      if items.NoItem? {
        EmptyArray(depth, fmt);
        Store(3, [OPEN_ARRAY, CLOSE_ARRAY], true);
        return;
      }
      hide IntegerItems;
      Append(1, [OPEN_ARRAY], false);
      PrintItemsTo(items, depth, fmt);
      ghost var done := [OPEN_ARRAY] + PrintItems(items, depth, fmt);
      assert Written() == before + done;
      Store(2, [CLOSE_ARRAY], true);
      StandsBehind(buffer[..], start, before, done, [CLOSE_ARRAY]);
      assert done + [CLOSE_ARRAY] == [OPEN_ARRAY] + (PrintItems(items, depth, fmt) + [CLOSE_ARRAY]);
    }

    /** The items, one after the other. */
    method PrintItemsTo(items: Items, depth: nat, fmt: bool)
      requires Valid() && IntegerItems(items)
      modifies this, buffer
      ensures Valid() && (buffer == old(buffer) || fresh(buffer))
      ensures Written() == old(Written()) + PrintItems(items, depth, fmt)
      decreases ItemsSize(items), 1
    {
      hide PrintItems, ItemText;
      ghost var before := Written();
      var child := items;
      ghost var done: CString := [];
      assert done + PrintItems(items, depth, fmt) == PrintItems(items, depth, fmt);
      while child.Item?
        invariant Valid() && (buffer == old(buffer) || fresh(buffer))
        invariant IntegerItems(child) && ItemsSize(child) <= ItemsSize(items)
        invariant Written() == before + done
        invariant done + PrintItems(child, depth, fmt) == PrintItems(items, depth, fmt)
        decreases child
      {
        ItemsStep(child, depth, fmt);
        ghost var w := ItemText(child, depth, fmt);
        PrintItemTo(child, depth, fmt);
        assert before + done + w == before + (done + w);
        assert done + w + PrintItems(child.next, depth, fmt) == done + (w + PrintItems(child.next, depth, fmt));
        done := done + w;
        child := child.next;
      }
      ItemsEnd(depth, fmt);
      assert done + [] == done;
    }

    /** One item and the comma behind it. */
    method PrintItemTo(child: Items, depth: nat, fmt: bool)
      requires Valid() && child.Item? && IntegerItems(child)
      modifies this, buffer
      ensures Valid() && (buffer == old(buffer) || fresh(buffer))
      ensures Written() == old(Written()) + ItemText(child, depth, fmt)
      decreases ItemsSize(child), 0
    {
      hide Stands, Print;
      ghost var at, w := offset, Print(child.value, depth + 1, fmt);
      PrintTo(child.value, depth + 1, fmt);
      Update(at, w);
      if child.next.Item? {
        Append(if fmt then 3 else 2, Comma(fmt), true);
      }
    }

    method PrintObjectTo(members: Members, depth: nat, fmt: bool)
      requires Valid() && IntegerMembers(members)
      modifies this, buffer
      ensures Valid() && (buffer == old(buffer) || fresh(buffer))
      ensures old(offset) <= offset <= old(offset) + |Print(Object(members), depth, fmt)|
      ensures Stands(buffer[..], old(offset), Print(Object(members), depth, fmt))
      ensures buffer[..old(offset)] == old(Written())
      decreases MembersSize(members), 2
    {
      hide Stands, PrintMembers, Print, Tabs;
      ghost var start, before := offset, Written();
      if members.NoMember? {
        EmptyObject(depth, fmt);
        Store(if fmt then depth + 4 else 3, [OPEN_OBJECT] + (Break(fmt) + Indent(depth - 1, fmt) + [CLOSE_OBJECT]), true);
        return;
      }
      ObjectInPieces(members, depth, fmt);
      hide Break, Indent, IntegerMembers;
      LayoutLengths(depth, fmt);
      Append(if fmt then 3 else 2, [OPEN_OBJECT] + Break(fmt), true);
      PrintMembersTo(members, depth + 1, fmt);
      ghost var done := [OPEN_OBJECT] + Break(fmt) + PrintMembers(members, depth + 1, fmt);
      assert Written() == before + done;
      Store(if fmt then depth + 2 else 2, Indent(depth, fmt) + [CLOSE_OBJECT], true);
      StandsBehind(buffer[..], start, before, done, Indent(depth, fmt) + [CLOSE_OBJECT]);
    }

    /** The members, one after the other. */
    method PrintMembersTo(members: Members, depth: nat, fmt: bool)
      requires Valid() && IntegerMembers(members)
      modifies this, buffer
      ensures Valid() && (buffer == old(buffer) || fresh(buffer))
      ensures Written() == old(Written()) + PrintMembers(members, depth, fmt)
      decreases MembersSize(members), 1
    {
      hide PrintMembers, MemberText;
      ghost var before := Written();
      var child := members;
      ghost var done: CString := [];
      assert done + PrintMembers(members, depth, fmt) == PrintMembers(members, depth, fmt);
      while child.Member?
        invariant Valid() && (buffer == old(buffer) || fresh(buffer))
        invariant IntegerMembers(child) && MembersSize(child) <= MembersSize(members)
        invariant Written() == before + done
        invariant done + PrintMembers(child, depth, fmt) == PrintMembers(members, depth, fmt)
        decreases child
      {
        MembersStep(child, depth, fmt);
        ghost var w := MemberText(child, depth, fmt);
        PrintMemberTo(child, depth, fmt);
        assert before + done + w == before + (done + w);
        assert done + w + PrintMembers(child.next, depth, fmt) == done + (w + PrintMembers(child.next, depth, fmt));
        done := done + w;
        child := child.next;
      }
      MembersEnd(depth, fmt);
      assert done + [] == done;
    }

    /** The indentation, the name and the colon of a member. */
    method PrintNameTo(name: CString, depth: nat, fmt: bool)
      requires Valid()
      modifies this, buffer
      ensures Valid() && (buffer == old(buffer) || fresh(buffer))
      ensures Written() == old(Written()) + (Indent(depth, fmt) + Quoted(name) + Colon(fmt))
    {
      hide Stands, Tabs, Quoted;
      ghost var before := Written();
      if fmt {
        TabsAre(depth);
        Append(depth, Tabs(depth), false);
      }
      assert Written() == before + Indent(depth, fmt);
      ghost var at := offset;
      PrintStringTo(name);
      Update(at, Quoted(name));
      Append(if fmt then 2 else 1, Colon(fmt), false);
      assert before + Indent(depth, fmt) + Quoted(name) + Colon(fmt) == before + (Indent(depth, fmt) + Quoted(name) + Colon(fmt));
    }

    /** One member on its line: indentation, name, colon, value, and the end of the line. */
    method PrintMemberTo(child: Members, depth: nat, fmt: bool)
      requires Valid() && child.Member? && IntegerMembers(child)
      modifies this, buffer
      ensures Valid() && (buffer == old(buffer) || fresh(buffer))
      ensures Written() == old(Written()) + MemberText(child, depth, fmt)
      decreases MembersSize(child), 0
    {
      hide Stands, Print, Indent, Quoted, Colon;
      ghost var before := Written();
      ghost var name, value, end :=
        Indent(depth, fmt) + Quoted(child.name) + Colon(fmt), Print(child.value, depth, fmt), LineEnd(child.next.Member?, fmt);
      PrintNameTo(child.name, depth, fmt);
      ghost var at := offset;
      PrintTo(child.value, depth, fmt);
      Update(at, value);
      Append((if fmt then 1 else 0) + (if child.next.Member? then 1 else 0) + 1, LineEnd(child.next.Member?, fmt), true);
      assert before + name + value + end == before + (name + value + end);
    }

    /** Prints a whole value into a new buffer: the text is the one the unbuffered printer gives. */
    static method PrintBuffered(v: Json, prebuffer: nat, fmt: bool) returns (out: array<int>)
      requires prebuffer >= 1 && IntegersOnly(v)
      ensures fresh(out)
      ensures var text := Print(v, 0, fmt); |text| < out.Length && out[..|text|] == text && out[|text|] == 0
    {
      hide Print;
      var p := new PrintBuffer(prebuffer);
      p.PrintTo(v, 0, fmt);
      out := p.buffer;
    }
  }

  lemma ZeroIsOneDigit()
    ensures PrintInt(0) == [ZERO]
  {
  }

  lemma WholeIsShort(n: int)
    requires -WHOLE_LIMIT < n < WHOLE_LIMIT
    ensures |PrintInt(n)| <= 61
    ensures FitsInt32(n) ==> |PrintInt(n)| <= 11
  {
    var m := if n < 0 then -n else n;
    LimitIsPower();
    DecimalIsShort(m, 60);
    if FitsInt32(n) {
      DecimalIsShort(m, 10);
    }
  }

  lemma LimitIsPower()
    ensures Power(60) == WHOLE_LIMIT
  {
    TenMore(0);
    TenMore(10);
    TenMore(20);
    TenMore(30);
    TenMore(40);
    TenMore(50);
  }

  lemma TenMore(k: nat)
    ensures Power(k + 10) == 10_000_000_000 * Power(k)
  {
    FiveMore(k);
    FiveMore(k + 5);
  }

  lemma FiveMore(k: nat)
    ensures Power(k + 5) == 100_000 * Power(k)
  {
    assert Power(k + 2) == 100 * Power(k);
    assert Power(k + 4) == 100 * Power(k + 2);
  }

  lemma {:induction false} DecimalIsShort(n: nat, k: nat)
    requires 1 <= k && n < Power(k)
    ensures |Decimal(n)| <= k
  {
    if n >= 10 {
      DecimalIsShort(n / 10, k - 1);
    }
  }

  function Power(k: nat): nat {
    if k == 0 then 1 else 10 * Power(k - 1)
  }

  lemma EmptyArray(depth: nat, fmt: bool)
    ensures Print(Array(NoItem), depth, fmt) == [OPEN_ARRAY, CLOSE_ARRAY]
  {
  }

  function ItemText(child: Items, depth: nat, fmt: bool): CString
    requires child.Item? && IntegerItems(child)
  {
    Print(child.value, depth + 1, fmt) + (if child.next.Item? then Comma(fmt) else [])
  }

  lemma ItemsStep(child: Items, depth: nat, fmt: bool)
    requires child.Item? && IntegerItems(child)
    ensures IntegersOnly(child.value) && IntegerItems(child.next)
    ensures PrintItems(child, depth, fmt) == ItemText(child, depth, fmt) + PrintItems(child.next, depth, fmt)
    ensures Size(child.value) < ItemsSize(child) && ItemsSize(child.next) < ItemsSize(child)
  {
    hide Print, Comma;
    if child.next.NoItem? {
      assert PrintItems(child.next, depth, fmt) == [];
    }
  }

  lemma ItemsEnd(depth: nat, fmt: bool)
    ensures PrintItems(NoItem, depth, fmt) == []
  {
  }

  function MemberText(child: Members, depth: nat, fmt: bool): CString
    requires child.Member? && IntegerMembers(child)
  {
    Indent(depth, fmt) + Quoted(child.name) + Colon(fmt) + Print(child.value, depth, fmt) + LineEnd(child.next.Member?, fmt)
  }

  lemma MembersStep(child: Members, depth: nat, fmt: bool)
    requires child.Member? && IntegerMembers(child)
    ensures IntegersOnly(child.value) && IntegerMembers(child.next)
    ensures PrintMembers(child, depth, fmt) == MemberText(child, depth, fmt) + PrintMembers(child.next, depth, fmt)
    ensures Size(child.value) < MembersSize(child) && MembersSize(child.next) < MembersSize(child)
  {
    hide Print, Indent, Quoted, Colon, LineEnd;
  }

  lemma MembersEnd(depth: nat, fmt: bool)
    ensures PrintMembers(NoMember, depth, fmt) == []
  {
  }

  lemma LayoutLengths(depth: nat, fmt: bool)
    ensures |Break(fmt)| == if fmt then 1 else 0
    ensures |Indent(depth, fmt)| == if fmt then depth else 0
  {
    TabsAre(depth);
  }

  lemma EmptyObject(depth: nat, fmt: bool)
    ensures var w := [OPEN_OBJECT] + (Break(fmt) + Indent(depth - 1, fmt) + [CLOSE_OBJECT]);
      Print(Object(NoMember), depth, fmt) == w && |w| + 1 <= if fmt then depth + 4 else 3
  {
    TabsAre(depth - 1);
  }

  lemma ObjectInPieces(members: Members, depth: nat, fmt: bool)
    requires members.Member? && IntegerMembers(members)
    ensures Print(Object(members), depth, fmt) ==
      [OPEN_OBJECT] + Break(fmt) + PrintMembers(members, depth + 1, fmt) + (Indent(depth, fmt) + [CLOSE_OBJECT])
  {
    hide Indent, PrintMembers, Break;
  }

  /** A text written before the offset and one standing behind it stand as one. */
  lemma StandsBehind(b: seq<int>, start: nat, before: seq<int>, a: CString, w: CString)
    requires |before| == start && |before + a| <= |b| && b[..|before + a|] == before + a
    requires Stands(b, start + |a|, w)
    ensures Stands(b, start, a + w) && b[..start] == before
  {
    var m := start + |a|;
    assert b[start..m] == b[..m][start..] == a;
    assert b[start..m + |w|] == b[start..m] + b[m..m + |w|];
    assert b[..start] == b[..m][..start];
  }
}
