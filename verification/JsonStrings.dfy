/** Reading and writing strings in buffers sized by a first pass, and the UTF-8 of Unicode escapes. */
module JsonStrings {
  import opened JsonText
  import opened JsonParse

  // ---- reading ---------------------------------------------------------------------------------

  /** The first pass over a string: one for every character or backslash pair, and where it ends. */
  function FirstPass(s: CString, i: nat): (r: (nat, nat))
    ensures i <= r.1
    decreases |s| + 2 - i
  {
    if i >= |s| || s[i] == QUOTE then (0, i)
    else
      var (n, j) := FirstPass(s, if s[i] == BACKSLASH then i + 2 else i + 1);
      (n + 1, j)
  }

  lemma HexDigitsAreSingle(s: CString, i: nat)
    requires IsHex4(s, i)
    ensures FirstPass(s, i) == (4 + FirstPass(s, i + 4).0, FirstPass(s, i + 4).1)
  {
    assert FirstPass(s, i) == (1 + FirstPass(s, i + 1).0, FirstPass(s, i + 1).1);
    assert FirstPass(s, i + 1) == (1 + FirstPass(s, i + 2).0, FirstPass(s, i + 2).1);
    assert FirstPass(s, i + 2) == (1 + FirstPass(s, i + 3).0, FirstPass(s, i + 3).1);
    assert FirstPass(s, i + 3) == (1 + FirstPass(s, i + 4).0, FirstPass(s, i + 4).1);
  }

  /** The second pass never gets ahead of the first: what an escape writes was counted. */
  lemma EscapeIsCounted(s: CString, i: nat)
    requires i < |s| && s[i] != QUOTE && Unescaped(s, i).Ok?
    ensures var r := Unescaped(s, i);
      FirstPass(s, i).0 >= |r.value| + FirstPass(s, r.next).0 && FirstPass(s, i).1 == FirstPass(s, r.next).1
  {
    hide FirstPass, Hex4;
    var r := Unescaped(s, i);
    FirstPassStep(s, i);
    if s[i] == BACKSLASH && At(s, i + 1) == 117 {
      HexDigitsAreSingle(s, i + 2);
      if r.next == i + 12 {
        FirstPassStep(s, i + 6);
        HexDigitsAreSingle(s, i + 8);
      }
    }
  }

  lemma FirstPassStep(s: CString, i: nat)
    requires i < |s| && s[i] != QUOTE
    ensures var k := if s[i] == BACKSLASH then i + 2 else i + 1;
      FirstPass(s, i) == (1 + FirstPass(s, k).0, FirstPass(s, k).1)
  {
  }

  /** Both passes end at the same place, and the first one asks for enough room. */
  lemma {:induction false} FirstPassCovers(s: CString, i: nat)
    requires i <= |s| && Characters(s, i).Ok?
    ensures |Characters(s, i).value| <= FirstPass(s, i).0
    ensures FirstPass(s, i).1 == Characters(s, i).next
    decreases |s| - i
  {
    if i < |s| && s[i] != QUOTE {
      EscapeIsCounted(s, i);
      FirstPassCovers(s, Unescaped(s, i).next);
    }
  }

  /** Writes the bytes of a code point from the last one back to the first. */
  method WriteUtf8(out: array<int>, at: nat, codePoint: nat) returns (end: nat)
    requires 0 < codePoint < 0x110000 && at + Utf8Length(codePoint) <= out.Length
    modifies out
    ensures end == at + Utf8Length(codePoint)
    ensures out[at..end] == Utf8(codePoint)
    ensures forall k :: 0 <= k < out.Length && !(at <= k < end) ==> out[k] == old(out[k])
  {
    var len := Utf8Length(codePoint);
    ghost var mark := FirstByteMark(len);
    var p, uc, left := at + len, codePoint, len;
    while left > 1
      invariant uc >= 0 && 1 <= left <= len && p == at + left
      invariant Bytes(codePoint, len, mark) == Bytes(uc, left, mark) + out[p..at + len]
      invariant forall k :: 0 <= k < out.Length && !(at <= k < at + len) ==> out[k] == old(out[k])
    {
      ghost var tail := out[p..at + len];
      p := p - 1;
      out[p] := 0x80 + uc % 64;
      assert out[p..at + len] == [0x80 + uc % 64] + tail;
      uc := uc / 64;
      left := left - 1;
    }
    ghost var tail := out[p..at + len];
    p := p - 1;
    out[p] := FirstByteMark(len) + uc;
    assert out[p..at + len] == [mark + uc] + tail;
    end := p + len;
  }

  /** What the characters up to place p still leave to be written. */
  ghost predicate Midway(s: CString, p: nat, n: nat, text: CString, end: nat, room: nat) {
    && p <= |s| && n <= |text|
    && Characters(s, p) == Ok(text[n..], end)
    && n + FirstPass(s, p).0 <= room
  }

  lemma MidwayStep(s: CString, p: nat, n: nat, text: CString, end: nat, room: nat)
    requires Midway(s, p, n, text, end, room) && p < |s| && s[p] != QUOTE
    ensures Unescaped(s, p).Ok?
    ensures var r := Unescaped(s, p);
      && n + |r.value| <= |text| && r.value == text[n..n + |r.value|]
      && n + |r.value| <= room
      && Midway(s, r.next, n + |r.value|, text, end, room)
  {
    hide Unescaped;
    EscapeIsCounted(s, p);
    var r := Unescaped(s, p);
    var rest := Characters(s, r.next).value;
    assert text[n..] == r.value + rest;
    assert r.value == text[n..][..|r.value|];
    assert rest == text[n..][|r.value|..];
    assert text[n..][|r.value|..] == text[n + |r.value|..];
  }

  lemma MidwayStart(s: CString, i: nat)
    requires i <= |s| && Characters(s, i).Ok?
    ensures Midway(s, i, 0, Characters(s, i).value, Characters(s, i).next, FirstPass(s, i).0)
  {
    FirstPassCovers(s, i);
  }

  method MeasureString(s: CString, i: nat) returns (len: nat)
    ensures len == FirstPass(s, i).0
  {
    len := 0;
    var p := i;
    while p < |s| && s[p] != QUOTE
      invariant FirstPass(s, i) == (len + FirstPass(s, p).0, FirstPass(s, p).1)
      decreases |s| + 2 - p
    {
      FirstPassStep(s, p);
      len := len + 1;
      p := if s[p] == BACKSLASH then p + 2 else p + 1;
    }
  }

  /** The bytes one character or escape stands for, written to the buffer. */
  method WriteOne(s: CString, p: nat, out: array<int>, n: nat) returns (next: nat, n': nat)
    requires p < |s| && Unescaped(s, p).Ok?
    requires n + |Unescaped(s, p).value| <= out.Length
    modifies out
    ensures next == Unescaped(s, p).next && n' == n + |Unescaped(s, p).value|
    ensures out[n..n'] == Unescaped(s, p).value
    ensures forall k :: 0 <= k < n ==> out[k] == old(out[k])
  {
    if s[p] != BACKSLASH {
      out[n] := s[p];
      return p + 1, n + 1;
    }
    var c := s[p + 1];
    if c == 117 {
      var uc := Hex4(s, p + 2);
      next, n' := p + 6, n;
      if 0xDC00 <= uc <= 0xDFFF || uc == 0 {
        return;
      }
      if 0xD800 <= uc <= 0xDBFF {
        if At(s, p + 6) != BACKSLASH || At(s, p + 7) != 117 {
          return;
        }
        var uc2 := Hex4(s, p + 8);
        next := p + 12;
        if uc2 < 0xDC00 || uc2 > 0xDFFF {
          return;
        }
        uc := 0x10000 + uc % 0x400 * 0x400 + uc2 % 0x400;
      }
      n' := WriteUtf8(out, n, uc);
    } else {
      out[n] := if c == 98 then 8 else if c == 102 then 12 else if c == 110 then 10 else if c == 114 then 13 else if c == 116 then 9 else c;
      next, n' := p + 2, n + 1;
    }
  }

  /** Reads a string into a new buffer of the size the first pass asks for, NUL included.
      No buffer is returned where there is no string. */
  method ReadString(s: CString, i: nat) returns (out: array?<int>, next: nat, ghost text: CString)
    requires i <= |s| && ParseString(s, i) != Outside
    ensures out == null <==> ParseString(s, i).Bad?
    ensures out != null ==> fresh(out) && ParseString(s, i) == Ok(text, next)
    ensures out != null ==> |text| < out.Length && out[..|text|] == text && out[|text|] == 0
  {
    hide Characters, FirstPass, Unescaped;
    next, text := i, [];
    if At(s, i) != QUOTE {
      return null, next, text;
    }
    StringParts(s, i);
    var len := MeasureString(s, i + 1);
    out := new int[len + 1];
    text := Characters(s, i + 1).value;
    ghost var end := Characters(s, i + 1).next;
    MidwayStart(s, i + 1);
    var p, n := i + 1, 0;
    while p < |s| && s[p] != QUOTE
      invariant Midway(s, p, n, text, end, len)
      invariant n <= len && out[..n] == text[..n]
      decreases |s| - p
    {
      MidwayStep(s, p, n, text, end, len);
      ghost var before := out[..n];
      var p', n' := WriteOne(s, p, out, n);
      assert out[..n'] == before + out[n..n'];
      assert text[..n'] == text[..n] + text[n..n'];
      p, n := p', n';
    }
    MidwayEnd(s, p, n, text, end, len);
    out[n] := 0;
    next := if At(s, p) == QUOTE then p + 1 else p;
  }

  lemma MidwayEnd(s: CString, p: nat, n: nat, text: CString, end: nat, room: nat)
    requires Midway(s, p, n, text, end, room) && (p == |s| || s[p] == QUOTE)
    ensures n == |text| && end == p
  {
  }

  lemma StringParts(s: CString, i: nat)
    requires i < |s| && s[i] == QUOTE && ParseString(s, i) != Outside
    ensures Characters(s, i + 1).Ok?
  {
    NeverBad(s, i + 1);
  }

  /** Inside a string nothing is wrong: it ends at a quote or with the text. */
  lemma {:induction false} NeverBad(s: CString, i: nat)
    requires i <= |s|
    ensures !Characters(s, i).Bad?
    decreases |s| - i
  {
    if i < |s| && s[i] != QUOTE && Unescaped(s, i).Ok? {
      NeverBad(s, Unescaped(s, i).next);
    }
  }

  // ---- what Unicode escapes stand for ------------------------------------------------------------

  predicate IsContinuation(b: int) {
    0x80 <= b < 0xC0
  }

  /** The code point a byte sequence encodes by RFC 3629 section 3, or -1 if it is not the
      shortest encoding of a Unicode scalar value. */
  function DecodeUtf8(b: seq<int>): int {
    if |b| == 1 && 0 <= b[0] < 0x80 then b[0]
    else if |b| == 2 && 0xC2 <= b[0] < 0xE0 && IsContinuation(b[1]) then (b[0] - 0xC0) * 64 + (b[1] - 0x80)
    else if |b| == 3 && 0xE0 <= b[0] < 0xF0 && IsContinuation(b[1]) && IsContinuation(b[2]) then
      var c := ((b[0] - 0xE0) * 64 + (b[1] - 0x80)) * 64 + (b[2] - 0x80);
      if c >= 0x800 && !(0xD800 <= c < 0xE000) then c else -1
    else if |b| == 4 && 0xF0 <= b[0] < 0xF5 && IsContinuation(b[1]) && IsContinuation(b[2]) && IsContinuation(b[3]) then
      var c := (((b[0] - 0xF0) * 64 + (b[1] - 0x80)) * 64 + (b[2] - 0x80)) * 64 + (b[3] - 0x80);
      if 0x10000 <= c < 0x110000 then c else -1
    else -1
  }

  predicate IsScalar(cp: int) {
    0 < cp < 0x110000 && !(0xD800 <= cp < 0xE000)
  }

  lemma Utf8RoundTrip(cp: nat)
    requires IsScalar(cp)
    ensures DecodeUtf8(Utf8(cp)) == cp
  {
    hide Bytes;
    BytesByTable(cp, FirstByteMark(Utf8Length(cp)));
    assert cp == cp / 64 * 64 + cp % 64;
    assert cp / 64 == cp / 64 / 64 * 64 + cp / 64 % 64;
    assert cp / 64 / 64 == cp / 64 / 64 / 64 * 64 + cp / 64 / 64 % 64;
  }

  /** The escape of a code point stands at place i: four hexadecimal digits, or, beyond the first
      65536 code points, two such escapes that make a surrogate pair (RFC 8259 section 7). */
  predicate EscapeStands(s: CString, i: nat, cp: int) {
    && i + 1 < |s| && s[i] == BACKSLASH && s[i + 1] == 117 && IsHex4(s, i + 2)
    && if cp < 0x10000 then Hex4(s, i + 2) == cp
       else
         && Hex4(s, i + 2) == 0xD800 + (cp - 0x10000) / 0x400
         && At(s, i + 6) == BACKSLASH && At(s, i + 7) == 117 && IsHex4(s, i + 8)
         && Hex4(s, i + 8) == 0xDC00 + (cp - 0x10000) % 0x400
  }

  /** A well-formed Unicode escape is read as the one UTF-8 sequence that encodes its code point. */
  lemma UnicodeEscapeIsUtf8(s: CString, i: nat, cp: int)
    requires IsScalar(cp) && EscapeStands(s, i, cp)
    ensures Unescaped(s, i).Ok? && DecodeUtf8(Unescaped(s, i).value) == cp
    ensures Unescaped(s, i).next == i + if cp < 0x10000 then 6 else 12
  {
    hide Hex4, Utf8, DecodeUtf8;
    if cp >= 0x10000 {
      SurrogatesCombine(cp - 0x10000);
    }
    Utf8RoundTrip(cp);
  }

  lemma SurrogatesCombine(d: nat)
    requires d < 0x100000
    ensures 0xD800 <= 0xD800 + d / 0x400 <= 0xDBFF && 0xDC00 <= 0xDC00 + d % 0x400 <= 0xDFFF
    ensures (0xD800 + d / 0x400) % 0x400 * 0x400 + (0xDC00 + d % 0x400) % 0x400 == d
  {
    assert (0xD800 + d / 0x400) % 0x400 == d / 0x400;
    assert (0xDC00 + d % 0x400) % 0x400 == d % 0x400;
  }

  // ---- writing ---------------------------------------------------------------------------------

  predicate IsSpecial(c: Char) {
    c < 32 || c == QUOTE || c == BACKSLASH
  }

  /** The second counting pass of the printer: one for the character, one more for a short escape,
      five more for a long one. */
  function PrintedLength(s: CString): nat {
    if s == [] then 0
    else
      PrintedLength(s[..|s| - 1])
      + 1 + (if ShortEscape(s[|s| - 1]) != 0 then 1 else if s[|s| - 1] < 32 then 5 else 0)
  }

  lemma {:induction false} EscapedConcat(a: CString, b: CString)
    ensures Escaped(a + b) == Escaped(a) + Escaped(b)
  {
    if a == [] {
      assert a + b == b;
    } else {
      EscapedConcat(a[1..], b);
      assert (a + b)[1..] == a[1..] + b;
    }
  }

  lemma EscapedSingle(c: Char)
    ensures Escaped([c]) == EscapedChar(c)
  {
    assert [c][1..] == [];
  }

  lemma EscapedPrefix(s: CString, k: nat)
    requires k < |s|
    ensures Escaped(s[..k + 1]) == Escaped(s[..k]) + EscapedChar(s[k])
  {
    assert s[..k + 1] == s[..k] + [s[k]];
    EscapedConcat(s[..k], [s[k]]);
    EscapedSingle(s[k]);
  }

  /** The counting pass is exact. */
  lemma {:induction false} PrintedLengthIsExact(s: CString)
    ensures PrintedLength(s) == |Escaped(s)|
  {
    if s != [] {
      var k := |s| - 1;
      PrintedLengthIsExact(s[..k]);
      EscapedPrefix(s, k);
      assert s[..k + 1] == s;
    }
  }

  lemma {:induction false} PlainIsItself(s: CString)
    requires forall k :: 0 <= k < |s| ==> !IsSpecial(s[k])
    ensures Escaped(s) == s
  {
    if s != [] {
      PlainIsItself(s[1..]);
      assert s == [s[0]] + s[1..];
    }
  }

  method CountPrinted(str: CString) returns (len: nat)
    ensures len == |Escaped(str)|
  {
    len := 0;
    for i := 0 to |str|
      invariant len == PrintedLength(str[..i])
    {
      assert str[..i + 1][..i] == str[..i];
      len := len + 1;
      if ShortEscape(str[i]) != 0 {
        len := len + 1;
      } else if str[i] < 32 {
        len := len + 5;
      }
    }
    assert str[..|str|] == str;
    PrintedLengthIsExact(str);
  }

  /** Writes one special character as its escape; the long form is formatted with a NUL behind it. */
  method WriteEscape(c: Char, out: array<int>, n: nat) returns (n': nat)
    requires IsSpecial(c) && n + |EscapedChar(c)| < out.Length
    modifies out
    ensures n' == n + |EscapedChar(c)| && out[n..n'] == EscapedChar(c)
    ensures forall k :: 0 <= k < n ==> out[k] == old(out[k])
  {
    out[n] := BACKSLASH;
    if c == BACKSLASH {
      out[n + 1] := BACKSLASH;
    } else if c == QUOTE {
      out[n + 1] := QUOTE;
    } else if c == 8 {
      out[n + 1] := 98;
    } else if c == 12 {
      out[n + 1] := 102;
    } else if c == 10 {
      out[n + 1] := 110;
    } else if c == 13 {
      out[n + 1] := 114;
    } else if c == 9 {
      out[n + 1] := 116;
    } else {
      out[n + 1], out[n + 2], out[n + 3] := 117, 48, 48;
      out[n + 4], out[n + 5], out[n + 6] := HexDigit(c / 16), HexDigit(c % 16), 0;
      return n + 6;
    }
    n' := n + 2;
  }

  method HasSpecial(str: CString) returns (flag: bool)
    ensures flag <==> exists k :: 0 <= k < |str| && IsSpecial(str[k])
  {
    flag := false;
    for i := 0 to |str|
      invariant flag <==> exists k :: 0 <= k < i && IsSpecial(str[k])
    {
      if IsSpecial(str[i]) {
        flag := true;
      }
    }
  }

  /** A string of ordinary characters is copied between quotes. */
  method WriteCopy(str: CString, out: array<int>, at: nat)
    requires at + |str| + 2 < out.Length
    requires forall k :: 0 <= k < |str| ==> !IsSpecial(str[k])
    modifies out
    ensures |Quoted(str)| == |str| + 2
    ensures out[at..at + |str| + 2] == Quoted(str) && out[at + |str| + 2] == 0
    ensures forall k :: 0 <= k < at ==> out[k] == old(out[k])
  {
    PlainIsItself(str);
    out[at] := QUOTE;
    forall k | 0 <= k < |str| {
      out[at + 1 + k] := str[k];
    }
    out[at + 1 + |str|] := QUOTE;
    out[at + 2 + |str|] := 0;
    assert out[at + 1..at + 1 + |str|] == str;
    assert out[at..at + |str| + 2] == [QUOTE] + out[at + 1..at + 1 + |str|] + [QUOTE];
  }

  /** Writes a string with its quotes at place `at`, escaping special characters, and a NUL behind it. */
  method WriteEscaped(str: CString, out: array<int>, at: nat)
    requires at + |Quoted(str)| < out.Length
    modifies out
    ensures out[at..at + |Quoted(str)|] == Quoted(str) && out[at + |Quoted(str)|] == 0
    ensures forall k :: 0 <= k < at ==> out[k] == old(out[k])
  {
    hide EscapedChar, Escaped;
    out[at] := QUOTE;
    var n := at + 1;
    NothingEscaped();
    for i := 0 to |str|
      invariant n == at + 1 + |Escaped(str[..i])| <= out.Length
      invariant out[at] == QUOTE && out[at + 1..n] == Escaped(str[..i])
      invariant forall k :: 0 <= k < at ==> out[k] == old(out[k])
    {
      EscapedPrefix(str, i);
      EscapedFits(str, i);
      ghost var c := EscapedChar(str[i]);
      ghost var written := out[at + 1..n];
      var n';
      if IsSpecial(str[i]) {
        n' := WriteEscape(str[i], out, n);
      } else {
        OrdinaryIsItself(str[i]);
        out[n] := str[i];
        n' := n + 1;
      }
      assert out[at + 1..n'] == written + c;
      n := n';
    }
    assert str[..|str|] == str;
    out[n] := QUOTE;
    out[n + 1] := 0;
    assert out[at..n + 1] == [QUOTE] + out[at + 1..n] + [QUOTE];
  }

  lemma OrdinaryIsItself(c: Char)
    requires !IsSpecial(c)
    ensures EscapedChar(c) == [c]
  {
  }

  /** Prints a string into a new buffer, which the counting makes exactly large enough. */
  method PrintString(str: CString) returns (out: array<int>)
    ensures fresh(out) && out.Length == |Quoted(str)| + 1
    ensures out[..|Quoted(str)|] == Quoted(str) && out[|Quoted(str)|] == 0
  {
    hide Escaped;
    var flag := HasSpecial(str);
    if !flag {
      out := new int[|str| + 3];
      WriteCopy(str, out, 0);
    } else {
      var len := CountPrinted(str);
      out := new int[len + 3];
      WriteEscaped(str, out, 0);
    }
    assert out[..|Quoted(str)|] == out[0..0 + |Quoted(str)|];
  }

  lemma NothingEscaped()
    ensures Escaped([]) == []
  {
  }

  lemma EscapedFits(s: CString, k: nat)
    requires k < |s|
    ensures |Escaped(s[..k])| + |EscapedChar(s[k])| <= |Escaped(s)|
  {
    EscapedPrefix(s, k);
    EscapedConcat(s[..k + 1], s[k + 1..]);
    assert s == s[..k + 1] + s[k + 1..];
  }
}
