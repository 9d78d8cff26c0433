/** The parser, as functions of the text and the place reached in it. */
module JsonParse {
  import opened JsonText

  /** A value and the place after it; or where the text is wrong; or that the text holds an
      escape the parser has no defined reading for. */
  datatype Parsed<T> = Ok(value: T, next: nat) | Bad(at: nat) | Outside

  /** The character at place i, 0 at the end. */
  function At(s: CString, i: nat): int {
    if i < |s| then s[i] else 0
  }

  predicate IsDigit(c: int) {
    48 <= c <= 57
  }

  function Skip(s: CString, i: nat): (j: nat)
    requires i <= |s|
    ensures i <= j <= |s|
    decreases |s| - i
  {
    if i < |s| && s[i] <= 32 then Skip(s, i + 1) else i
  }

  // ---- numbers ---------------------------------------------------------------------------------

  /** The floating-point arithmetic of the machine, as far as the parser uses it: how the exact
      result of an operation is rounded, and the powers of ten. */
  datatype Arithmetic = Arithmetic(round: real -> real, power: int -> real)

  /** Arithmetic without rounding. */
  function Exactly(): Arithmetic {
    Arithmetic(x => x, Power10)
  }

  /** Digits from place i on, read into a floating-point number n, and where they end. */
  function Digits(fp: Arithmetic, s: CString, i: nat, n: real): (r: (real, nat))
    requires i <= |s|
    ensures i <= r.1 <= |s|
    decreases |s| - i
  {
    if IsDigit(At(s, i)) then Digits(fp, s, i + 1, WithDigit(fp, n, At(s, i) - 48)) else (n, i)
  }

  /** A product and a sum, each rounded. */
  function WithDigit(fp: Arithmetic, n: real, d: int): real {
    fp.round(fp.round(n * 10.0) + d as real)
  }

  /** Digits of an exponent, which is an integer. */
  function IntDigits(s: CString, i: nat, n: int): (r: (int, nat))
    requires i <= |s|
    ensures i <= r.1 <= |s|
    decreases |s| - i
  {
    if IsDigit(At(s, i)) then IntDigits(s, i + 1, n * 10 + (At(s, i) - 48)) else (n, i)
  }

  function Power10(e: int): real
    decreases if e < 0 then -e else e
  {
    if e == 0 then 1.0 else if e > 0 then 10.0 * Power10(e - 1) else Power10(e + 1) / 10.0
  }

  function Signed(i: nat, s: CString): (r: (int, nat))
    requires i <= |s|
    ensures i <= r.1 <= |s|
  {
    if At(s, i) == MINUS then (-1, i + 1) else (1, i)
  }

  /** Optional sign, one optional zero, digits not beginning with a zero. */
  function IntegerPart(fp: Arithmetic, s: CString, i: nat): (r: (real, nat))
    requires i <= |s|
    ensures i <= r.1 <= |s|
  {
    var j := if At(s, i) == ZERO then i + 1 else i;
    if 49 <= At(s, j) <= 57 then Digits(fp, s, j, 0.0) else (0.0, j)
  }

  /** The digits after a point, read into n; the scale falls with every one of them. */
  function Fraction(fp: Arithmetic, s: CString, i: nat, n: real): (r: (real, int, nat))
    requires i <= |s|
    ensures i <= r.2 <= |s|
  {
    if At(s, i) == 46 && IsDigit(At(s, i + 1)) then
      var (m, j) := Digits(fp, s, i + 1, n);
      (m, (i + 1) as int - j, j)
    else (n, 0, i)
  }

  function Exponent(s: CString, i: nat): (r: (int, nat))
    requires i <= |s|
    ensures i <= r.1 <= |s|
  {
    if At(s, i) == 101 || At(s, i) == 69 then
      var (sign, j) := if At(s, i + 1) == 43 then (1, i + 2) else if At(s, i + 1) == MINUS then (-1, i + 2) else (1, i + 1);
      var (e, k) := IntDigits(s, j, 0);
      (sign * e, k)
    else (0, i)
  }

  function ParseNumber(fp: Arithmetic, s: CString, i: nat): (r: Parsed<Json>)
    requires i < |s|
    ensures r.Ok? ==> i <= r.next <= |s|
    ensures r.Ok? && (s[i] == MINUS || IsDigit(s[i])) ==> i < r.next
  {
    var (sign, j) := Signed(i, s);
    var (n, k) := IntegerPart(fp, s, j);
    var (m, scale, l) := Fraction(fp, s, k, n);
    var (e, next) := Exponent(s, l);
    Ok(Number(Scaled(fp, WithSign(sign, m), scale + e)), next)
  }

  /** A product by 1 or -1, which is exact. */
  function WithSign(sign: int, n: real): real {
    if sign < 0 then -n else n
  }

  function Scaled(fp: Arithmetic, n: real, e: int): real {
    fp.round(n * fp.power(e))
  }

  // ---- strings ---------------------------------------------------------------------------------

  /** The value of a hexadecimal digit, or -1. */
  function HexValue(c: int): int {
    if 48 <= c <= 57 then c - 48 else if 65 <= c <= 70 then c - 55 else if 97 <= c <= 102 then c - 87 else -1
  }

  predicate IsHex4(s: CString, i: nat) {
    HexValue(At(s, i)) >= 0 && HexValue(At(s, i + 1)) >= 0 && HexValue(At(s, i + 2)) >= 0 && HexValue(At(s, i + 3)) >= 0
  }

  function Hex4(s: CString, i: nat): (h: nat)
    requires IsHex4(s, i)
    ensures h < 0x10000
  {
    ((HexValue(At(s, i)) * 16 + HexValue(At(s, i + 1))) * 16 + HexValue(At(s, i + 2))) * 16 + HexValue(At(s, i + 3))
  }

  /** How many bytes a code point takes, and the mark of the first of them. */
  function Utf8Length(uc: nat): (len: nat)
    ensures 1 <= len <= 4
  {
    if uc < 0x80 then 1 else if uc < 0x800 then 2 else if uc < 0x10000 then 3 else 4
  }

  function FirstByteMark(len: nat): nat {
    if len == 2 then 0xC0 else if len == 3 then 0xE0 else if len == 4 then 0xF0 else 0
  }

  /** Six bits at a time from the last byte back, and what is left under the mark of the first byte. */
  function Bytes(uc: nat, len: nat, mark: nat): seq<int>
    requires len >= 1
  {
    if len == 1 then [mark + uc] else Bytes(uc / 64, len - 1, mark) + [0x80 + uc % 64]
  }

  /** The bytes, written out as the table of RFC 3629 section 3 lays them out. */
  lemma BytesByTable(uc: nat, mark: nat)
    ensures Bytes(uc, 1, mark) == [mark + uc]
    ensures Bytes(uc, 2, mark) == [mark + uc / 64, 0x80 + uc % 64]
    ensures Bytes(uc, 3, mark) == [mark + uc / 64 / 64, 0x80 + uc / 64 % 64, 0x80 + uc % 64]
    ensures Bytes(uc, 4, mark) == [mark + uc / 64 / 64 / 64, 0x80 + uc / 64 / 64 % 64, 0x80 + uc / 64 % 64, 0x80 + uc % 64]
  {
    assert Bytes(uc / 64, 1, mark) == [mark + uc / 64];
    assert Bytes(uc / 64 / 64, 1, mark) == [mark + uc / 64 / 64];
    assert Bytes(uc / 64 / 64 / 64, 1, mark) == [mark + uc / 64 / 64 / 64];
    assert Bytes(uc / 64, 2, mark) == [mark + uc / 64 / 64, 0x80 + uc / 64 % 64];
    assert Bytes(uc / 64 / 64, 2, mark) == [mark + uc / 64 / 64 / 64, 0x80 + uc / 64 / 64 % 64];
    assert Bytes(uc / 64, 3, mark) == [mark + uc / 64 / 64 / 64, 0x80 + uc / 64 / 64 % 64, 0x80 + uc / 64 % 64];
  }

  lemma BytesAreChars(uc: nat)
    requires 0 < uc < 0x110000
    ensures var b := Bytes(uc, Utf8Length(uc), FirstByteMark(Utf8Length(uc)));
      |b| == Utf8Length(uc) && forall k :: 0 <= k < |b| ==> 0 < b[k] < 256
  {
    hide Bytes;
    BytesByTable(uc, FirstByteMark(Utf8Length(uc)));
  }

  function Utf8(uc: nat): (bytes: CString)
    requires 0 < uc < 0x110000
    ensures |bytes| == Utf8Length(uc)
  {
    BytesAreChars(uc);
    Bytes(uc, Utf8Length(uc), FirstByteMark(Utf8Length(uc)))
  }

  /** The bytes for the escape whose backslash is at place i. Unpaired surrogates and zero give none. */
  function UnicodeEscape(s: CString, i: nat): (r: Parsed<CString>)
    requires i + 1 < |s| && s[i + 1] == 117
    ensures r.Ok? ==> i + 6 <= r.next <= |s|
  {
    if !IsHex4(s, i + 2) then Outside
    else
      var uc := Hex4(s, i + 2);
      if 0xDC00 <= uc <= 0xDFFF || uc == 0 then Ok([], i + 6)
      else if 0xD800 <= uc <= 0xDBFF then
        if At(s, i + 6) != BACKSLASH || At(s, i + 7) != 117 then Ok([], i + 6)
        else if !IsHex4(s, i + 8) then Outside
        else
          var uc2 := Hex4(s, i + 8);
          if uc2 < 0xDC00 || uc2 > 0xDFFF then Ok([], i + 12)
          else Ok(Utf8(0x10000 + uc % 0x400 * 0x400 + uc2 % 0x400), i + 12)
      else Ok(Utf8(uc), i + 6)
  }

  /** One character or escape of a string. */
  function Unescaped(s: CString, i: nat): (r: Parsed<CString>)
    requires i < |s|
    ensures r.Ok? ==> i < r.next <= |s|
  {
    if s[i] != BACKSLASH then Ok([s[i]], i + 1)
    else
      var c := At(s, i + 1);
      if c == 98 then Ok([8], i + 2)
      else if c == 102 then Ok([12], i + 2)
      else if c == 110 then Ok([10], i + 2)
      else if c == 114 then Ok([13], i + 2)
      else if c == 116 then Ok([9], i + 2)
      else if c == 117 then UnicodeEscape(s, i)
      else if c == 0 then Outside
      else Ok([c], i + 2)
  }

  /** The characters of a string up to its closing quote, or to the end of the text. */
  function Characters(s: CString, i: nat): (r: Parsed<CString>)
    requires i <= |s|
    ensures r.Ok? ==> i <= r.next <= |s|
    decreases |s| - i
  {
    if i == |s| || s[i] == QUOTE then Ok([], i)
    else
      match Unescaped(s, i)
      case Ok(a, j) =>
        (match Characters(s, j)
         case Ok(b, k) => Ok(a + b, k)
         case Bad(at) => Bad(at)
         case Outside => Outside)
      case Bad(at) => Bad(at)
      case Outside => Outside
  }

  function ParseString(s: CString, i: nat): (r: Parsed<CString>)
    requires i <= |s|
    ensures r.Ok? ==> i < r.next <= |s|
  {
    if At(s, i) != QUOTE then Bad(i)
    else
      match Characters(s, i + 1)
      case Ok(text, j) => Ok(text, if At(s, j) == QUOTE then j + 1 else j)
      case Bad(at) => Bad(at)
      case Outside => Outside
  }

  // ---- values ----------------------------------------------------------------------------------

  function ParseValue(fp: Arithmetic, s: CString, i: nat): (r: Parsed<Json>)
    requires i <= |s|
    ensures r.Ok? ==> i < r.next <= |s|
    decreases |s| - i, 2
  {
    if Has(s, i, NULL_WORD) then Ok(Null, i + 4)
    else if Has(s, i, FALSE_WORD) then Ok(False, i + 5)
    else if Has(s, i, TRUE_WORD) then Ok(True, i + 4)
    else if At(s, i) == QUOTE then
      match ParseString(s, i)
      case Ok(text, j) => Ok(Str(text), j)
      case Bad(at) => Bad(at)
      case Outside => Outside
    else if At(s, i) == MINUS || IsDigit(At(s, i)) then ParseNumber(fp, s, i)
    else if At(s, i) == OPEN_ARRAY then
      var j := Skip(s, i + 1);
      if At(s, j) == CLOSE_ARRAY then Ok(Array(NoItem), j + 1)
      else
        match ParseItems(fp, s, j)
        case Ok(items, k) => Ok(Array(items), k)
        case Bad(at) => Bad(at)
        case Outside => Outside
    else if At(s, i) == OPEN_OBJECT then
      var j := Skip(s, i + 1);
      if At(s, j) == CLOSE_OBJECT then Ok(Object(NoMember), j + 1)
      else
        match ParseMembers(fp, s, j)
        case Ok(members, k) => Ok(Object(members), k)
        case Bad(at) => Bad(at)
        case Outside => Outside
    else Bad(i)
  }

  /** The items of an array from place i on, and its closing bracket. */
  function ParseItems(fp: Arithmetic, s: CString, i: nat): (r: Parsed<Items>)
    requires i <= |s|
    ensures r.Ok? ==> i < r.next <= |s|
    decreases |s| - i, 3
  {
    match ParseValue(fp, s, Skip(s, i))
    case Bad(at) => Bad(at)
    case Outside => Outside
    case Ok(v, j) =>
      var k := Skip(s, j);
      if At(s, k) == COMMA then
        (match ParseItems(fp, s, k + 1)
         case Ok(items, l) => Ok(Item(v, items), l)
         case Bad(at) => Bad(at)
         case Outside => Outside)
      else if At(s, k) == CLOSE_ARRAY then Ok(Item(v, NoItem), k + 1)
      else Bad(k)
  }

  /** The members of an object from place i on, and its closing brace. */
  function ParseMembers(fp: Arithmetic, s: CString, i: nat): (r: Parsed<Members>)
    requires i <= |s|
    ensures r.Ok? ==> i < r.next <= |s|
    decreases |s| - i, 3
  {
    match ParseString(s, Skip(s, i))
    case Bad(at) => Bad(at)
    case Outside => Outside
    case Ok(name, j) =>
      var c := Skip(s, j);
      if At(s, c) != COLON then Bad(c)
      else
        (match ParseValue(fp, s, Skip(s, c + 1))
         case Bad(at) => Bad(at)
         case Outside => Outside
         case Ok(v, l) =>
           var k := Skip(s, l);
           if At(s, k) == COMMA then
             (match ParseMembers(fp, s, k + 1)
              case Ok(members, e) => Ok(Member(name, v, members), e)
              case Bad(at) => Bad(at)
              case Outside => Outside)
           else if At(s, k) == CLOSE_OBJECT then Ok(Member(name, v, NoMember), k + 1)
           else Bad(k))
  }

  /** A whole text; if asked to, nothing but space may follow the value. */
  function Parse(fp: Arithmetic, s: CString, whole: bool): (r: Parsed<Json>)
    ensures r.Ok? ==> r.next <= |s|
  {
    match ParseValue(fp, s, Skip(s, 0))
    case Bad(at) => Bad(at)
    case Outside => Outside
    case Ok(v, i) =>
      if !whole then Ok(v, i)
      else
        var j := Skip(s, i);
        if At(s, j) != 0 then Bad(j) else Ok(v, j)
  }
}
