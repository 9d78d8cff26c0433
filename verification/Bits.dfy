/** Machine words and the numbers they stand for: the bit tricks of the JSON library compute what
    the model writes in arithmetic. */
module Bits {
  import opened JsonText
  import opened JsonParse
  import opened JsonBuffer

  function Half(x: bv32): bv32 { x >> 1 }

  function Join(x: bv32, y: bv32): bv32 { x | y }

  function Keep(x: bv32, mask: bv32): bv32 { x & mask }

  function LowBit(x: bv32): nat {
    if x & 1 == 1 then 1 else 0
  }

  predicate IsBelow(x: bv32, y: bv32) { x < y }

  /** All the low bits up to the highest one are set. */
  predicate IsMask(mask: bv32) {
    mask == 0 || (LowBit(mask) == 1 && (HalfIsLess(mask); IsMask(Half(mask))))
  }

  /** The number a word stands for. */
  function ValueOf(x: bv32): nat {
    if x == 0 then 0 else HalfIsLess(x); 2 * ValueOf(Half(x)) + LowBit(x)
  }

  // ---- facts about words -------------------------------------------------------------------------

  lemma HalfIsLess(x: bv32)
    requires x != 0
    ensures Half(x) < x
  {
  }

  lemma SixShifts(x: bv32)
    ensures x >> 6 == Half(Half(Half(Half(Half(Half(x))))))
  {
  }

  lemma DisjointHalves(x: bv32, y: bv32)
    requires Keep(x, y) == 0
    ensures Keep(Half(x), Half(y)) == 0 && Half(Join(x, y)) == Join(Half(x), Half(y))
    ensures LowBit(Join(x, y)) == LowBit(x) + LowBit(y)
  {
  }

  lemma OrderOfHalves(x: bv32, y: bv32)
    requires IsBelow(Half(x), Half(y))
    ensures IsBelow(x, y)
  {
  }

  lemma OrderOfLowBits(x: bv32, y: bv32)
    requires Half(x) == Half(y) && LowBit(x) < LowBit(y)
    ensures IsBelow(x, y)
  {
  }

  lemma NothingBelowItself(x: bv32, y: bv32)
    requires IsBelow(x, y)
    ensures x != y && !IsBelow(y, x)
  {
  }

  lemma HalvesTell(x: bv32, y: bv32)
    requires Half(x) == Half(y) && LowBit(x) == LowBit(y)
    ensures x == y
  {
  }

  lemma MaskUnfolded(mask: bv32)
    requires IsMask(mask) && mask != 0
    ensures LowBit(mask) == 1 && IsMask(Half(mask))
  {
  }

  lemma MaskedHalves(x: bv32, mask: bv32)
    requires LowBit(mask) == 1
    ensures Half(Keep(x, mask)) == Keep(Half(x), Half(mask)) && LowBit(Keep(x, mask)) == LowBit(x)
  {
  }

  lemma NothingJoined(y: bv32)
    ensures Join(0, y) == y
  {
  }

  lemma NothingKept(x: bv32)
    ensures Keep(x, 0) == 0
  {
  }

  lemma LowBits(x: bv32, y: bv32)
    ensures LowBit(x) < 2 && LowBit(y) < 2
  {
  }

  // ---- what the operations on words mean ---------------------------------------------------------

  lemma Unfolded(x: bv32)
    ensures ValueOf(x) == 2 * ValueOf(Half(x)) + LowBit(x)
    ensures ValueOf(Half(x)) == ValueOf(x) / 2
  {
    assert ValueOf(0) == 0;
  }

  lemma ZeroIsZero()
    ensures ValueOf(0) == 0
  {
  }

  lemma ShiftIsDivision(x: bv32)
    ensures ValueOf(x >> 6) == ValueOf(x) / 64
  {
    hide ValueOf, Half, LowBit;
    SixShifts(x);
    var a := Half(x);
    var b := Half(a);
    var c := Half(b);
    var d := Half(c);
    var e := Half(d);
    Unfolded(x);
    Unfolded(a);
    Unfolded(b);
    Unfolded(c);
    Unfolded(d);
    Unfolded(e);
  }

  /** Words without a common bit are added by joining their bits. */
  lemma {:induction false} OrIsAddition(x: bv32, y: bv32)
    requires Keep(x, y) == 0
    ensures ValueOf(Join(x, y)) == ValueOf(x) + ValueOf(y)
    decreases x
  {
    hide ValueOf, LowBit, Half, Join, Keep;
    if x == 0 {
      ZeroIsZero();
      NothingJoined(y);
    } else {
      DisjointHalves(x, y);
      HalfIsLess(x);
      OrIsAddition(Half(x), Half(y));
      Unfolded(x);
      Unfolded(y);
      Unfolded(Join(x, y));
    }
  }

  lemma {:induction false} ValuesDiffer(x: bv32, y: bv32)
    requires ValueOf(x) == ValueOf(y)
    ensures x == y
    decreases x
  {
    hide ValueOf, LowBit, Half;
    Unfolded(x);
    Unfolded(y);
    LowBits(x, y);
    if x == 0 {
      ZeroIsZero();
      OnlyZeroIsZero(y);
    } else {
      HalfIsLess(x);
      ValuesDiffer(Half(x), Half(y));
      HalvesTell(x, y);
    }
  }

  lemma {:induction false} OnlyZeroIsZero(x: bv32)
    requires ValueOf(x) == 0
    ensures x == 0
    decreases x
  {
    hide LowBit, Half;
    if x != 0 {
      HalfIsLess(x);
      OnlyZeroIsZero(Half(x));
      OneIsOdd(x);
    }
  }

  lemma OneIsOdd(x: bv32)
    requires Half(x) == 0 && LowBit(x) == 0
    ensures x == 0
  {
  }

  lemma {:induction false} OrderIsKept(x: bv32, y: bv32)
    requires !IsBelow(y, x)
    ensures ValueOf(x) <= ValueOf(y)
    decreases x
  {
    hide ValueOf, LowBit, Half, IsBelow;
    if x == 0 {
      ZeroIsZero();
    } else {
      if IsBelow(Half(y), Half(x)) {
        OrderOfHalves(y, x);
        assert false;
      }
      HalfIsLess(x);
      OrderIsKept(Half(x), Half(y));
      Unfolded(x);
      Unfolded(y);
      LowBits(x, y);
      if ValueOf(Half(x)) == ValueOf(Half(y)) {
        ValuesDiffer(Half(x), Half(y));
        if LowBit(y) < LowBit(x) {
          OrderOfLowBits(y, x);
          assert false;
        }
      }
    }
  }

  /** Words compare as their numbers do. */
  lemma OrderIsTheSame(x: bv32, y: bv32)
    ensures IsBelow(x, y) <==> ValueOf(x) < ValueOf(y)
  {
    hide ValueOf, IsBelow;
    if IsBelow(x, y) {
      NothingBelowItself(x, y);
      OrderIsKept(x, y);
      if ValueOf(x) == ValueOf(y) {
        ValuesDiffer(x, y);
        assert false;
      }
    } else {
      OrderIsKept(y, x);
    }
  }

  /** The low bits of a word are its remainder. */
  lemma {:induction false} MaskIsRemainder(x: bv32, mask: bv32)
    requires IsMask(mask)
    ensures ValueOf(Keep(x, mask)) == ValueOf(x) % (ValueOf(mask) + 1)
    decreases mask
  {
    hide ValueOf, LowBit, Half, Keep, IsMask;
    if mask == 0 {
      ZeroIsZero();
      NothingKept(x);
    } else {
      MaskUnfolded(mask);
      MaskedHalves(x, mask);
      HalfIsLess(mask);
      MaskIsRemainder(Half(x), Half(mask));
      Unfolded(x);
      Unfolded(mask);
      Unfolded(Keep(x, mask));
      LowBits(x, mask);
      RemainderStep(ValueOf(Half(x)), LowBit(x), ValueOf(Half(mask)), ValueOf(mask));
    }
  }

  lemma RemainderStep(a: nat, b: nat, n: nat, m: nat)
    requires b < 2 && m == 2 * n + 1
    ensures (2 * a + b) % (m + 1) == 2 * (a % (n + 1)) + b
  {
    RemainderOfDouble(a, b, n + 1);
    assert m + 1 == 2 * (n + 1);
  }

  lemma RemainderOfDouble(a: nat, b: nat, n: nat)
    requires b < 2 && n > 0
    ensures (2 * a + b) % (2 * n) == 2 * (a % n) + b
  {
    var q, r := a / n, a % n;
    assert a == n * q + r;
    assert 2 * a + b == (2 * n) * q + (2 * r + b);
    RemainderIs(2 * a + b, 2 * n, q, 2 * r + b);
  }

  lemma RemainderIs(m: nat, n: nat, q: nat, r: nat)
    requires r < n && m == n * q + r
    ensures m % n == r
  {
    var k := m / n - q;
    assert m == n * (m / n) + m % n;
    assert n * (m / n) - n * q == n * k;
    assert n * k == r - m % n;
  }

  // ---- the bytes of a code point -------------------------------------------------------------------

  /** The marks of the first byte by length, as the table of the source holds them. */
  function MarkOf(len: nat): bv32 {
    if len == 2 then 0xC0 else if len == 3 then 0xE0 else if len == 4 then 0xF0 else 0
  }

  /** The bytes as the source computes them: the low six bits are masked out from the last byte back,
      and what is left is joined with the mark of the first byte. */
  function EncodedFrom(uc: bv32, left: nat, mark: bv32): seq<bv32>
    requires left >= 1
  {
    if left == 1 then [uc | mark] else EncodedFrom(uc >> 6, left - 1, mark) + [(uc | 0x80) & 0xBF]
  }

  function Values(w: seq<bv32>): (v: seq<int>)
    ensures |v| == |w|
  {
    seq(|w|, k requires 0 <= k < |w| => ValueOf(w[k]))
  }

  lemma MaskLiterals()
    ensures IsMask(0x3F) && ValueOf(0x3F) == 0x3F
    ensures IsMask(0x1F) && ValueOf(0x1F) == 0x1F
    ensures IsMask(0x0F) && ValueOf(0x0F) == 0x0F
    ensures IsMask(0x07) && ValueOf(0x07) == 0x07
  {
  }

  lemma MarkLiterals()
    ensures ValueOf(0) == 0 && ValueOf(0x80) == 0x80
    ensures ValueOf(0xC0) == 0xC0 && ValueOf(0xE0) == 0xE0 && ValueOf(0xF0) == 0xF0
  {
    hide ValueOf;
    ZeroIsZero();
    MaskLiterals();
    SmallLiterals();
    FourTimes(0x80, 0x20);
    FourTimes(0x20, 0x08);
    FourTimes(0xC0, 0x30);
    FourTimes(0x30, 0x0C);
    FourTimes(0xE0, 0x38);
    FourTimes(0x38, 0x0E);
    FourTimes(0xF0, 0x3C);
    FourTimes(0x3C, 0x0F);
  }

  lemma SmallLiterals()
    ensures ValueOf(0x08) == 0x08 && ValueOf(0x0C) == 0x0C && ValueOf(0x0E) == 0x0E
  {
  }

  lemma FourTimes(x: bv32, quarter: bv32)
    requires quarter == Half(Half(x)) && LowBit(x) == 0 && LowBit(Half(x)) == 0
    ensures ValueOf(x) == 4 * ValueOf(quarter)
  {
    hide ValueOf, Half, LowBit;
    Unfolded(x);
    Unfolded(Half(x));
  }

  lemma ContinuationParts(uc: bv32)
    ensures (uc | 0x80) & 0xBF == Join(0x80, Keep(uc, 0x3F))
    ensures Keep(0x80, Keep(uc, 0x3F)) == 0
  {
  }

  /** A byte behind the first holds 0x80 plus the remainder by 64. */
  lemma ContinuationByte(uc: bv32)
    ensures ValueOf((uc | 0x80) & 0xBF) == 0x80 + ValueOf(uc) % 64
  {
    hide ValueOf, Keep, Join, IsMask;
    ContinuationParts(uc);
    MaskLiterals();
    MarkLiterals();
    MaskIsRemainder(uc, 0x3F);
    OrIsAddition(0x80, Keep(uc, 0x3F));
  }

  /** A number that a mask has room for lies under it. */
  lemma LiesUnder(x: bv32, mask: bv32)
    requires IsMask(mask) && ValueOf(x) <= ValueOf(mask)
    ensures Keep(x, mask) == x
  {
    hide ValueOf, Keep, IsMask;
    MaskIsRemainder(x, mask);
    ValuesDiffer(Keep(x, mask), x);
  }

  /** The numbers there is room for beside the mark of a first byte. */
  function RoomOf(len: nat): nat {
    if len == 2 then 0x1F else if len == 3 then 0x0F else 0x07
  }

  lemma MarkIsFree(uc: bv32)
    ensures Keep(uc, 0x1F) == uc ==> Keep(uc, 0xC0) == 0
    ensures Keep(uc, 0x0F) == uc ==> Keep(uc, 0xE0) == 0
    ensures Keep(uc, 0x07) == uc ==> Keep(uc, 0xF0) == 0
  {
  }

  lemma JoinIs(x: bv32, y: bv32)
    ensures x | y == Join(x, y)
  {
  }

  lemma UnderMark(uc: bv32, len: nat)
    requires 2 <= len <= 4 && ValueOf(uc) <= RoomOf(len)
    ensures Keep(uc, MarkOf(len)) == 0 && ValueOf(MarkOf(len)) == FirstByteMark(len)
  {
    hide ValueOf, Keep, IsMask;
    MaskLiterals();
    MarkLiterals();
    MarkIsFree(uc);
    if len == 2 {
      LiesUnder(uc, 0x1F);
    } else if len == 3 {
      LiesUnder(uc, 0x0F);
    } else {
      LiesUnder(uc, 0x07);
    }
  }

  /** The first byte holds its mark plus what is left of the code point. */
  lemma FirstByte(uc: bv32, len: nat)
    requires len == 1 || (2 <= len <= 4 && ValueOf(uc) <= RoomOf(len))
    ensures ValueOf(uc | MarkOf(len)) == FirstByteMark(len) + ValueOf(uc)
  {
    hide ValueOf, Keep, Join, RoomOf;
    if len == 1 {
      NothingAdded(uc);
    } else {
      UnderMark(uc, len);
      JoinIs(uc, MarkOf(len));
      OrIsAddition(uc, MarkOf(len));
    }
  }

  lemma NothingAdded(x: bv32)
    ensures x | 0 == x
  {
  }

  /** What is left of v for the first byte. */
  function LeftOf(v: nat, left: nat): nat
    requires left >= 1
  {
    if left == 1 then v else LeftOf(v / 64, left - 1)
  }

  lemma {:induction false} EncodedFromIsBytes(uc: bv32, left: nat, len: nat)
    requires left >= 1 && (len == 1 || (2 <= len <= 4 && LeftOf(ValueOf(uc), left) <= RoomOf(len)))
    ensures Values(EncodedFrom(uc, left, MarkOf(len))) == Bytes(ValueOf(uc), left, FirstByteMark(len))
    decreases left
  {
    hide ValueOf, MarkOf, FirstByteMark, RoomOf;
    if left == 1 {
      FirstByte(uc, len);
    } else {
      ShiftIsDivision(uc);
      EncodedFromIsBytes(uc >> 6, left - 1, len);
      ContinuationByte(uc);
      ValuesOfJoined(EncodedFrom(uc >> 6, left - 1, MarkOf(len)), (uc | 0x80) & 0xBF);
    }
  }

  lemma ValuesOfJoined(w: seq<bv32>, x: bv32)
    ensures Values(w + [x]) == Values(w) + [ValueOf(x)]
  {
    hide ValueOf;
  }

  lemma LeftFits(v: nat)
    requires 0x80 <= v < 0x110000
    ensures LeftOf(v, Utf8Length(v)) <= RoomOf(Utf8Length(v))
  {
    assert LeftOf(v, 2) == v / 64;
    assert LeftOf(v, 3) == LeftOf(v / 64, 2) == v / 64 / 64;
    assert LeftOf(v, 4) == LeftOf(v / 64, 3) == LeftOf(v / 64 / 64, 2) == v / 64 / 64 / 64;
  }

  /** The masks, shifts and marks of the source write the UTF-8 of the code point. */
  lemma EncodedIsUtf8(uc: bv32)
    requires 0 < ValueOf(uc) < 0x110000
    ensures var len := Utf8Length(ValueOf(uc));
      Values(EncodedFrom(uc, len, MarkOf(len))) == Utf8(ValueOf(uc))
  {
    hide ValueOf, MarkOf, EncodedFrom, Bytes, LeftOf, RoomOf;
    var len := Utf8Length(ValueOf(uc));
    if len > 1 {
      LeftFits(ValueOf(uc));
    }
    EncodedFromIsBytes(uc, len, len);
  }

  // ---- hexadecimal digits and surrogates -----------------------------------------------------------

  function Twice(x: bv32): bv32 { x << 1 }

  lemma TwiceParts(x: bv32)
    requires x < 0x8000_0000
    ensures Half(Twice(x)) == x && LowBit(Twice(x)) == 0
  {
  }

  lemma TwiceIsDouble(x: bv32)
    requires x < 0x8000_0000
    ensures ValueOf(Twice(x)) == 2 * ValueOf(x)
  {
    hide ValueOf, Half, LowBit, Twice;
    TwiceParts(x);
    Unfolded(Twice(x));
  }

  function Up4(x: bv32): bv32 { x << 4 }

  function Down4(x: bv32): bv32 { x >> 4 }

  function Down16(x: bv32): bv32 { x >> 16 }

  function Next(x: bv32): bv32 { x + 1 }

  lemma FourUpIsTwice(x: bv32)
    requires x < 0x1000_0000
    ensures Up4(x) == Twice(Twice(Twice(Twice(x))))
    ensures Twice(x) < 0x8000_0000 && Twice(Twice(x)) < 0x8000_0000 && Twice(Twice(Twice(x))) < 0x8000_0000
  {
  }

  lemma FourUp(x: bv32)
    requires x < 0x1000_0000
    ensures ValueOf(Up4(x)) == 16 * ValueOf(x)
  {
    FourUpIsTwice(x);
    hide ValueOf, Twice, Up4;
    TwiceIsDouble(x);
    TwiceIsDouble(Twice(x));
    TwiceIsDouble(Twice(Twice(x)));
    TwiceIsDouble(Twice(Twice(Twice(x))));
  }

  /** One more digit, as the source adds it to the digits before it. */
  function HexAppended(h: bv32, d: bv32): bv32 {
    (h << 4) + d
  }

  lemma AppendedParts(h: bv32, d: bv32)
    requires h < 0x1000_0000 && d < 16
    ensures HexAppended(h, d) == Join(Up4(h), d)
  {
  }

  lemma AppendedApart(h: bv32, d: bv32)
    requires d < 16
    ensures Keep(Up4(h), d) == 0
  {
  }

  lemma AppendedIs(h: bv32, d: bv32)
    requires h < 0x1000_0000 && d < 16
    ensures ValueOf(HexAppended(h, d)) == 16 * ValueOf(h) + ValueOf(d)
  {
    hide ValueOf, HexAppended, Join, Keep, Up4;
    AppendedParts(h, d);
    AppendedApart(h, d);
    FourUp(h);
    OrIsAddition(Up4(h), d);
  }

  lemma HexIsSmall(a: bv32, b: bv32, c: bv32)
    requires a < 16 && b < 16 && c < 16
    ensures HexAppended(0, a) == a && HexAppended(a, b) < 0x100 && HexAppended(HexAppended(a, b), c) < 0x1000
  {
  }

  /** Shifting by four and adding reads four hexadecimal digits as Hex4 does. */
  lemma FourHexDigits(s: CString, i: nat, a: bv32, b: bv32, c: bv32, d: bv32)
    requires IsHex4(s, i) && a < 16 && b < 16 && c < 16 && d < 16
    requires ValueOf(a) == HexValue(At(s, i)) && ValueOf(b) == HexValue(At(s, i + 1))
    requires ValueOf(c) == HexValue(At(s, i + 2)) && ValueOf(d) == HexValue(At(s, i + 3))
    ensures ValueOf(HexAppended(HexAppended(HexAppended(HexAppended(0, a), b), c), d)) == Hex4(s, i)
  {
    HexIsSmall(a, b, c);
    hide ValueOf, HexAppended, HexValue;
    AppendedIs(a, b);
    AppendedIs(HexAppended(a, b), c);
    AppendedIs(HexAppended(HexAppended(a, b), c), d);
  }

  lemma {:induction false} SuccessorIs(x: bv32)
    requires x != 0xFFFF_FFFF
    ensures ValueOf(Next(x)) == ValueOf(x) + 1
    decreases x
  {
    hide ValueOf, Next, Half, LowBit;
    LowBits(x, x);
    Unfolded(x);
    Unfolded(Next(x));
    if LowBit(x) == 0 {
      EvenSuccessor(x);
    } else {
      OddSuccessor(x);
      HalfIsLess(x);
      SuccessorIs(Half(x));
    }
  }

  lemma EvenSuccessor(x: bv32)
    requires LowBit(x) == 0
    ensures Half(Next(x)) == Half(x) && LowBit(Next(x)) == 1
  {
  }

  lemma OddSuccessor(x: bv32)
    requires LowBit(x) == 1 && x != 0xFFFF_FFFF
    ensures Half(Next(x)) == Next(Half(x)) && LowBit(Next(x)) == 0 && x != 0 && Half(x) != 0xFFFF_FFFF
  {
  }

  lemma FourDown(x: bv32)
    ensures Down4(x) == Half(Half(Half(Half(x))))
  {
  }

  lemma FourDownIsDivision(x: bv32)
    ensures ValueOf(Down4(x)) == ValueOf(x) / 16
  {
    hide ValueOf, Half, LowBit, Down4;
    FourDown(x);
    Unfolded(x);
    Unfolded(Half(x));
    Unfolded(Half(Half(x)));
    Unfolded(Half(Half(Half(x))));
  }

  lemma SixteenDown(x: bv32)
    ensures Down16(x) == Down4(Down4(Down4(Down4(x))))
  {
  }

  lemma SixteenDownIsDivision(x: bv32)
    ensures ValueOf(Down16(x)) == ValueOf(x) / 0x10000
  {
    hide ValueOf, Down4, Down16;
    SixteenDown(x);
    FourDownIsDivision(x);
    FourDownIsDivision(Down4(x));
    FourDownIsDivision(Down4(Down4(x)));
    FourDownIsDivision(Down4(Down4(Down4(x))));
  }

  lemma LargeMasks()
    ensures IsMask(0x3FF) && ValueOf(0x3FF) == 0x3FF && IsMask(0xFFFF) && ValueOf(0xFFFF) == 0xFFFF
  {
    hide ValueOf;
    MaskLiterals();
    MaskDoubled(0x7F, 0x3F);
    MaskDoubled(0xFF, 0x7F);
    MaskDoubled(0x1FF, 0xFF);
    MaskDoubled(0x3FF, 0x1FF);
    MaskDoubled(0x7FF, 0x3FF);
    MaskDoubled(0xFFF, 0x7FF);
    MaskDoubled(0x1FFF, 0xFFF);
    MaskDoubled(0x3FFF, 0x1FFF);
    MaskDoubled(0x7FFF, 0x3FFF);
    MaskDoubled(0xFFFF, 0x7FFF);
  }

  lemma MaskDoubled(m: bv32, half: bv32)
    requires half == Half(m) && LowBit(m) == 1 && IsMask(half)
    ensures IsMask(m) && ValueOf(m) == 2 * ValueOf(half) + 1
  {
    hide ValueOf;
    Unfolded(m);
  }

  function NextPlane(x: bv32): bv32 { 0x10000 + x }

  lemma PlaneParts(x: bv32)
    requires x < 0x10_0000
    ensures Down16(NextPlane(x)) == Next(Down16(x)) && Down16(x) != 0xFFFF_FFFF
    ensures Keep(NextPlane(x), 0xFFFF) == Keep(x, 0xFFFF)
  {
  }

  /** Adding 0x10000 to twenty bits. */
  lemma PlaneAdded(x: bv32)
    requires x < 0x10_0000
    ensures ValueOf(NextPlane(x)) == 0x10000 + ValueOf(x)
  {
    hide ValueOf, Keep, IsMask, NextPlane, Down16, Next;
    PlaneParts(x);
    LargeMasks();
    SixteenDownIsDivision(x);
    SixteenDownIsDivision(NextPlane(x));
    SuccessorIs(Down16(x));
    MaskIsRemainder(x, 0xFFFF);
    MaskIsRemainder(NextPlane(x), 0xFFFF);
  }

  function TenUp(x: bv32): bv32 { x << 10 }

  lemma TenUpIs(x: bv32)
    requires x < 0x400
    ensures TenUp(x) == Twice(Twice(Up4(Up4(x))))
    ensures x < 0x1000_0000 && Up4(x) < 0x1000_0000 && Up4(Up4(x)) < 0x8000_0000 && Twice(Up4(Up4(x))) < 0x8000_0000
  {
  }

  lemma TenUpIsProduct(x: bv32)
    requires x < 0x400
    ensures ValueOf(TenUp(x)) == 0x400 * ValueOf(x)
  {
    hide ValueOf, Twice, Up4, TenUp;
    TenUpIs(x);
    FourUp(x);
    FourUp(Up4(x));
    TwiceIsDouble(Up4(Up4(x)));
    TwiceIsDouble(Twice(Up4(Up4(x))));
  }

  /** A surrogate pair is combined as the source does it. */
  function Combined(uc: bv32, uc2: bv32): bv32 {
    0x10000 + (((uc & 0x3FF) << 10) | (uc2 & 0x3FF))
  }

  lemma CombinedParts(uc: bv32, uc2: bv32)
    ensures var hi, lo := Keep(uc, 0x3FF), Keep(uc2, 0x3FF);
      Combined(uc, uc2) == NextPlane(Join(TenUp(hi), lo)) && hi < 0x400 && lo < 0x400
  {
  }

  lemma TenUpApart(hi: bv32, lo: bv32)
    requires hi < 0x400 && lo < 0x400
    ensures Keep(TenUp(hi), lo) == 0 && Join(TenUp(hi), lo) < 0x10_0000
  {
  }

  /** The masks and the shift take the low ten bits of both surrogates. */
  lemma CombinedIs(uc: bv32, uc2: bv32)
    ensures ValueOf(Combined(uc, uc2)) == 0x10000 + ValueOf(uc) % 0x400 * 0x400 + ValueOf(uc2) % 0x400
  {
    hide ValueOf, Keep, Join, IsMask, TenUp, Combined, NextPlane;
    CombinedParts(uc, uc2);
    var hi, lo := Keep(uc, 0x3FF), Keep(uc2, 0x3FF);
    LargeMasks();
    MaskIsRemainder(uc, 0x3FF);
    MaskIsRemainder(uc2, 0x3FF);
    TenUpIsProduct(hi);
    TenUpApart(hi, lo);
    OrIsAddition(TenUp(hi), lo);
    PlaneAdded(Join(TenUp(hi), lo));
  }

  // ---- the size of a buffer ------------------------------------------------------------------------

  lemma LoneBit(p: bv32)
    requires p != 0 && p & (p - 1) == 0 && p != 1
    ensures LowBit(p) == 0 && Half(p) != 0 && Half(p) & (Half(p) - 1) == 0
  {
  }

  /** A word with one bit is a power of two. */
  lemma {:induction false} LoneBitIsPower(p: bv32)
    requires p != 0 && p & (p - 1) == 0
    ensures IsPower2(ValueOf(p))
    decreases p
  {
    if p == 1 {
      OneIsOne();
    } else {
      LoneBit(p);
      HalfIsLess(p);
      LoneBitIsPower(Half(p));
      EvenPower(p);
    }
  }

  lemma OneIsOne()
    ensures ValueOf(1) == 1 && IsPower2(ValueOf(1))
  {
    assert ValueOf(1) == 1;
  }

  lemma EvenPower(p: bv32)
    requires LowBit(p) == 0 && IsPower2(ValueOf(Half(p)))
    ensures IsPower2(ValueOf(p))
  {
    hide ValueOf, LowBit, Half;
    Unfolded(p);
  }

  /** Of two powers of two the greater one is at least the double. */
  lemma {:induction false} PowersApart(a: nat, b: nat)
    requires IsPower2(a) && IsPower2(b) && a < b
    ensures a <= b / 2
    decreases a
  {
    if a > 1 {
      PowersApart(a / 2, b / 2);
    }
  }

  lemma LeastPowerIsOne(n: nat, a: nat, b: nat)
    requires IsPower2(a) && n <= a && (a == 1 || a / 2 < n)
    requires IsPower2(b) && n <= b && (b == 1 || b / 2 < n)
    ensures a == b
  {
    hide IsPower2;
    if a < b {
      PowersApart(a, b);
      assert false;
    } else if b < a {
      PowersApart(b, a);
      assert false;
    }
  }

  lemma SmearedInWords(x: bv32)
    requires 1 <= x <= 0x4000_0000
    ensures var p := Smeared(x);
      p != 0 && p & (p - 1) == 0 && !IsBelow(p, x) && (p == 1 || IsBelow(Half(p), x))
  {
    SmearingIsPowerAbove(x);
  }

  /** The smeared word is the size looked for by doubling. */
  lemma SmearedIsPowerAbove(x: bv32)
    requires 1 <= x <= 0x4000_0000
    ensures ValueOf(Smeared(x)) == PowerAbove(ValueOf(x), 1)
  {
    hide ValueOf, Smeared, IsBelow, Half, PowerAbove, IsPower2;
    SmearedInWords(x);
    var p := Smeared(x);
    LoneBitIsPower(p);
    OrderIsTheSame(p, x);
    OrderIsTheSame(Half(p), x);
    Unfolded(p);
    OneIsOne();
    PowerIsLeast(ValueOf(x));
    LeastPowerIsOne(ValueOf(x), ValueOf(p), PowerAbove(ValueOf(x), 1));
  }

  lemma PowerIsLeast(n: nat)
    ensures var p := PowerAbove(n, 1);
      IsPower2(p) && n <= p && (p == 1 || p / 2 < n)
  {
    PowerAboveIsLeast(n, 1);
  }
}
