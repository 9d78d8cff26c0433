/** Which numbers survive being printed and read in floating-point arithmetic. */
module JsonNumbers {
  import opened JsonText
  import opened JsonParse
  import opened JsonRoundTrip

  // ---- values that are read back -------------------------------------------------------------------

  /** Every number of the value is read back from its digits. */
  predicate AllReadBack(fp: Arithmetic, v: Json) {
    match v
    case Number(d) => ReadBack(fp, d.Floor) == d
    case Array(items) => ItemsReadBack(fp, items)
    case Object(members) => MembersReadBack(fp, members)
    case _ => true
  }

  predicate ItemsReadBack(fp: Arithmetic, items: Items) {
    items.Item? ==> AllReadBack(fp, items.value) && ItemsReadBack(fp, items.next)
  }

  predicate MembersReadBack(fp: Arithmetic, members: Members) {
    members.Member? ==> AllReadBack(fp, members.value) && MembersReadBack(fp, members.next)
  }

  lemma {:induction false} SameIffReadBack(fp: Arithmetic, v: Json)
    ensures AsRead(fp, v) == v <==> AllReadBack(fp, v)
    decreases v
  {
    match v
    case Array(items) => ItemsSameIff(fp, items);
    case Object(members) => MembersSameIff(fp, members);
    case _ =>
  }

  lemma {:induction false} ItemsSameIff(fp: Arithmetic, items: Items)
    ensures ItemsAsRead(fp, items) == items <==> ItemsReadBack(fp, items)
    decreases items
  {
    if items.Item? {
      SameIffReadBack(fp, items.value);
      ItemsSameIff(fp, items.next);
    }
  }

  lemma {:induction false} MembersSameIff(fp: Arithmetic, members: Members)
    ensures MembersAsRead(fp, members) == members <==> MembersReadBack(fp, members)
    decreases members
  {
    if members.Member? {
      SameIffReadBack(fp, members.value);
      MembersSameIff(fp, members.next);
    }
  }

  /** A printed value is parsed back exactly if each of its numbers is. */
  lemma RoundTripIff(fp: Arithmetic, v: Json, fmt: bool, whole: bool)
    requires IntegersOnly(v)
    ensures Parse(fp, Print(v, 0, fmt), whole) == Ok(v, |Print(v, 0, fmt)|) <==> AllReadBack(fp, v)
  {
    hide AsRead, AllReadBack, Parse, Print;
    PrintedParses(fp, v, fmt, whole);
    SameIffReadBack(fp, v);
  }

  // ---- numbers that are read back ------------------------------------------------------------------

  predicate IsExact(fp: Arithmetic, n: int) {
    fp.round(n as real) == n as real
  }

  /** Every value met while the digits of n are read is a number of the arithmetic. */
  predicate PrefixesAreExact(fp: Arithmetic, n: nat) {
    n == 0 || (PrefixesAreExact(fp, n / 10) && IsExact(fp, n / 10 * 10) && IsExact(fp, n))
  }

  predicate IsReadable(fp: Arithmetic, n: int) {
    fp.power(0) == 1.0 && IsExact(fp, n) && PrefixesAreExact(fp, if n < 0 then -n else n)
  }

  lemma {:induction false} PrefixesAddUp(fp: Arithmetic, n: nat)
    requires PrefixesAreExact(fp, n)
    ensures Accumulated(fp, n) == n as real
  {
    if n > 0 {
      PrefixesAddUp(fp, n / 10);
      var p := n / 10 * 10;
      assert (n / 10) as real * 10.0 == p as real;
      assert p as real + (n % 10) as real == n as real;
    }
  }

  /** No rounding on the way: such a number is read back. */
  lemma ReadableIsReadBack(fp: Arithmetic, n: int)
    requires IsReadable(fp, n)
    ensures ReadBack(fp, n) == n as real
  {
    PrefixesAddUp(fp, if n < 0 then -n else n);
  }

  // ---- up to 2^53 ----------------------------------------------------------------------------------

  const SAFE_LIMIT: int := 0x20_0000_0000_0000

  predicate IsSafe(n: int) {
    -SAFE_LIMIT <= n <= SAFE_LIMIT
  }

  /** Whole numbers up to 2^53 need no rounding, as those of 53 bits do. */
  ghost predicate KeepsSafe(fp: Arithmetic) {
    fp.power(0) == 1.0 && forall n :: IsSafe(n) ==> IsExact(fp, n)
  }

  /** All numbers in the value are whole and at most 2^53. */
  predicate SafeOnly(v: Json) {
    match v
    case Number(d) => d == d.Floor as real && IsSafe(d.Floor)
    case Array(items) => SafeItems(items)
    case Object(members) => SafeMembers(members)
    case _ => true
  }

  predicate SafeItems(items: Items) {
    items.Item? ==> SafeOnly(items.value) && SafeItems(items.next)
  }

  predicate SafeMembers(members: Members) {
    members.Member? ==> SafeOnly(members.value) && SafeMembers(members.next)
  }

  /** Of a number up to 2^53 all prefixes, and their tenfolds, stay below it. */
  lemma {:induction false} SafePrefixesAreExact(fp: Arithmetic, n: nat)
    requires KeepsSafe(fp) && n <= SAFE_LIMIT
    ensures PrefixesAreExact(fp, n)
  {
    if n > 0 {
      SafePrefixesAreExact(fp, n / 10);
      assert IsSafe(n / 10 * 10) && IsSafe(n);
    }
  }

  lemma SafeIsReadBack(fp: Arithmetic, n: int)
    requires KeepsSafe(fp) && IsSafe(n)
    ensures ReadBack(fp, n) == n as real
  {
    SafePrefixesAreExact(fp, if n < 0 then -n else n);
    ReadableIsReadBack(fp, n);
  }

  lemma {:induction false} SafeValues(fp: Arithmetic, v: Json)
    requires KeepsSafe(fp) && SafeOnly(v)
    ensures AllReadBack(fp, v) && IntegersOnly(v)
    decreases v
  {
    hide ReadBack, KeepsSafe;
    match v
    case Number(d) => SafeIsReadBack(fp, d.Floor);
    case Array(items) => SafeItemValues(fp, items);
    case Object(members) => SafeMemberValues(fp, members);
    case _ =>
  }

  lemma {:induction false} SafeItemValues(fp: Arithmetic, items: Items)
    requires KeepsSafe(fp) && SafeItems(items)
    ensures ItemsReadBack(fp, items) && IntegerItems(items)
    decreases items
  {
    if items.Item? {
      SafeValues(fp, items.value);
      SafeItemValues(fp, items.next);
    }
  }

  lemma {:induction false} SafeMemberValues(fp: Arithmetic, members: Members)
    requires KeepsSafe(fp) && SafeMembers(members)
    ensures MembersReadBack(fp, members) && IntegerMembers(members)
    decreases members
  {
    if members.Member? {
      SafeValues(fp, members.value);
      SafeMemberValues(fp, members.next);
    }
  }

  /** Printing and parsing gives a value back if its numbers are whole and at most 2^53. */
  lemma SafeRoundTrip(fp: Arithmetic, v: Json, fmt: bool, whole: bool)
    requires KeepsSafe(fp) && SafeOnly(v)
    ensures IntegersOnly(v) && Parse(fp, Print(v, 0, fmt), whole) == Ok(v, |Print(v, 0, fmt)|)
  {
    hide AllReadBack, Parse, Print;
    SafeValues(fp, v);
    RoundTripIff(fp, v, fmt, whole);
  }

  // ---- without rounding ----------------------------------------------------------------------------

  lemma {:induction false} ExactlyAddsUp(n: nat)
    ensures PrefixesAreExact(Exactly(), n)
  {
    if n > 0 {
      ExactlyAddsUp(n / 10);
    }
  }

  lemma {:induction false} ExactValues(v: Json)
    requires IntegersOnly(v)
    ensures AllReadBack(Exactly(), v)
    decreases v
  {
    match v
    case Number(d) =>
      assert Power10(0) == 1.0;
      ExactlyAddsUp(if d.Floor < 0 then -d.Floor else d.Floor);
      ReadableIsReadBack(Exactly(), d.Floor);
    case Array(items) => ExactItems(items);
    case Object(members) => ExactMembers(members);
    case _ =>
  }

  lemma {:induction false} ExactItems(items: Items)
    requires IntegerItems(items)
    ensures ItemsReadBack(Exactly(), items)
    decreases items
  {
    if items.Item? {
      ExactValues(items.value);
      ExactItems(items.next);
    }
  }

  lemma {:induction false} ExactMembers(members: Members)
    requires IntegerMembers(members)
    ensures MembersReadBack(Exactly(), members)
    decreases members
  {
    if members.Member? {
      ExactValues(members.value);
      ExactMembers(members.next);
    }
  }

  /** Different values never print alike, even where reading rounds: without rounding the text
      determines the value. */
  lemma PrintIsInjective(v: Json, w: Json, fmt: bool)
    requires IntegersOnly(v) && IntegersOnly(w) && Print(v, 0, fmt) == Print(w, 0, fmt)
    ensures v == w
  {
    hide AllReadBack, Parse, Print;
    ExactValues(v);
    ExactValues(w);
    RoundTripIff(Exactly(), v, fmt, true);
    RoundTripIff(Exactly(), w, fmt, true);
  }

  // ---- beyond 2^53 ---------------------------------------------------------------------------------

  /** The distance of neighbouring 53-bit numbers of the size of n, a power of two from `unit` on. */
  function UnitOf(n: nat, unit: nat): (u: nat)
    requires unit >= 1
    ensures u >= unit && n <= SAFE_LIMIT * u
    decreases if n > SAFE_LIMIT * unit then n - SAFE_LIMIT * unit else 0
  {
    if n <= SAFE_LIMIT * unit then unit else UnitOf(n, 2 * unit)
  }

  /** The multiple of u nearest to n, the even one of two. */
  function Nearest(n: nat, u: nat): nat
    requires u >= 1
  {
    var q, r := n / u, n % u;
    if 2 * r < u || (2 * r == u && q % 2 == 0) then u * q else u * (q + 1)
  }

  /** Rounding of whole numbers to 53 bits, to nearest, ties to even. */
  function ToDouble(n: int): int {
    var m: nat := if n < 0 then -n else n;
    var r: int := Nearest(m, UnitOf(m, 1));
    if n < 0 then -r else r
  }

  /** On whole numbers the arithmetic rounds as that of IEEE 754 binary64 does below its overflow. */
  ghost predicate RoundsToDouble(fp: Arithmetic) {
    fp.power(0) == 1.0 && forall n: int :: fp.round(n as real) == ToDouble(n) as real
  }

  lemma DoublesKeepSafe(fp: Arithmetic)
    requires RoundsToDouble(fp)
    ensures KeepsSafe(fp)
  {
    forall n | IsSafe(n) ensures IsExact(fp, n) {
      assert ToDouble(n) == n;
    }
  }

  /** 2^58, which has one bit only. */
  const LARGE_POWER: nat := 288_230_376_151_711_744

  lemma Halfway()
    ensures ToDouble(28_823_037_615_171_170) == 28_823_037_615_171_168
    ensures ToDouble(28_823_037_615_171_172) == 28_823_037_615_171_172
  {
    assert UnitOf(28_823_037_615_171_170, 1) == UnitOf(28_823_037_615_171_170, 2) == UnitOf(28_823_037_615_171_170, 4) == 4;
    assert UnitOf(28_823_037_615_171_172, 1) == UnitOf(28_823_037_615_171_172, 2) == UnitOf(28_823_037_615_171_172, 4) == 4;
  }

  lemma LargeUnit(n: nat)
    requires 144_115_188_075_855_872 < n <= LARGE_POWER
    ensures UnitOf(n, 1) == 32
  {
    assert UnitOf(n, 1) == UnitOf(n, 2) == UnitOf(n, 4);
    assert UnitOf(n, 4) == UnitOf(n, 8) == UnitOf(n, 16) == UnitOf(n, 32) == 32;
  }

  lemma BelowLarge()
    ensures ToDouble(288_230_376_151_711_720) == 288_230_376_151_711_712
    ensures ToDouble(288_230_376_151_711_716) == 288_230_376_151_711_712
    ensures ToDouble(288_230_376_151_711_712) == 288_230_376_151_711_712
    ensures ToDouble(LARGE_POWER) == LARGE_POWER
  {
    hide UnitOf;
    LargeUnit(288_230_376_151_711_720);
    LargeUnit(288_230_376_151_711_716);
    LargeUnit(288_230_376_151_711_712);
    LargeUnit(LARGE_POWER);
  }

  /** Beyond 2^53 a number can be read back as another one, even if it is a number of the arithmetic:
      of the digits of 2^58 the last two are rounded away. */
  lemma LargeIsNotReadBack(fp: Arithmetic)
    requires RoundsToDouble(fp)
    ensures IsExact(fp, LARGE_POWER)
    ensures ReadBack(fp, LARGE_POWER) == 288_230_376_151_711_712.0
    ensures var v := Number(LARGE_POWER as real);
      IntegersOnly(v) && Parse(fp, Print(v, 0, false), true) != Ok(v, |Print(v, 0, false)|)
  {
    hide ToDouble, Parse, Print;
    var a: nat := 2_882_303_761_517_117;
    DoublesKeepSafe(fp);
    SafePrefixesAreExact(fp, a);
    PrefixesAddUp(fp, a);
    Halfway();
    BelowLarge();
    var b: nat, c := 28_823_037_615_171_174, LARGE_POWER;
    assert b / 10 == a && b % 10 == 4 && c / 10 == b && c % 10 == 4;
    Rounded(fp, a as real, 4, 28_823_037_615_171_170, 28_823_037_615_171_168, 28_823_037_615_171_172);
    assert Accumulated(fp, b) == WithDigit(fp, Accumulated(fp, a), 4) == 28_823_037_615_171_172.0;
    Rounded(fp, 28_823_037_615_171_172.0, 4, 288_230_376_151_711_720, 288_230_376_151_711_712, 288_230_376_151_711_716);
    assert Accumulated(fp, c) == WithDigit(fp, Accumulated(fp, b), 4) == 288_230_376_151_711_712.0;
    assert fp.round(288_230_376_151_711_712 as real) == 288_230_376_151_711_712 as real;
    RoundTripIff(fp, Number(LARGE_POWER as real), false, true);
  }

  lemma Rounded(fp: Arithmetic, n: real, d: int, ten: int, rounded: int, sum: int)
    requires RoundsToDouble(fp) && n * 10.0 == ten as real && rounded + d == sum && ToDouble(ten) == rounded
    ensures WithDigit(fp, n, d) == ToDouble(sum) as real
  {
    hide ToDouble;
    assert fp.round(ten as real) == rounded as real;
    assert rounded as real + d as real == sum as real;
  }
}
