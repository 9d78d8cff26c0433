/** The parser as it runs: loops that move through the text and collect items. */
module JsonReader {
  import opened JsonText
  import opened JsonParse
  import opened JsonStrings

  method SkipSpace(s: CString, i: nat) returns (j: nat)
    requires i <= |s|
    ensures j == Skip(s, i) && i <= j <= |s|
  {
    j := i;
    while j < |s| && s[j] <= 32
      invariant i <= j <= |s| && Skip(s, i) == Skip(s, j)
    {
      j := j + 1;
    }
  }

  /** Reads digits into n. */
  method ReadDigits(fp: Arithmetic, s: CString, i: nat, n0: real) returns (n: real, j: nat)
    requires i <= |s|
    ensures (n, j) == Digits(fp, s, i, n0) && i <= j <= |s|
  {
    n, j := n0, i;
    while j < |s| && IsDigit(s[j])
      invariant i <= j <= |s| && Digits(fp, s, i, n0) == Digits(fp, s, j, n)
    {
      n, j := WithDigit(fp, n, At(s, j) - 48), j + 1;
    }
  }

  method ReadIntDigits(s: CString, i: nat) returns (n: int, j: nat)
    requires i <= |s|
    ensures (n, j) == IntDigits(s, i, 0) && i <= j <= |s|
  {
    n, j := 0, i;
    while j < |s| && IsDigit(s[j])
      invariant i <= j <= |s| && IntDigits(s, i, 0) == IntDigits(s, j, n)
    {
      n, j := n * 10 + (At(s, j) - 48), j + 1;
    }
  }

  method ReadInteger(fp: Arithmetic, s: CString, i: nat) returns (n: real, j: nat)
    requires i <= |s|
    ensures (n, j) == IntegerPart(fp, s, i) && i <= j <= |s|
  {
    n, j := 0.0, i;
    if At(s, j) == ZERO {
      j := j + 1;
    }
    if 49 <= At(s, j) <= 57 {
      n, j := ReadDigits(fp, s, j, 0.0);
    }
  }

  method ReadFraction(fp: Arithmetic, s: CString, i: nat, n0: real) returns (n: real, scale: int, j: nat)
    requires i <= |s|
    ensures (n, scale, j) == Fraction(fp, s, i, n0) && i <= j <= |s|
  {
    n, scale, j := n0, 0, i;
    if At(s, i) == 46 && IsDigit(At(s, i + 1)) {
      n, j := ReadDigits(fp, s, i + 1, n0);
      scale := i + 1 - j;
    }
  }

  method ReadExponent(s: CString, i: nat) returns (e: int, j: nat)
    requires i <= |s|
    ensures (e, j) == Exponent(s, i) && i <= j <= |s|
  {
    e, j := 0, i;
    if At(s, i) == 101 || At(s, i) == 69 {
      var sign := 1;
      j := i + 1;
      if At(s, j) == 43 {
        j := j + 1;
      } else if At(s, j) == MINUS {
        sign, j := -1, j + 1;
      }
      e, j := ReadIntDigits(s, j);
      e := sign * e;
    }
  }

  method ReadNumber(fp: Arithmetic, s: CString, i: nat) returns (value: real, next: nat)
    requires i < |s|
    ensures ParseNumber(fp, s, i) == Ok(Number(value), next) && i <= next <= |s|
  {
    hide IntegerPart, Fraction, Exponent, Scaled, WithSign;
    var sign, j := 1, i;
    if At(s, j) == MINUS {
      sign, j := -1, j + 1;
    }
    var n, k := ReadInteger(fp, s, j);
    var m, scale, l := ReadFraction(fp, s, k, n);
    var e;
    e, next := ReadExponent(s, l);
    value := Scaled(fp, WithSign(sign, m), scale + e);
  }

  /** The characters in front of the first NUL of b. */
  method TextOf(b: array<int>, ghost w: CString) returns (t: CString)
    requires |w| < b.Length && b[..|w|] == w && b[|w|] == 0
    ensures t == w
  {
    t := [];
    while b[|t|] != 0
      invariant |t| <= |w| && t == w[..|t|]
      decreases |w| - |t|
    {
      assert b[|t|] == b[..|w|][|t|] == w[|t|];
      assert w[..|t| + 1] == w[..|t|] + [w[|t|]];
      t := t + [b[|t|]];
    }
  }

  /** Reads a string through the buffer it is unescaped into. What happens to an escape without a
      defined reading is not modelled: the outcome is Outside, and no buffer is filled. */
  method ReadText(s: CString, i: nat) returns (r: Parsed<CString>)
    requires i <= |s|
    ensures r == ParseString(s, i)
  {
    hide Characters;
    if ParseString(s, i) == Outside {
      return Outside;
    }
    var b, next, text := ReadString(s, i);
    if b == null {
      if At(s, i) == QUOTE {
        NeverBad(s, i + 1);
      }
      return Bad(i);
    }
    var t := TextOf(b, text);
    r := Ok(t, next);
  }

  // ---- chains of items ---------------------------------------------------------------------------

  /** The items of `done`, one after the other, then `rest`. */
  function Chain(done: seq<Json>, rest: Items): Items {
    if done == [] then rest else Item(done[0], Chain(done[1..], rest))
  }

  function ChainMembers(done: seq<(CString, Json)>, rest: Members): Members {
    if done == [] then rest else Member(done[0].0, done[0].1, ChainMembers(done[1..], rest))
  }

  lemma {:induction false} ChainExtended(done: seq<Json>, v: Json, rest: Items)
    ensures Chain(done + [v], rest) == Chain(done, Item(v, rest))
  {
    if done == [] {
      assert (done + [v])[1..] == [];
    } else {
      assert (done + [v])[1..] == done[1..] + [v];
      ChainExtended(done[1..], v, rest);
    }
  }

  lemma {:induction false} ChainMembersExtended(done: seq<(CString, Json)>, m: (CString, Json), rest: Members)
    ensures ChainMembers(done + [m], rest) == ChainMembers(done, Member(m.0, m.1, rest))
  {
    if done == [] {
      assert (done + [m])[1..] == [];
    } else {
      assert (done + [m])[1..] == done[1..] + [m];
      ChainMembersExtended(done[1..], m, rest);
    }
  }

  /** The outcome r of parsing more items, behind the ones already read. */
  function Behind(done: seq<Json>, r: Parsed<Items>): Parsed<Items> {
    match r
    case Ok(items, next) => Ok(Chain(done, items), next)
    case Bad(at) => Bad(at)
    case Outside => Outside
  }

  function BehindMembers(done: seq<(CString, Json)>, r: Parsed<Members>): Parsed<Members> {
    match r
    case Ok(members, next) => Ok(ChainMembers(done, members), next)
    case Bad(at) => Bad(at)
    case Outside => Outside
  }

  method ReadValue(fp: Arithmetic, s: CString, i: nat) returns (r: Parsed<Json>)
    requires i <= |s|
    ensures r == ParseValue(fp, s, i)
    decreases |s| - i, 2
  {
    hide ParseItems, ParseMembers, ParseString, ParseNumber, Has;
    if Has(s, i, NULL_WORD) {
      r := Ok(Null, i + 4);
    } else if Has(s, i, FALSE_WORD) {
      r := Ok(False, i + 5);
    } else if Has(s, i, TRUE_WORD) {
      r := Ok(True, i + 4);
    } else if At(s, i) == QUOTE {
      var text := ReadText(s, i);
      r := match text case Ok(t, j) => Ok(Str(t), j) case Bad(at) => Bad(at) case Outside => Outside;
    } else if At(s, i) == MINUS || IsDigit(At(s, i)) {
      var value, next := ReadNumber(fp, s, i);
      r := Ok(Number(value), next);
    } else if At(s, i) == OPEN_ARRAY {
      r := ReadArray(fp, s, i);
    } else if At(s, i) == OPEN_OBJECT {
      r := ReadObject(fp, s, i);
    } else {
      r := Bad(i);
    }
  }

  method ReadArray(fp: Arithmetic, s: CString, i: nat) returns (r: Parsed<Json>)
    requires i < |s| && s[i] == OPEN_ARRAY
    ensures r == (var j := Skip(s, i + 1);
      if At(s, j) == CLOSE_ARRAY then Ok(Array(NoItem), j + 1)
      else match ParseItems(fp, s, j)
           case Ok(items, k) => Ok(Array(items), k)
           case Bad(at) => Bad(at)
           case Outside => Outside)
    decreases |s| - i, 1
  {
    hide ParseValue, Skip;
    var start := SkipSpace(s, i + 1);
    if At(s, start) == CLOSE_ARRAY {
      return Ok(Array(NoItem), start + 1);
    }
    var done: seq<Json> := [];
    var p := start;
    NothingBehind(ParseItems(fp, s, start));
    while true
      invariant start <= p <= |s|
      invariant ParseItems(fp, s, start) == Behind(done, ParseItems(fp, s, p))
      decreases |s| - p
    {
      var q := SkipSpace(s, p);
      var v := ReadValue(fp, s, q);
      if !v.Ok? {
        return if v.Bad? then Bad(v.at) else Outside;
      }
      p := SkipSpace(s, v.next);
      forall rest {
        ChainExtended(done, v.value, rest);
      }
      if At(s, p) == COMMA {
        done := done + [v.value];
        p := p + 1;
      } else if At(s, p) == CLOSE_ARRAY {
        return Ok(Array(Chain(done + [v.value], NoItem)), p + 1);
      } else {
        return Bad(p);
      }
    }
  }

  lemma NothingBehind(r: Parsed<Items>)
    ensures Behind([], r) == r
  {
  }

  method ReadObject(fp: Arithmetic, s: CString, i: nat) returns (r: Parsed<Json>)
    requires i < |s| && s[i] == OPEN_OBJECT
    ensures r == (var j := Skip(s, i + 1);
      if At(s, j) == CLOSE_OBJECT then Ok(Object(NoMember), j + 1)
      else match ParseMembers(fp, s, j)
           case Ok(members, k) => Ok(Object(members), k)
           case Bad(at) => Bad(at)
           case Outside => Outside)
    decreases |s| - i, 1
  {
    hide ParseValue, Skip, ParseString;
    var start := SkipSpace(s, i + 1);
    if At(s, start) == CLOSE_OBJECT {
      return Ok(Object(NoMember), start + 1);
    }
    var done: seq<(CString, Json)> := [];
    var p := start;
    NoMembersBehind(ParseMembers(fp, s, start));
    while true
      invariant start <= p <= |s|
      invariant ParseMembers(fp, s, start) == BehindMembers(done, ParseMembers(fp, s, p))
      decreases |s| - p
    {
      var q := SkipSpace(s, p);
      var name := ReadText(s, q);
      if !name.Ok? {
        return if name.Bad? then Bad(name.at) else Outside;
      }
      var c := SkipSpace(s, name.next);
      if At(s, c) != COLON {
        return Bad(c);
      }
      var l := SkipSpace(s, c + 1);
      var v := ReadValue(fp, s, l);
      if !v.Ok? {
        return if v.Bad? then Bad(v.at) else Outside;
      }
      p := SkipSpace(s, v.next);
      forall rest {
        ChainMembersExtended(done, (name.value, v.value), rest);
      }
      if At(s, p) == COMMA {
        done := done + [(name.value, v.value)];
        p := p + 1;
      } else if At(s, p) == CLOSE_OBJECT {
        return Ok(Object(ChainMembers(done + [(name.value, v.value)], NoMember)), p + 1);
      } else {
        return Bad(p);
      }
    }
  }

  lemma NoMembersBehind(r: Parsed<Members>)
    ensures BehindMembers([], r) == r
  {
  }

  /** A whole text, which must end behind the value if asked to. */
  method Read(fp: Arithmetic, s: CString, whole: bool) returns (r: Parsed<Json>)
    ensures r == Parse(fp, s, whole)
  {
    hide ParseValue, Skip;
    var i := SkipSpace(s, 0);
    r := ReadValue(fp, s, i);
    if r.Ok? && whole {
      var j := SkipSpace(s, r.next);
      r := if At(s, j) != 0 then Bad(j) else Ok(r.value, j);
    }
  }
}
