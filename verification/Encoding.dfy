/** Truncating token ids to a maximal length, framing them with special tokens, and padding. */
module Encoding {

  import opened Options

  datatype Truncation = OnlyFirst | OnlySecond | LongestFirst
  datatype Padding = DoNotPad | MaxLength | Longest

  /** The ids of the special tokens. */
  datatype Specials = Specials(cls: int, sep: int, pad: int)

  // ---- truncation ------------------------------------------------------------------------------

  /** Drops n ids, one after the other, each from the end of the longer sequence, and from the
      first one if they are equally long. There is nothing to drop if both are empty. */
  function Balanced(a: seq<int>, b: seq<int>, n: nat): (r: Option<(seq<int>, seq<int>)>)
    decreases n
  {
    if n == 0 then Some((a, b))
    else if |a| < |b| then Balanced(a, b[..|b| - 1], n - 1)
    else if a == [] then None
    else Balanced(a[..|a| - 1], b, n - 1)
  }

  /** What is left: prefixes of both, of the length asked for, as even as can be. */
  lemma {:induction false} BalancedIsFair(a: seq<int>, b: seq<int>, n: nat)
    ensures Balanced(a, b, n).Some? <==> n <= |a| + |b|
    ensures n <= |a| + |b| ==>
      var (p, q) := Balanced(a, b, n).value;
      && p <= a && q <= b && |p| + |q| == |a| + |b| - n
      && (p != a ==> |p| >= |q| - 1) && (q != b ==> |q| >= |p|)
  {
    if n == 0 {
    } else if |a| < |b| {
      BalancedIsFair(a, b[..|b| - 1], n - 1);
    } else if a != [] {
      BalancedIsFair(a[..|a| - 1], b, n - 1);
    }
  }

  /** The first |s| - n ids, if any would be left. */
  function Shortened(s: seq<int>, n: nat): seq<int> {
    if |s| > n then s[..|s| - n] else s
  }

  function Truncated(a: seq<int>, b: seq<int>, n: int, strategy: Truncation): Option<(seq<int>, seq<int>)> {
    if n <= 0 then Some((a, b))
    else if b == [] then Some((if strategy.OnlySecond? then a else Shortened(a, n), b))
    else match strategy
      case LongestFirst => Balanced(a, b, n)
      case OnlyFirst => Some((Shortened(a, n), b))
      case OnlySecond => Some((a, Shortened(b, n)))
  }

  /** Cuts the ids by n. Taking an id from an empty sequence is the one thing it must not come to. */
  method TruncateSequence(ids: seq<int>, pairIds: seq<int>, n: int, strategy: Truncation)
    returns (ids': seq<int>, pairIds': seq<int>, nothingToDo: bool)
    requires Truncated(ids, pairIds, n, strategy).Some?
    ensures Truncated(ids, pairIds, n, strategy) == Some((ids', pairIds'))
    ensures nothingToDo <==> n <= 0
  {
    ids', pairIds', nothingToDo := ids, pairIds, false;
    if n <= 0 {
      nothingToDo := true;
      return;
    }
    if pairIds == [] {
      if strategy.OnlyFirst? || strategy.LongestFirst? {
        if |ids| > n {
          ids' := ids[..|ids| - n];
        }
      }
    } else if strategy.LongestFirst? {
      for i := 0 to n
        invariant Balanced(ids', pairIds', n - i) == Balanced(ids, pairIds, n)
      {
        if |ids'| < |pairIds'| {
          pairIds' := pairIds'[..|pairIds'| - 1];
        } else {
          ids' := ids'[..|ids'| - 1];
        }
      }
    } else if strategy.OnlySecond? {
      if |pairIds| > n {
        pairIds' := pairIds[..|pairIds| - n];
      }
    } else if |ids| > n {
      ids' := ids[..|ids| - n];
    }
  }

  // ---- framing ---------------------------------------------------------------------------------

  function Repeated(v: int, n: int): (s: seq<int>)
    ensures |s| == if n < 0 then 0 else n
  {
    if n < 0 then [] else seq(n, _ => v)
  }

  /** The ids with the special tokens around them; an empty second sequence counts as none. */
  function Framed(sp: Specials, special: bool, a: seq<int>, b: seq<int>): (s: seq<int>)
    ensures |s| == |a| + |b| + Frame(special, b != [])
  {
    if !special then a + b
    else if b == [] then [sp.cls] + a + [sp.sep]
    else [sp.cls] + a + [sp.sep] + b + [sp.sep]
  }

  /** How many special tokens are added. */
  function Frame(special: bool, pair: bool): nat {
    if !special then 0 else if pair then 3 else 2
  }

  /** Which sequence an id belongs to. Without special tokens a single sequence is given none. */
  function Types(special: bool, a: seq<int>, b: seq<int>): seq<int> {
    if special then Repeated(0, |a| + 2) + (if b == [] then [] else Repeated(1, |b| + 1))
    else if b == [] then []
    else Repeated(0, |a| + |b|)
  }

  /** What is asked of an encoding. */
  datatype Wish = Wish(maxLength: int, special: bool, truncation: Truncation, padding: Padding, types: bool, mask: bool)

  /** How many ids are too many. */
  function Excess(w: Wish, a: seq<int>, b: seq<int>): int {
    |a| + |b| + Frame(w.special, b != []) - w.maxLength
  }

  /** How many padding ids are added to n ids. */
  function Missing(w: Wish, n: nat): int {
    if w.padding.MaxLength? then w.maxLength - n else 0
  }

  lemma NothingAdded(s: seq<int>, v: int)
    ensures forall n :: n <= 0 ==> s + Repeated(v, n) == s
  {
    assert s + [] == s;
  }

  class EncodeOutput {
    var inputIds: seq<int>
    var attentionMask: Option<seq<int>>
    var tokenTypeIds: Option<seq<int>>

    constructor (ids: seq<int>, types: Option<seq<int>>)
      ensures inputIds == ids && tokenTypeIds == types && attentionMask == None
    {
      inputIds, tokenTypeIds, attentionMask := ids, types, None;
    }

    /** Pads everything at the end. A list that is too long stays as it is. */
    method Pad(sp: Specials, w: Wish)
      requires w.padding.MaxLength? ==> w.maxLength >= 0
      modifies this
      ensures var n := Missing(w, |old(inputIds)|);
        && inputIds == old(inputIds) + Repeated(sp.pad, n)
        && attentionMask == (if w.mask then Some(Repeated(1, |old(inputIds)|) + Repeated(0, n)) else old(attentionMask))
        && tokenTypeIds ==
          (if old(tokenTypeIds).Some? then Some(old(tokenTypeIds).value + Repeated(0, n)) else None)
    {
      NothingAdded(inputIds, sp.pad);
      NothingAdded(if tokenTypeIds.Some? then tokenTypeIds.value else [], 0);
      NothingAdded(Repeated(1, |inputIds|), 0);
      var size, maxLength := |inputIds|, w.maxLength;
      if w.padding.Longest? {
        maxLength := size;
      }
      if !w.padding.DoNotPad? && size != maxLength {
        var diff := maxLength - size;
        inputIds := inputIds + Repeated(sp.pad, diff);
        if w.mask {
          attentionMask := Some(Repeated(1, size) + Repeated(0, diff));
        }
        if tokenTypeIds.Some? {
          tokenTypeIds := Some(tokenTypeIds.value + Repeated(0, diff));
        }
      } else if w.mask {
        attentionMask := Some(Repeated(1, size));
      }
    }
  }

  // ---- what an encoding is, id by id -------------------------------------------------------------

  /** a without its last n ids, if any is left then. */
  ghost predicate IsCut(a: seq<int>, p: seq<int>, n: nat) {
    p == if |a| > n then a[..|a| - n] else a
  }

  /** p and q are what is kept of a and b when n ids are too many. */
  ghost predicate IsKept(a: seq<int>, b: seq<int>, n: int, strategy: Truncation, p: seq<int>, q: seq<int>) {
    if n <= 0 then p == a && q == b
    else if b == [] then q == [] && (if strategy.OnlySecond? then p == a else IsCut(a, p, n))
    else match strategy
      case OnlyFirst => q == b && IsCut(a, p, n)
      case OnlySecond => p == a && IsCut(b, q, n)
      case LongestFirst =>
        && p <= a && q <= b && |p| + |q| == |a| + |b| - n
        && (p != a ==> |p| >= |q| - 1) && (q != b ==> |q| >= |p|)
  }

  lemma TruncatedIsKept(a: seq<int>, b: seq<int>, n: int, strategy: Truncation)
    requires Truncated(a, b, n, strategy).Some?
    ensures var (p, q) := Truncated(a, b, n, strategy).value;
      IsKept(a, b, n, strategy, p, q)
  {
    if n > 0 && b != [] && strategy.LongestFirst? {
      BalancedIsFair(a, b, n);
    }
  }

  /** From place i on, s holds t. */
  ghost predicate HoldsAt(s: seq<int>, i: nat, t: seq<int>) {
    i + |t| <= |s| && forall k :: 0 <= k < |t| ==> s[i + k] == t[k]
  }

  /** Between places i and j, s holds v. */
  ghost predicate IsAll(s: seq<int>, i: nat, j: nat, v: int) {
    i <= j <= |s| && forall k :: i <= k < j ==> s[k] == v
  }

  /** With special tokens: the class token, the first ids, a separator, and for a pair the second ids
      and a separator. Without: the ids of both. */
  ghost predicate IsFramed(sp: Specials, special: bool, p: seq<int>, q: seq<int>, s: seq<int>, size: nat) {
    && size <= |s|
    && if !special then size == |p| + |q| && HoldsAt(s, 0, p) && HoldsAt(s, |p|, q)
       else
         && size == (if q == [] then |p| + 2 else |p| + |q| + 3)
         && s[0] == sp.cls && HoldsAt(s, 1, p) && s[|p| + 1] == sp.sep
         && (q != [] ==> HoldsAt(s, |p| + 2, q) && s[|p| + |q| + 2] == sp.sep)
  }

  /** Type 0 up to the first separator and 1 behind it; without special tokens, 0 for a pair and nothing
      for a single text. */
  ghost predicate AreTypes(special: bool, p: seq<int>, q: seq<int>, t: seq<int>, size: nat) {
    && size <= |t|
    && if special then
         && size == (if q == [] then |p| + 2 else |p| + |q| + 3)
         && IsAll(t, 0, |p| + 2, 0) && IsAll(t, |p| + 2, size, 1)
       else size == (if q == [] then 0 else |p| + |q|) && IsAll(t, 0, size, 0)
  }

  /** An encoding: framed ids and their types, the mask telling them from the padding behind them, and
      padding up to the maximal length if that is asked for. */
  ghost predicate IsEncoding(
    sp: Specials, w: Wish, p: seq<int>, q: seq<int>, ids: seq<int>, mask: Option<seq<int>>, types: Option<seq<int>>,
    size: nat, typed: nat)
  {
    var added := if w.padding.MaxLength? && w.maxLength > size then w.maxLength - size else 0;
    && IsFramed(sp, w.special, p, q, ids, size) && |ids| == size + added && IsAll(ids, size, |ids|, sp.pad)
    && (mask.Some? <==> w.mask) && (types.Some? <==> w.types)
    && (mask.Some? ==> |mask.value| == |ids| && IsAll(mask.value, 0, size, 1) && IsAll(mask.value, size, |ids|, 0))
    && (types.Some? ==>
      && |types.value| == typed + added && AreTypes(w.special, p, q, types.value, typed)
      && IsAll(types.value, typed, |types.value|, 0))
  }

  lemma FramedByIndex(sp: Specials, special: bool, p: seq<int>, q: seq<int>, rest: seq<int>)
    ensures IsFramed(sp, special, p, q, Framed(sp, special, p, q) + rest, |Framed(sp, special, p, q)|)
  {
  }

  lemma TypesByIndex(special: bool, p: seq<int>, q: seq<int>, rest: seq<int>)
    ensures AreTypes(special, p, q, Types(special, p, q) + rest, |Types(special, p, q)|)
  {
  }

  lemma FilledByIndex(s: seq<int>, v: int, n: int)
    ensures |s + Repeated(v, n)| == |s| + (if n > 0 then n else 0)
    ensures IsAll(s + Repeated(v, n), |s|, |s + Repeated(v, n)|, v)
  {
  }

  lemma MaskByIndex(size: nat, n: int)
    ensures var m := Repeated(1, size) + Repeated(0, n);
      |m| == size + (if n > 0 then n else 0) && IsAll(m, 0, size, 1) && IsAll(m, size, |m|, 0)
  {
  }

  lemma EncodedByIndex(sp: Specials, w: Wish, p: seq<int>, q: seq<int>)
    ensures var f, t := Framed(sp, w.special, p, q), Types(w.special, p, q);
      var n := Missing(w, |f|);
      IsEncoding(sp, w, p, q, f + Repeated(sp.pad, n), if w.mask then Some(Repeated(1, |f|) + Repeated(0, n)) else None,
        if w.types then Some(t + Repeated(0, n)) else None, |f|, |t|)
  {
    hide Framed, Types, IsFramed, AreTypes, IsAll, Repeated;
    var f, t := Framed(sp, w.special, p, q), Types(w.special, p, q);
    var n := Missing(w, |f|);
    FramedByIndex(sp, w.special, p, q, Repeated(sp.pad, n));
    TypesByIndex(w.special, p, q, Repeated(0, n));
    FilledByIndex(f, sp.pad, n);
    FilledByIndex(t, 0, n);
    MaskByIndex(|f|, n);
  }

  /** Encodes the ids of a text, or of a pair of texts. */
  method Encode(sp: Specials, a: seq<int>, b: seq<int>, w: Wish) returns (out: EncodeOutput)
    requires Truncated(a, b, Excess(w, a, b), w.truncation).Some?
    requires w.padding.MaxLength? ==> w.maxLength >= 0
    ensures fresh(out)
    ensures var (p, q) := Truncated(a, b, Excess(w, a, b), w.truncation).value;
      var n := Missing(w, |Framed(sp, w.special, p, q)|);
      && out.inputIds == Framed(sp, w.special, p, q) + Repeated(sp.pad, n)
      && out.attentionMask == (if w.mask then Some(Repeated(1, |Framed(sp, w.special, p, q)|) + Repeated(0, n)) else None)
      && out.tokenTypeIds == (if w.types then Some(Types(w.special, p, q) + Repeated(0, n)) else None)
    ensures exists p, q, size: nat, typed: nat ::
      && IsKept(a, b, |a| + |b| + (if !w.special then 0 else if b == [] then 2 else 3) - w.maxLength, w.truncation, p, q)
      && IsEncoding(sp, w, p, q, out.inputIds, out.attentionMask, out.tokenTypeIds, size, typed)
    ensures w.truncation.LongestFirst? && w.special && w.padding.MaxLength? && w.maxLength >= 3 ==>
      && |out.inputIds| == w.maxLength
      && (w.mask ==> |out.attentionMask.value| == w.maxLength)
      && (w.types ==> |out.tokenTypeIds.value| == w.maxLength)
  {
    hide Framed, Types, Repeated, Truncated, IsKept, IsEncoding;
    if w.truncation.LongestFirst? && w.special && w.padding.MaxLength? && w.maxLength >= 3 {
      KeptFits(sp, a, b, w);
    }
    var total := |a| + |b|;
    if w.special {
      total := total + Frame(true, b != []);
    }
    var p, q, _ := TruncateSequence(a, b, total - w.maxLength, w.truncation);
    TruncatedIsKept(a, b, total - w.maxLength, w.truncation);
    var sequence, types := FrameSequences(sp, w.special, p, q);
    EncodedByIndex(sp, w, p, q);
    NothingAdded(sequence, sp.pad);
    NothingAdded(types, 0);
    out := new EncodeOutput(sequence, if w.types then Some(types) else None);
    if !w.padding.DoNotPad? || w.mask {
      out.Pad(sp, w);
    }
  }

  method FrameSequences(sp: Specials, special: bool, p: seq<int>, q: seq<int>) returns (sequence: seq<int>, types: seq<int>)
    ensures sequence == Framed(sp, special, p, q) && types == Types(special, p, q)
  {
    sequence, types := p, [];
    if special {
      sequence := Framed(sp, true, p, q);
      types := Types(true, p, q);
    } else if q != [] {
      sequence := sequence + q;
      types := Repeated(0, |p| + |q|);
    } else {
      assert p + [] == p;
    }
  }

  // ---- what an encoding promises -----------------------------------------------------------------

  /** The longest-first encoding of two texts is defined exactly if their special tokens fit. */
  lemma DefinedIffFrameFits(a: seq<int>, b: seq<int>, w: Wish)
    requires w.truncation.LongestFirst? && b != []
    ensures Truncated(a, b, Excess(w, a, b), w.truncation).Some? <==> w.maxLength >= Frame(w.special, true)
  {
    if Excess(w, a, b) > 0 {
      BalancedIsFair(a, b, Excess(w, a, b));
    }
  }

  /** With special tokens, longest-first truncation and room for three ids, the kept prefixes fit:
      nothing is cut without need, what is cut fills the room, and the cut is fair. */
  lemma KeptFits(sp: Specials, a: seq<int>, b: seq<int>, w: Wish)
    requires w.truncation.LongestFirst? && w.special && w.maxLength >= 3
    ensures Truncated(a, b, Excess(w, a, b), w.truncation).Some?
    ensures var (p, q) := Truncated(a, b, Excess(w, a, b), w.truncation).value;
      && p <= a && q <= b
      && (p != a ==> |p| >= |q| - 1) && (q != b ==> |q| >= |p|)
      && (if |Framed(sp, true, a, b)| <= w.maxLength then p == a && q == b
          else |p| + |q| + Frame(true, b != []) == w.maxLength)
      && (q == [] && b != [] ==> p == [] && w.maxLength == 3)
      && |Framed(sp, true, p, q)| + Missing(w.(padding := MaxLength), |Framed(sp, true, p, q)|) == w.maxLength
      && |Types(true, p, q)| == |Framed(sp, true, p, q)| <= w.maxLength
  {
    if Excess(w, a, b) > 0 && b != [] {
      BalancedIsFair(a, b, Excess(w, a, b));
    }
  }

  /** Padded to the maximal length, ids, mask and types of a single text have that length exactly
      if there is room for one id between the special tokens, or the text is short enough anyhow. */
  lemma FillsIff(sp: Specials, a: seq<int>, w: Wish)
    requires w.truncation.LongestFirst? && w.special && w.padding.MaxLength?
    ensures Truncated(a, [], Excess(w, a, []), w.truncation).Some?
    ensures var (p, q) := Truncated(a, [], Excess(w, a, []), w.truncation).value;
      var ids := Framed(sp, true, p, q) + Repeated(sp.pad, Missing(w, |Framed(sp, true, p, q)|));
      |ids| == w.maxLength <==> w.maxLength >= 3 || |a| + 2 <= w.maxLength
  {
  }

  /** Without special tokens the type ids are as many as the ids only for a pair, or for no ids at all. */
  lemma PlainTypesFallShort(sp: Specials, p: seq<int>, q: seq<int>, n: int)
    ensures |Types(false, p, q) + Repeated(0, n)| == |Framed(sp, false, p, q) + Repeated(sp.pad, n)| <==> q != [] || p == []
  {
  }
}
