/** What minifying keeps: a text is cut into space, comments, strings and other characters. */
module JsonPieces {
  import opened Options
  import opened JsonText
  import opened JsonParse
  import opened JsonRoundTrip
  import opened JsonMinify

  datatype Piece =
    | SpaceChar(c: Char)
    | LineComment(body: CString)
    | BlockComment(body: CString)
    | ClosedAtOnce
    | Literal(body: CString)
    | Other(c: Char)

  function PieceText(p: Piece): CString {
    match p
    case SpaceChar(c) => [c]
    case LineComment(body) => [47, 47] + body
    case BlockComment(body) => [47, 42] + body + [42, 47]
    case ClosedAtOnce => [47, 42, 47]
    case Literal(body) => [34] + body + [34]
    case Other(c) => [c]
  }

  /** Between the quotes of a string: a backslash takes the next character with it. */
  predicate IsInside(body: CString) {
    if body == [] then true
    else if body[0] == 92 then |body| >= 2 && IsInside(body[2..])
    else body[0] != 34 && IsInside(body[1..])
  }

  /** A line comment has no line break in it. A block comment has no closing mark in it; a slash right
      behind its opening star closes it at once. */
  predicate IsPiece(p: Piece) {
    match p
    case SpaceChar(c) => c == 32 || c == 9 || c == 10 || c == 13
    case LineComment(body) => 10 !in body
    case BlockComment(body) =>
      (body != [] ==> body[0] != 47) && forall k :: 0 <= k < |body| - 1 ==> !(body[k] == 42 && body[k + 1] == 47)
    case ClosedAtOnce => true
    case Literal(body) => IsInside(body)
    case Other(c) => c != 32 && c != 9 && c != 10 && c != 13 && c != 34
  }

  /** What may follow a piece, 0 being the end of the text: a line comment lasts to the end of its line,
      and a slash does not begin a comment. */
  predicate MayEnd(p: Piece, next: int) {
    match p
    case LineComment(_) => next == 10 || next == 0
    case Other(c) => c == 47 ==> next != 47 && next != 42
    case _ => true
  }

  function TextOf(ps: seq<Piece>): CString {
    if ps == [] then [] else PieceText(ps[0]) + TextOf(ps[1..])
  }

  predicate AreCut(ps: seq<Piece>) {
    ps != [] ==> IsPiece(ps[0]) && MayEnd(ps[0], At(TextOf(ps[1..]), 0)) && AreCut(ps[1..])
  }

  predicate IsKept(p: Piece) {
    p.Literal? || p.Other?
  }

  /** Strings and other characters, in their order. */
  function Kept(ps: seq<Piece>): CString {
    if ps == [] then [] else (if IsKept(ps[0]) then PieceText(ps[0]) else []) + Kept(ps[1..])
  }

  // ---- where comments and strings end --------------------------------------------------------------

  lemma {:induction false} LineEnds(s: CString, i: nat, body: CString)
    requires Has(s, i, body) && 10 !in body && (At(s, i + |body|) == 10 || At(s, i + |body|) == 0)
    ensures i <= |s| && LineCommentEnd(s, i) == i + |body|
    decreases |body|
  {
    if body != [] {
      assert body == [body[0]] + body[1..];
      HasParts(s, i, [body[0]], body[1..]);
      HasAt(s, i, body[0]);
      LineEnds(s, i + 1, body[1..]);
    }
  }

  lemma {:induction false} BlockEnds(s: CString, i: nat, w: CString)
    requires Has(s, i, w + [42, 47]) && forall k :: 0 <= k < |w| ==> !(w[k] == 42 && (w + [42, 47])[k + 1] == 47)
    ensures i <= |s| && BlockCommentEnd(s, i) == Some(i + |w| + 2)
    decreases |w|
  {
    var v := w + [42, 47];
    assert s[i..i + |v|] == v;
    assert s[i] == v[0] && At(s, i + 1) == v[1];
    if w != [] {
      var rest := w[1..] + [42, 47];
      assert v == [w[0]] + rest;
      HasParts(s, i, [w[0]], rest);
      BlockEnds(s, i + 1, w[1..]);
    }
  }

  lemma {:induction false} InsideEnds(s: CString, i: nat, body: CString)
    requires Has(s, i, body + [34]) && IsInside(body)
    ensures ClosingQuote(s, i) == Some(i + |body|)
    decreases |body|
  {
    if body == [] {
      HasAt(s, i, 34);
    } else {
      var n := if body[0] == 92 then 2 else 1;
      assert s[i..i + |body| + 1] == body + [34];
      assert s[i] == body[0];
      assert body + [34] == body[..n] + (body[n..] + [34]);
      HasParts(s, i, body[..n], body[n..] + [34]);
      InsideEnds(s, i + n, body[n..]);
    }
  }

  // ---- one piece -----------------------------------------------------------------------------------

  lemma AtEnd(s: CString, i: nat)
    ensures At(s, i) == 0 <==> i >= |s|
  {
  }

  lemma CommentGoes(s: CString, i: nat, body: CString)
    requires Has(s, i, [47, 47] + body) && IsPiece(LineComment(body)) && MayEnd(LineComment(body), At(s, i + 2 + |body|))
    ensures i + 2 + |body| <= |s| && Minified(s, i) == Minified(s, i + 2 + |body|)
  {
    hide Minified, LineCommentEnd;
    var w := [47] + body;
    assert [47, 47] + body == [47] + w;
    HasParts(s, i, [47], w);
    HasAt(s, i, 47);
    HasParts(s, i + 1, [47], body);
    HasAt(s, i + 1, 47);
    LineEnds(s, i + 1, w);
    AtLine(s, i);
  }

  lemma AtLine(s: CString, i: nat)
    requires i < |s| && s[i] == 47 && At(s, i + 1) == 47
    ensures Minified(s, i) == Minified(s, LineCommentEnd(s, i + 1))
  {
  }

  lemma BlockGoes(s: CString, i: nat, body: CString)
    requires Has(s, i, [47, 42] + body + [42, 47]) && IsPiece(BlockComment(body))
    ensures i + 4 + |body| <= |s| && Minified(s, i) == Minified(s, i + 4 + |body|)
  {
    hide Minified, BlockCommentEnd;
    var w := [47, 42] + body;
    assert forall k :: 2 <= k < |w| ==> w[k] == body[k - 2];
    BlockEnds(s, i, w);
    assert s[i..i + |w| + 2] == w + [42, 47];
    assert s[i] == 47 && At(s, i + 1) == 42;
    AtBlock(s, i);
  }

  lemma StubGoes(s: CString, i: nat)
    requires Has(s, i, [47, 42, 47])
    ensures i + 3 <= |s| && Minified(s, i) == Minified(s, i + 3)
  {
    hide Minified;
    assert s[i..i + 3] == [47, 42, 47];
    assert s[i] == 47 && At(s, i + 1) == 42 && At(s, i + 2) == 47;
    assert BlockCommentEnd(s, i) == BlockCommentEnd(s, i + 1);
    AtBlock(s, i);
  }

  lemma AtBlock(s: CString, i: nat)
    requires i < |s| && s[i] == 47 && At(s, i + 1) == 42 && BlockCommentEnd(s, i).Some?
    ensures Minified(s, i) == Minified(s, BlockCommentEnd(s, i).value)
  {
  }

  lemma LiteralStays(s: CString, i: nat, body: CString)
    requires Has(s, i, [34] + body + [34]) && IsInside(body)
    ensures i + 2 + |body| <= |s| && Minified(s, i) == Then([34] + body + [34], Minified(s, i + 2 + |body|))
  {
    hide Minified, ClosingQuote;
    assert [34] + body + [34] == [34] + (body + [34]);
    HasParts(s, i, [34], body + [34]);
    HasAt(s, i, 34);
    InsideEnds(s, i + 1, body);
    AtQuote(s, i);
    assert s[i..i + |body| + 2] == [34] + body + [34];
  }

  lemma AtQuote(s: CString, i: nat)
    requires i < |s| && s[i] == 34 && ClosingQuote(s, i + 1).Some?
    ensures var j := ClosingQuote(s, i + 1).value;
      Minified(s, i) == Then(s[i..j + 1], Minified(s, j + 1))
  {
  }

  lemma PieceIsTaken(s: CString, i: nat, p: Piece)
    requires Has(s, i, PieceText(p)) && IsPiece(p) && MayEnd(p, At(s, i + |PieceText(p)|))
    ensures i + |PieceText(p)| <= |s|
    ensures Minified(s, i) == Then(if IsKept(p) then PieceText(p) else [], Minified(s, i + |PieceText(p)|))
  {
    ThenNothing(Minified(s, i + |PieceText(p)|));
    match p
    case SpaceChar(c) => HasAt(s, i, c);
    case LineComment(body) => CommentGoes(s, i, body);
    case BlockComment(body) => BlockGoes(s, i, body);
    case ClosedAtOnce => StubGoes(s, i);
    case Literal(body) => LiteralStays(s, i, body);
    case Other(c) => HasAt(s, i, c);
  }

  // ---- the whole text ------------------------------------------------------------------------------

  lemma HasFirst(s: CString, i: nat, w: CString)
    requires Has(s, i, w) && i + |w| == |s|
    ensures At(s, i) == At(w, 0)
  {
    assert s[i..|s|] == w;
  }

  lemma {:induction false} PiecesAreTaken(s: CString, i: nat, ps: seq<Piece>)
    requires AreCut(ps) && Has(s, i, TextOf(ps)) && i + |TextOf(ps)| == |s|
    ensures Minified(s, i) == Some(Kept(ps))
    decreases |ps|
  {
    hide PieceText, IsPiece, MayEnd, Has, IsKept;
    if ps == [] {
      AtTheEnd(s);
    } else {
      hide Minified;
      var p := ps[0];
      HasParts(s, i, PieceText(p), TextOf(ps[1..]));
      HasFirst(s, i + |PieceText(p)|, TextOf(ps[1..]));
      PieceIsTaken(s, i, p);
      PiecesAreTaken(s, i + |PieceText(p)|, ps[1..]);
    }
  }

  lemma AtTheEnd(s: CString)
    ensures Minified(s, |s|) == Some([])
  {
  }

  /** However a text is cut into pieces, minifying keeps the strings and the other characters and drops
      space and comments. */
  lemma MinifyingKeeps(ps: seq<Piece>)
    requires AreCut(ps)
    ensures Minified(TextOf(ps), 0) == Some(Kept(ps))
  {
    var s := TextOf(ps);
    assert s[0..0 + |s|] == s;
    PiecesAreTaken(s, 0, ps);
  }

  // ---- every text with a result can be cut ---------------------------------------------------------

  lemma {:induction false} LineIsComment(s: CString, i: nat)
    requires i <= |s|
    ensures var j := LineCommentEnd(s, i);
      10 !in s[i..j] && (j == |s| || s[j] == 10)
    decreases |s| - i
  {
    var j := LineCommentEnd(s, i);
    if i < j {
      LineIsComment(s, i + 1);
      assert s[i..j] == [s[i]] + s[i + 1..j];
    }
  }

  lemma {:induction false} BlockIsComment(s: CString, i: nat)
    requires i <= |s| && BlockCommentEnd(s, i).Some?
    ensures var j := BlockCommentEnd(s, i).value;
      i + 2 <= j && s[j - 2] == 42 && s[j - 1] == 47 && forall k :: i <= k < j - 2 ==> !(s[k] == 42 && s[k + 1] == 47)
    decreases |s| - i
  {
    if !(s[i] == 42 && At(s, i + 1) == 47) {
      BlockIsComment(s, i + 1);
    }
  }

  lemma {:induction false} QuoteIsInside(s: CString, i: nat)
    requires ClosingQuote(s, i).Some?
    ensures IsInside(s[i..ClosingQuote(s, i).value])
    decreases |s| + 1 - i
  {
    var j := ClosingQuote(s, i).value;
    if s[i] == BACKSLASH {
      QuoteIsInside(s, i + 2);
      assert s[i..j][2..] == s[i + 2..j];
    } else if s[i] != QUOTE {
      QuoteIsInside(s, i + 1);
      assert s[i..j][1..] == s[i + 1..j];
    }
  }

  /** The piece that begins at place i. */
  lemma FirstPiece(s: CString, i: nat) returns (p: Piece, j: nat)
    requires i < |s| && Minified(s, i).Some?
    ensures i < j <= |s| && Minified(s, j).Some?
    ensures IsPiece(p) && PieceText(p) == s[i..j] && MayEnd(p, At(s, j))
  {
    if JsonMinify.IsSpace(s[i]) {
      p, j := SpaceChar(s[i]), i + 1;
    } else if s[i] == 47 && At(s, i + 1) == 47 {
      AtLine(s, i);
      p, j := LineAt(s, i);
    } else if s[i] == 47 && At(s, i + 1) == 42 {
      AtBlock(s, i);
      p, j := BlockAt(s, i);
    } else if s[i] == QUOTE {
      AtQuote(s, i);
      j := ClosingQuote(s, i + 1).value + 1;
      QuoteIsInside(s, i + 1);
      p := Literal(s[i + 1..j - 1]);
      assert s[i..j] == [34] + s[i + 1..j - 1] + [34];
    } else {
      p, j := Other(s[i]), i + 1;
    }
  }

  lemma LineAt(s: CString, i: nat) returns (p: Piece, j: nat)
    requires i < |s| && s[i] == 47 && At(s, i + 1) == 47
    ensures i < j == LineCommentEnd(s, i + 1) <= |s|
    ensures IsPiece(p) && PieceText(p) == s[i..j] && MayEnd(p, At(s, j))
  {
    j := LineCommentEnd(s, i + 1);
    LineIsComment(s, i + 1);
    assert j > i + 1;
    p := LineComment(s[i + 2..j]);
    assert s[i..j] == [47, 47] + s[i + 2..j];
    assert forall k :: 0 <= k < |p.body| ==> p.body[k] == s[i + 1..j][k + 1];
  }

  lemma BlockAt(s: CString, i: nat) returns (p: Piece, j: nat)
    requires i < |s| && s[i] == 47 && At(s, i + 1) == 42 && BlockCommentEnd(s, i).Some?
    ensures i < j == BlockCommentEnd(s, i).value <= |s|
    ensures IsPiece(p) && PieceText(p) == s[i..j] && MayEnd(p, At(s, j))
  {
    hide BlockCommentEnd;
    j := BlockCommentEnd(s, i).value;
    BlockIsComment(s, i);
    if j == i + 3 {
      p := ClosedAtOnce;
      assert s[i..j] == [47, 42, 47];
    } else {
      p := BlockComment(s[i + 2..j - 2]);
      assert s[i..j] == [47, 42] + s[i + 2..j - 2] + [42, 47];
      assert forall k :: 0 <= k < |p.body| ==> p.body[k] == s[i + 2 + k];
    }
  }

  lemma {:induction false} CutExists(s: CString, i: nat) returns (ps: seq<Piece>)
    requires i <= |s| && Minified(s, i).Some?
    ensures AreCut(ps) && TextOf(ps) == s[i..]
    decreases |s| - i
  {
    hide PieceText, IsPiece, MayEnd, Minified;
    if i == |s| {
      ps := [];
    } else {
      var p, j := FirstPiece(s, i);
      var rest := CutExists(s, j);
      ps := [p] + rest;
      assert ps[1..] == rest;
      assert At(s[j..], 0) == At(s, j);
      assert s[i..] == s[i..j] + s[j..];
    }
  }

  /** A text has a result exactly if it can be cut into pieces, that is, if it leaves no string and no
      block comment open. */
  lemma MinifiesIffCut(s: CString)
    ensures Minified(s, 0).Some? <==> exists ps :: AreCut(ps) && TextOf(ps) == s
  {
    if Minified(s, 0).Some? {
      var ps := CutExists(s, 0);
      assert s[0..] == s;
    }
    forall ps | AreCut(ps) && TextOf(ps) == s ensures Minified(s, 0).Some? {
      MinifyingKeeps(ps);
    }
  }
}
