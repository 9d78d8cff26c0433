/** Splitting words into pieces of a vocabulary, the longest match first. */
module WordPieces {

  const CONTINUED := "##"
  const MAX_WORD := 100

  /** The piece of w from i to j as the vocabulary spells it. */
  function Piece(w: string, i: nat, j: nat): string
    requires i <= j <= |w|
  {
    (if i > 0 then CONTINUED else "") + w[i..j]
  }

  /** The end of the longest piece from i in the vocabulary that ends at j at the latest, or i. */
  function LongestEnd(vocab: set<string>, w: string, i: nat, j: nat): (e: nat)
    requires i <= j <= |w|
    ensures i <= e <= j
    ensures e > i ==> Piece(w, i, e) in vocab
    ensures forall k :: e < k <= j ==> Piece(w, i, k) !in vocab
  {
    if i == j then i
    else if Piece(w, i, j) in vocab then j
    else LongestEnd(vocab, w, i, j - 1)
  }

  datatype Split = Stuck | Pieces(pieces: seq<string>)

  /** Greedy matching of the rest of w from i on. */
  function Greedy(vocab: set<string>, w: string, i: nat): Split
    requires i <= |w|
    decreases |w| - i
  {
    if i == |w| then Pieces([])
    else
      var e := LongestEnd(vocab, w, i, |w|);
      if e == i then Stuck
      else
        match Greedy(vocab, w, e)
        case Stuck => Stuck
        case Pieces(rest) => Pieces([Piece(w, i, e)] + rest)
  }

  // ---- what greedy matching is ---------------------------------------------------------------

  /** Places to cut w at, from i on, each piece in the vocabulary and the longest match at its place. */
  ghost predicate GreedyCuts(vocab: set<string>, w: string, i: nat, cuts: seq<nat>) {
    && |cuts| >= 1 && cuts[0] == i <= |w|
    && (forall n :: 0 <= n < |cuts| ==> cuts[n] <= |w|)
    && forall n :: 1 <= n < |cuts| ==> IsLongest(vocab, w, cuts[n - 1], cuts[n])
  }

  ghost predicate IsLongest(vocab: set<string>, w: string, a: nat, b: nat) {
    && a < b <= |w| && Piece(w, a, b) in vocab
    && forall k :: b < k <= |w| ==> Piece(w, a, k) !in vocab
  }

  /** No piece of the vocabulary starts at place a. */
  ghost predicate NoneFits(vocab: set<string>, w: string, a: nat) {
    a < |w| && forall k :: a < k <= |w| ==> Piece(w, a, k) !in vocab
  }

  ghost function PiecesAt(w: string, cuts: seq<nat>): seq<string>
    requires |cuts| >= 1 && forall n :: 0 <= n < |cuts| ==> cuts[n] <= |w|
    requires forall n :: 1 <= n < |cuts| ==> cuts[n - 1] <= cuts[n]
  {
    if |cuts| == 1 then [] else [Piece(w, cuts[0], cuts[1])] + PiecesAt(w, cuts[1..])
  }

  lemma CutsBehind(vocab: set<string>, w: string, i: nat, cuts: seq<nat>)
    requires GreedyCuts(vocab, w, i, cuts)
    ensures forall n :: 1 <= n < |cuts| ==> cuts[n - 1] <= cuts[n]
    ensures |cuts| > 1 ==> GreedyCuts(vocab, w, cuts[1], cuts[1..]) && LongestEnd(vocab, w, i, |w|) == cuts[1] > i
  {
    forall n | 1 <= n < |cuts| ensures cuts[n - 1] <= cuts[n] {
      assert IsLongest(vocab, w, cuts[n - 1], cuts[n]);
    }
    if |cuts| > 1 {
      assert IsLongest(vocab, w, cuts[0], cuts[1]);
      var rest := cuts[1..];
      forall n | 1 <= n < |rest| ensures IsLongest(vocab, w, rest[n - 1], rest[n]) {
        assert IsLongest(vocab, w, cuts[n], cuts[n + 1]);
      }
    }
  }

  /** Whatever cuts the word greedily to its end gives the pieces of the greedy match. */
  lemma {:induction false} CutsAreTheMatch(vocab: set<string>, w: string, i: nat, cuts: seq<nat>)
    requires GreedyCuts(vocab, w, i, cuts) && cuts[|cuts| - 1] == |w|
    ensures forall n :: 1 <= n < |cuts| ==> cuts[n - 1] <= cuts[n]
    ensures Greedy(vocab, w, i) == Pieces(PiecesAt(w, cuts))
    decreases |cuts|
  {
    CutsBehind(vocab, w, i, cuts);
    if |cuts| > 1 {
      CutsAreTheMatch(vocab, w, cuts[1], cuts[1..]);
    }
  }

  /** Whatever cuts the word greedily to a place where nothing fits shows that the match is stuck. */
  lemma {:induction false} CutsGetStuck(vocab: set<string>, w: string, i: nat, cuts: seq<nat>)
    requires GreedyCuts(vocab, w, i, cuts) && NoneFits(vocab, w, cuts[|cuts| - 1])
    ensures Greedy(vocab, w, i) == Stuck
    decreases |cuts|
  {
    CutsBehind(vocab, w, i, cuts);
    if |cuts| > 1 {
      CutsGetStuck(vocab, w, cuts[1], cuts[1..]);
    }
  }

  /** Greedy cuts to the end of the word, or to where nothing fits. */
  lemma {:induction false} GreedyHasCuts(vocab: set<string>, w: string, i: nat) returns (cuts: seq<nat>)
    requires i <= |w|
    ensures GreedyCuts(vocab, w, i, cuts)
    ensures if Greedy(vocab, w, i).Stuck? then NoneFits(vocab, w, cuts[|cuts| - 1]) else cuts[|cuts| - 1] == |w|
    decreases |w| - i
  {
    var e := LongestEnd(vocab, w, i, |w|);
    if i == |w| || e == i {
      cuts := [i];
    } else {
      var rest := GreedyHasCuts(vocab, w, e);
      cuts := [i] + rest;
      assert IsLongest(vocab, w, i, e);
      forall n | 1 <= n < |cuts| ensures IsLongest(vocab, w, cuts[n - 1], cuts[n]) {
        assert n > 1 ==> IsLongest(vocab, w, rest[n - 2], rest[n - 1]);
      }
    }
  }

  /** The pieces put together, without the marks of those that continue the word. */
  function Spelled(pieces: seq<string>, start: bool): string
    requires forall n :: (if start then 1 else 0) <= n < |pieces| ==> |pieces[n]| >= 2
  {
    if pieces == [] then "" else (if start then pieces[0] else pieces[0][2..]) + Spelled(pieces[1..], false)
  }

  /** The pieces of a match are all in the vocabulary and spell the word. */
  lemma {:induction false} PiecesSpellTheWord(vocab: set<string>, w: string, i: nat)
    requires i <= |w| && Greedy(vocab, w, i).Pieces?
    ensures var p := Greedy(vocab, w, i).pieces;
      && (forall n :: 0 <= n < |p| ==> p[n] in vocab)
      && (forall n :: (if i == 0 then 1 else 0) <= n < |p| ==> |p[n]| >= 2 && p[n][..2] == CONTINUED)
      && Spelled(p, i == 0) == w[i..]
    decreases |w| - i
  {
    if i < |w| {
      var e := LongestEnd(vocab, w, i, |w|);
      PiecesSpellTheWord(vocab, w, e);
      var p, rest := Greedy(vocab, w, i).pieces, Greedy(vocab, w, e).pieces;
      assert p[1..] == rest;
      assert w[i..] == w[i..e] + w[e..];
      if i > 0 {
        assert p[0][2..] == w[i..e];
      }
    }
  }

  /** A word is known exactly if it can be cut greedily to its end; otherwise greedy matching
      comes to a place where nothing fits. */
  lemma KnownIffCut(vocab: set<string>, w: string)
    ensures Greedy(vocab, w, 0).Pieces? <==> exists cuts :: GreedyCuts(vocab, w, 0, cuts) && cuts[|cuts| - 1] == |w|
    ensures Greedy(vocab, w, 0).Stuck? <==> exists cuts :: GreedyCuts(vocab, w, 0, cuts) && NoneFits(vocab, w, cuts[|cuts| - 1])
  {
    var found := GreedyHasCuts(vocab, w, 0);
    forall cuts | GreedyCuts(vocab, w, 0, cuts) && cuts[|cuts| - 1] == |w| ensures Greedy(vocab, w, 0).Pieces? {
      CutsAreTheMatch(vocab, w, 0, cuts);
    }
    forall cuts | GreedyCuts(vocab, w, 0, cuts) && NoneFits(vocab, w, cuts[|cuts| - 1]) ensures Greedy(vocab, w, 0).Stuck? {
      CutsGetStuck(vocab, w, 0, cuts);
    }
  }

  /** Greedy matching can miss a way to split a word. */
  lemma GreedyMissesASplit()
    ensures var vocab := {"ab", "a", "##bc"};
      && Greedy(vocab, "abc", 0) == Stuck
      && Piece("abc", 0, 1) in vocab && Piece("abc", 1, 3) in vocab
  {
    var vocab, w := {"ab", "a", "##bc"}, "abc";
    assert Piece(w, 0, 1) == "a" && Piece(w, 1, 3) == "##bc" && Piece(w, 0, 2) == "ab";
    assert forall v :: v in vocab ==> |v| != 3;
    assert |Piece(w, 0, 3)| == 3 && |Piece(w, 2, 3)| == 3;
    assert NoneFits(vocab, w, 2);
    assert GreedyCuts(vocab, w, 0, [0, 2]);
    CutsGetStuck(vocab, w, 0, [0, 2]);
  }

  /** The rest of w from i on can be put together from entries, in whatever way. */
  ghost predicate Spellable(vocab: set<string>, w: string, i: nat)
    requires i <= |w|
    decreases |w| - i
  {
    i == |w| || exists j: nat :: i < j <= |w| && Piece(w, i, j) in vocab && Spellable(vocab, w, j)
  }

  ghost predicate FindsAll(vocab: set<string>, w: string) {
    forall i: nat :: i <= |w| && Spellable(vocab, w, i) ==> Greedy(vocab, w, i).Pieces?
  }

  ghost predicate LongestKeepsSpelling(vocab: set<string>, w: string) {
    forall i: nat :: i < |w| && Spellable(vocab, w, i) ==> Spellable(vocab, w, LongestEnd(vocab, w, i, |w|))
  }

  lemma {:induction false} MatchIsASpelling(vocab: set<string>, w: string, i: nat)
    requires i <= |w| && Greedy(vocab, w, i).Pieces?
    ensures Spellable(vocab, w, i)
    decreases |w| - i
  {
    if i < |w| {
      MatchIsASpelling(vocab, w, LongestEnd(vocab, w, i, |w|));
    }
  }

  /** Where every spellable rest leaves a spellable one behind its longest piece, none is missed. */
  lemma {:induction false} NothingIsMissed(vocab: set<string>, w: string, i: nat)
    requires i <= |w| && Spellable(vocab, w, i) && LongestKeepsSpelling(vocab, w)
    ensures Greedy(vocab, w, i).Pieces?
    decreases |w| - i
  {
    if i < |w| {
      var e := LongestEnd(vocab, w, i, |w|);
      var j: nat :| i < j <= |w| && Piece(w, i, j) in vocab && Spellable(vocab, w, j);
      assert e > i;
      NothingIsMissed(vocab, w, e);
    }
  }

  /** Greedy matching finds a spelling of every rest of the word that has one, exactly if behind the
      longest piece of such a rest there is again one. */
  lemma GreedyFindsAllIff(vocab: set<string>, w: string)
    ensures FindsAll(vocab, w) <==> LongestKeepsSpelling(vocab, w)
  {
    if FindsAll(vocab, w) {
      forall i: nat | i < |w| && Spellable(vocab, w, i) ensures Spellable(vocab, w, LongestEnd(vocab, w, i, |w|)) {
        assert Greedy(vocab, w, i).Pieces?;
        MatchIsASpelling(vocab, w, LongestEnd(vocab, w, i, |w|));
      }
    }
    if LongestKeepsSpelling(vocab, w) {
      forall i: nat | i <= |w| && Spellable(vocab, w, i) ensures Greedy(vocab, w, i).Pieces? {
        NothingIsMissed(vocab, w, i);
      }
    }
  }

  /** The character of w at place k is an entry, with the mark unless it is the first. */
  predicate IsKnownAt(vocab: set<string>, w: string, k: nat)
    requires k < |w|
  {
    Piece(w, k, k + 1) in vocab
  }

  /** No word is unknown whose characters are all entries. */
  lemma {:induction false} KnownByCharacters(vocab: set<string>, w: string, i: nat)
    requires i <= |w| && forall k: nat :: i <= k < |w| ==> IsKnownAt(vocab, w, k)
    ensures Greedy(vocab, w, i).Pieces?
    decreases |w| - i
  {
    if i < |w| {
      assert IsKnownAt(vocab, w, i);
      KnownByCharacters(vocab, w, LongestEnd(vocab, w, i, |w|));
    }
  }

  // ---- words to tokens ---------------------------------------------------------------------------

  /** The tokens of one word. */
  function WordTokens(vocab: set<string>, unk: string, w: string): seq<string> {
    if |w| > MAX_WORD then [unk]
    else if |w| == 1 then (if w in vocab then [w] else [unk])
    else
      match Greedy(vocab, w, 0)
      case Stuck => [unk]
      case Pieces(p) => p
  }

  /** Words of one character need no rule of their own. */
  lemma OneCharacterIsGreedy(vocab: set<string>, unk: string, w: string)
    requires |w| == 1
    ensures WordTokens(vocab, unk, w) == match Greedy(vocab, w, 0) { case Stuck => [unk] case Pieces(p) => p }
  {
    assert Piece(w, 0, 1) == w;
    assert LongestEnd(vocab, w, 0, 0) == 0;
    assert LongestEnd(vocab, w, 0, 1) == if w in vocab then 1 else 0;
  }

  function Tokens(vocab: set<string>, unk: string, words: seq<string>): seq<string> {
    if words == [] then [] else Tokens(vocab, unk, words[..|words| - 1]) + WordTokens(vocab, unk, words[|words| - 1])
  }

  /** What the tokens of one word must be: the unknown token for a word of more than 100 characters or
      one that longest matches do not use up, and the pieces of the longest matches otherwise. */
  ghost predicate IsTokenized(vocab: set<string>, unk: string, w: string, t: seq<string>) {
    && (|w| > 100 ==> t == [unk])
    && (|w| <= 100 && GetsStuck(vocab, w) ==> t == [unk])
    && (|w| <= 100 && !GetsStuck(vocab, w) ==> IsCutInto(vocab, w, t))
  }

  ghost predicate GetsStuck(vocab: set<string>, w: string) {
    exists cuts :: GreedyCuts(vocab, w, 0, cuts) && NoneFits(vocab, w, cuts[|cuts| - 1])
  }

  /** t are the pieces between the places of longest matches, which use up the word. */
  ghost predicate IsCutInto(vocab: set<string>, w: string, t: seq<string>) {
    exists cuts :: GreedyCuts(vocab, w, 0, cuts) && cuts[|cuts| - 1] == |w| && AreBetween(w, cuts, t)
  }

  ghost predicate AreBetween(w: string, cuts: seq<nat>, t: seq<string>) {
    && |cuts| == |t| + 1
    && forall n: nat :: n < |t| ==> IsBetween(w, cuts, t, n)
  }

  /** A piece that continues the word carries the mark. */
  ghost predicate IsBetween(w: string, cuts: seq<nat>, t: seq<string>, n: nat)
    requires n < |t| && |cuts| == |t| + 1
  {
    && cuts[n] <= cuts[n + 1] <= |w|
    && t[n] == (if cuts[n] > 0 then "##" else "") + w[cuts[n]..cuts[n + 1]]
  }

  lemma {:induction false} PiecesAreBetween(w: string, cuts: seq<nat>)
    requires |cuts| >= 1 && forall n :: 0 <= n < |cuts| ==> cuts[n] <= |w|
    requires forall n :: 1 <= n < |cuts| ==> cuts[n - 1] <= cuts[n]
    ensures AreBetween(w, cuts, PiecesAt(w, cuts))
    decreases |cuts|
  {
    if |cuts| > 1 {
      var rest, t := cuts[1..], PiecesAt(w, cuts);
      PiecesAreBetween(w, rest);
      forall n: nat | n < |t| ensures |cuts| == |t| + 1 && IsBetween(w, cuts, t, n) {
        if n == 0 {
          assert t[0] == Piece(w, cuts[0], cuts[1]);
        } else {
          assert IsBetween(w, rest, PiecesAt(w, rest), n - 1);
        }
      }
    }
  }

  lemma WordIsTokenized(vocab: set<string>, unk: string, w: string)
    ensures IsTokenized(vocab, unk, w, WordTokens(vocab, unk, w))
  {
    hide AreBetween, PiecesAt;
    KnownIffCut(vocab, w);
    if |w| == 1 {
      OneCharacterIsGreedy(vocab, unk, w);
    }
    if |w| <= 100 && !GetsStuck(vocab, w) {
      var cuts := GreedyHasCuts(vocab, w, 0);
      CutsAreTheMatch(vocab, w, 0, cuts);
      CutsAreInside(vocab, w, cuts);
      PiecesAreBetween(w, cuts);
    }
  }

  lemma CutsAreInside(vocab: set<string>, w: string, cuts: seq<nat>)
    requires GreedyCuts(vocab, w, 0, cuts)
    ensures |cuts| >= 1 && forall n :: 0 <= n < |cuts| ==> cuts[n] <= |w|
  {
  }

  function Flat(parts: seq<seq<string>>): seq<string> {
    if parts == [] then [] else Flat(parts[..|parts| - 1]) + parts[|parts| - 1]
  }

  /** The longest match that starts at `start`. */
  method LongestMatch(vocab: set<string>, token: string, start: nat) returns (piece: string, end: nat)
    requires start < |token|
    ensures end == LongestEnd(vocab, token, start, |token|)
    ensures if end == start then piece == "" else piece == Piece(token, start, end)
  {
    end, piece := |token|, "";
    while start < end
      invariant start <= end <= |token|
      invariant LongestEnd(vocab, token, start, |token|) == LongestEnd(vocab, token, start, end)
    {
      var substr := "";
      if start > 0 {
        substr := substr + CONTINUED;
      }
      substr := substr + token[start..end];
      assert substr == Piece(token, start, end);
      if substr in vocab {
        return substr, end;
      }
      end := end - 1;
    }
  }

  /** The tokens of the words, one word after the other; `parts` tells which belong to which. */
  method Tokenize(vocab: set<string>, unk: string, words: seq<string>)
    returns (outputs: seq<string>, ghost parts: seq<seq<string>>)
    ensures outputs == Tokens(vocab, unk, words)
    ensures outputs == Flat(parts) && |parts| == |words|
    ensures forall n :: 0 <= n < |words| ==> IsTokenized(vocab, unk, words[n], parts[n])
  {
    hide IsTokenized;
    outputs, parts := [], [];
    for n := 0 to |words|
      invariant outputs == Tokens(vocab, unk, words[..n])
      invariant outputs == Flat(parts) && |parts| == n
      invariant forall k :: 0 <= k < n ==> IsTokenized(vocab, unk, words[k], parts[k])
    {
      var token := words[n];
      assert words[..n + 1][..n] == words[..n];
      ghost var part := WordTokens(vocab, unk, token);
      WordIsTokenized(vocab, unk, token);
      assert (parts + [part])[..n] == parts;
      parts := parts + [part];
      if |token| > MAX_WORD {
        outputs := outputs + [unk];
        continue;
      }
      if |token| == 1 {
        outputs := outputs + (if token in vocab then [token] else [unk]);
        continue;
      }
      var bad, pieces := MatchWord(vocab, token);
      if bad {
        outputs := outputs + [unk];
      } else {
        outputs := outputs + pieces;
      }
    }
    assert words[..|words|] == words;
  }

  /** What is matched so far and the match of the rest make the whole match. */
  ghost predicate Goes(vocab: set<string>, w: string, done: seq<string>, i: nat)
    requires i <= |w|
  {
    Greedy(vocab, w, 0) == match Greedy(vocab, w, i) { case Stuck => Stuck case Pieces(rest) => Pieces(done + rest) }
  }

  lemma GoesOn(vocab: set<string>, w: string, done: seq<string>, i: nat, e: nat)
    requires i < |w| && e == LongestEnd(vocab, w, i, |w|) && Goes(vocab, w, done, i)
    ensures e == i ==> Greedy(vocab, w, 0) == Stuck
    ensures e > i ==> Goes(vocab, w, done + [Piece(w, i, e)], e)
  {
    if e > i && Greedy(vocab, w, e).Pieces? {
      var rest := Greedy(vocab, w, e).pieces;
      assert done + ([Piece(w, i, e)] + rest) == done + [Piece(w, i, e)] + rest;
    }
  }

  lemma GoesFromTo(vocab: set<string>, w: string, done: seq<string>)
    ensures Goes(vocab, w, [], 0)
    ensures Goes(vocab, w, done, |w|) ==> Greedy(vocab, w, 0) == Pieces(done)
  {
    assert Greedy(vocab, w, 0).Pieces? ==> [] + Greedy(vocab, w, 0).pieces == Greedy(vocab, w, 0).pieces;
    assert done + [] == done;
  }

  /** The inner loop: pieces from the front until the word is used up or nothing fits. */
  method MatchWord(vocab: set<string>, token: string) returns (bad: bool, pieces: seq<string>)
    ensures if bad then Greedy(vocab, token, 0) == Stuck else Greedy(vocab, token, 0) == Pieces(pieces)
  {
    hide Greedy, Goes, LongestEnd;
    bad, pieces := false, [];
    GoesFromTo(vocab, token, pieces);
    var start := 0;
    while start < |token|
      invariant start <= |token| && Goes(vocab, token, pieces, start)
    {
      var piece, end := LongestMatch(vocab, token, start);
      GoesOn(vocab, token, pieces, start, end);
      if |piece| == 0 {
        return true, pieces;
      }
      pieces := pieces + [piece];
      start := end;
    }
    GoesFromTo(vocab, token, pieces);
  }
}
