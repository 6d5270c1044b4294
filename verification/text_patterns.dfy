// The regular expressions that read session ids and complaints out of program output. Each is a list of
// pieces, and every run of blanks in them is followed by a piece that begins with no blank, so that a
// match never has to give characters back.

module TextPatterns {
  import opened JsText

  datatype Piece =
    | Word(w: string)                  // in lower case, compared without regard to case
    | Either(w1: string, w2: string)
    | Blanks(some: bool)               // \s+ if some, else \s*
    | Uuid

  datatype Pattern = Done | Then(first: Piece, rest: Pattern)

  const UUID_LENGTH := 36

  function Lower(c: char): char {
    if 'A' <= c <= 'Z' then c - 'A' + 'a' else c
  }

  function LowerAll(s: string): (t: string)
    ensures |t| == |s| && forall k | 0 <= k < |s| :: t[k] == Lower(s[k])
  {
    seq(|s|, k requires 0 <= k < |s| => Lower(s[k]))
  }

  predicate At(text: string, i: nat, word: string) {
    i + |word| <= |text| && LowerAll(text[i..i + |word|]) == word
  }

  predicate IsWordChar(c: char) {
    'a' <= c <= 'z' || 'A' <= c <= 'Z' || '0' <= c <= '9' || c == '_'
  }

  predicate IsHex(c: char) {
    'a' <= c <= 'f' || 'A' <= c <= 'F' || '0' <= c <= '9'
  }

  /** Hexadecimal digits in groups of 8, 4, 4, 4 and 12. */
  predicate IsUuidChar(k: nat, c: char) {
    if k == 8 || k == 13 || k == 18 || k == 23 then c == '-' else IsHex(c)
  }

  predicate IsUuid(s: string) {
    |s| == UUID_LENGTH && forall k | 0 <= k < |s| :: IsUuidChar(k, s[k])
  }

  predicate IsUuidAt(text: string, u: nat) {
    u + UUID_LENGTH <= |text| && IsUuid(text[u..u + UUID_LENGTH])
  }

  /** The position after the white space at i. */
  function SkipBlanks(text: string, i: nat): (j: nat)
    requires i <= |text|
    ensures i <= j <= |text|
    decreases |text| - i
  {
    if i < |text| && IsSpace(text[i]) then SkipBlanks(text, i + 1) else i
  }

  /** Where the piece ends when it is at i. */
  function Step(piece: Piece, text: string, i: nat): (e: Option<nat>)
    requires i <= |text|
    ensures e.Some? ==> i <= e.value <= |text|
  {
    match piece
    case Word(w) => if At(text, i, w) then Some(i + |w|) else None
    case Either(w1, w2) => if At(text, i, w1) then Some(i + |w1|) else if At(text, i, w2) then Some(i + |w2|) else None
    case Blanks(some) => if some && SkipBlanks(text, i) == i then None else Some(SkipBlanks(text, i))
    case Uuid => if IsUuidAt(text, i) then Some(i + UUID_LENGTH) else None
  }

  /** Where the pattern ends when its pieces are at i one after the other. */
  function Match(p: Pattern, text: string, i: nat): (e: Option<nat>)
    requires i <= |text|
    ensures e.Some? ==> i <= e.value <= |text|
  {
    match p
    case Done => Some(i)
    case Then(first, rest) =>
      match Step(first, text, i)
      case None => None
      case Some(j) => Match(rest, text, j)
  }

  predicate Begins(p: Pattern, text: string, i: nat) {
    i <= |text| && Match(p, text, i).Some?
  }

  /** The pattern is somewhere in the text, from i on. */
  predicate Says(p: Pattern, text: string, i: nat)
    decreases |text| - i
  {
    Begins(p, text, i) || (i < |text| && Says(p, text, i + 1))
  }

  lemma {:induction false} SaysExactly(p: Pattern, text: string, i: nat)
    ensures Says(p, text, i) <==> exists j: nat | i <= j :: Begins(p, text, j)
    decreases |text| - i
  {
    if i >= |text| {
    } else {
      SaysExactly(p, text, i + 1);
    }
  }

  /** `test`: the pattern is somewhere in the text. */
  predicate Mentions(p: Pattern, text: string)
    ensures Mentions(p, text) <==> exists j: nat :: Begins(p, text, j)
  {
    SaysExactly(p, text, 0);
    Says(p, text, 0)
  }

  // Matching within a window of a text.

  /** Words are not empty, the second of two is no prefix of the first, and the last piece is no run of blanks. */
  predicate Proper(p: Pattern) {
    p.Then? && ProperPiece(p.first) && if p.rest.Done? then !p.first.Blanks? else Proper(p.rest)
  }

  predicate ProperPiece(piece: Piece) {
    match piece
    case Word(w) => w != ""
    case Either(w1, w2) => w1 != "" && w2 != "" && !(w2 <= w1)
    case _ => true
  }

  lemma {:induction false} SkipInWindow(text: string, a: nat, b: nat, i: nat)
    requires a + i <= b <= |text|
    ensures var j := SkipBlanks(text, a + i);
            SkipBlanks(text[a..b], i) == (if j <= b then j else b) - a
    decreases b - i
  {
    if a + i < b && IsSpace(text[a + i]) {
      SkipInWindow(text, a, b, i + 1);
    } else {
    }
  }

  lemma SliceOfSlice(text: string, a: nat, b: nat, i: nat, j: nat)
    requires i <= j && a + j <= b <= |text|
    ensures text[a..b][i..j] == text[a + i..a + j]
  {
    var s, t := text[a..b][i..j], text[a + i..a + j];
    forall k | 0 <= k < |s| ensures s[k] == t[k] {
      assert s[k] == text[a..b][i + k];
    }
  }

  lemma AtInWindow(text: string, a: nat, b: nat, i: nat, word: string)
    requires a <= b <= |text|
    ensures At(text[a..b], i, word) <==> a + i + |word| <= b && At(text, a + i, word)
  {
    if a + i + |word| <= b {
      SliceOfSlice(text, a, b, i, i + |word|);
    }
  }

  lemma EitherIsOne(text: string, i: nat, w1: string, w2: string)
    requires At(text, i, w1) && At(text, i, w2)
    ensures w1 <= w2 || w2 <= w1
  {
    var n := if |w1| <= |w2| then |w1| else |w2|;
    assert w1[..n] == LowerAll(text[i..i + n]) == w2[..n];
  }

  /** A piece that is no run of blanks is at i of the window exactly if it is in the text and ends in time. */
  lemma StepInWindow(piece: Piece, text: string, a: nat, b: nat, i: nat)
    requires a + i <= b <= |text| && ProperPiece(piece) && !piece.Blanks?
    ensures Step(piece, text[a..b], i)
            == match Step(piece, text, a + i)
               case None => None
               case Some(e) => if e <= b then Some(e - a) else None
  {
    match piece
    case Word(w) => AtInWindow(text, a, b, i, w);
    case Either(w1, w2) =>
      AtInWindow(text, a, b, i, w1);
      AtInWindow(text, a, b, i, w2);
      if At(text, a + i, w1) && At(text, a + i, w2) {
        EitherIsOne(text, a + i, w1, w2);
      }
    case Uuid =>
      if a + i + UUID_LENGTH <= b {
        SliceOfSlice(text, a, b, i, i + UUID_LENGTH);
      }
  }

  lemma {:induction false} MatchAdvances(p: Pattern, text: string, i: nat)
    requires Proper(p) && i <= |text| && Match(p, text, i).Some?
    ensures Match(p, text, i).value > i
  {
    if p.rest.Done? {
    } else {
      MatchAdvances(p.rest, text, Step(p.first, text, i).value);
    }
  }

  /** A piece that ends too late for the window is not in it, or is a run of blanks cut short at its end. */
  lemma FirstInWindow(piece: Piece, text: string, a: nat, b: nat, i: nat)
    requires a + i <= b <= |text| && ProperPiece(piece)
    ensures var s, t := Step(piece, text, a + i), Step(piece, text[a..b], i);
            if s.Some? && s.value <= b then t == Some(s.value - a) else t.None? || (s.Some? && t == Some(b - a))
  {
    if piece.Blanks? {
      SkipInWindow(text, a, b, i);
    } else {
      StepInWindow(piece, text, a, b, i);
    }
  }

  /** An end as the window from a to b sees it. */
  function Within(e: Option<nat>, a: nat, b: nat): Option<nat> {
    if e.Some? && a <= e.value <= b then Some(e.value - a) else None
  }

  /** The pattern is at i of the window exactly if it is in the text and ends in time. */
  lemma {:induction false} MatchInWindow(p: Pattern, text: string, a: nat, b: nat, i: nat)
    requires Proper(p) && a + i <= b <= |text|
    ensures Match(p, text[a..b], i) == Within(Match(p, text, a + i), a, b)
  {
    var w := text[a..b];
    var s, t := Step(p.first, text, a + i), Step(p.first, w, i);
    FirstInWindow(p.first, text, a, b, i);
    if p.rest.Done? {
      StepInWindow(p.first, text, a, b, i);
    } else if s.Some? && s.value <= b {
      MatchInWindow(p.rest, text, a, b, t.value);
    } else if t.Some? && Match(p.rest, w, |w|).Some? {
      MatchAdvances(p.rest, w, |w|);
    }
  }
}
