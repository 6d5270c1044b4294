// What the regular expressions for session ids accept, told from the text alone. The search for a match takes
// every run of blanks whole; that loses nothing, as behind a run there is always something that is no blank.

module PatternReadings {
  import opened JsText
  import opened LineStream
  import opened TextPatterns
  import opened TextSpelling
  import opened CodexSession

  /** What a piece stands for. */
  predicate Fills(piece: Piece, s: string) {
    match piece
    case Word(w) => Spells(s, w)
    case Either(w1, w2) => Spells(s, w1) || Spells(s, w2)
    case Blanks(some) => Blank(s) && (some ==> s != "")
    case Uuid => IsUuid(s)
  }

  /** The text is made of parts that the pieces stand for, one after the other. */
  ghost predicate Made(p: Pattern, text: string, parts: seq<string>)
    decreases p
  {
    match p
    case Done => parts == [] && text == ""
    case Then(first, rest) =>
      parts != [] && parts[0] <= text && Fills(first, parts[0]) && Made(rest, text[|parts[0]|..], parts[1..])
  }

  ghost predicate IsMade(p: Pattern, text: string) {
    exists parts :: Made(p, text, parts)
  }

  /** From i to e the pattern is there, however its runs of blanks are divided. */
  ghost predicate Reads(p: Pattern, text: string, i: nat, e: nat) {
    i <= e <= |text| && IsMade(p, text[i..e])
  }

  predicate SmallPiece(piece: Piece) {
    match piece
    case Word(w) => Small(w)
    case Either(w1, w2) => Small(w1) && Small(w2) && !(w1 <= w2) && !(w2 <= w1)
    case _ => true
  }

  /** A run of blanks is never the last piece and never followed by another. */
  predicate Solid(p: Pattern) {
    p.Then? ==> SmallPiece(p.first) && (p.first.Blanks? ==> p.rest.Then? && !p.rest.first.Blanks?) && Solid(p.rest)
  }

  lemma UuidIsNoSpace(s: string)
    requires IsUuid(s)
    ensures !IsSpace(s[0])
  {
    assert IsUuidChar(0, s[0]);
  }

  /** What stands for a piece other than a run of blanks begins with no blank. */
  lemma FilledIsNoSpace(piece: Piece, s: string)
    requires SmallPiece(piece) && !piece.Blanks? && Fills(piece, s)
    ensures s != "" && !IsSpace(s[0])
  {
    match piece
    case Word(w) => SpelledFirst(s, w);
    case Either(w1, w2) => SpelledFirst(s, if Spells(s, w1) then w1 else w2);
    case Uuid => UuidIsNoSpace(s);
  }

  lemma SpelledFirst(s: string, w: string)
    requires Small(w) && Spells(s, w)
    ensures s != "" && !IsSpace(s[0])
  {
    assert SameLetter(s[0], w[0]);
  }

  /** A piece other than a run of blanks ends where it does, and nowhere else. */
  lemma StepExactly(piece: Piece, text: string, i: nat, j: nat)
    requires SmallPiece(piece) && !piece.Blanks? && i <= j <= |text|
    ensures Step(piece, text, i) == Some(j) <==> Fills(piece, text[i..j])
  {
    match piece
    case Word(w) => WordExactly(w, text, i, j);
    case Either(w1, w2) =>
      WordExactly(w1, text, i, j);
      WordExactly(w2, text, i, j);
      if At(text, i, w1) && At(text, i, w2) {
        EitherIsOne(text, i, w1, w2);
      }
    case Uuid =>
  }

  lemma WordExactly(w: string, text: string, i: nat, j: nat)
    requires NoCapitals(w) && i <= j <= |text|
    ensures At(text, i, w) && j == i + |w| <==> Spells(text[i..j], w)
  {
    AtExactly(text, i, w);
  }

  lemma MadeFront(p: Pattern, text: string, i: nat, e: nat, parts: seq<string>)
    requires p.Then? && i <= e <= |text| && Made(p, text[i..e], parts)
    ensures var j := i + |parts[0]|; j <= e && text[i..j] == parts[0] && Fills(p.first, text[i..j]) && Made(p.rest, text[j..e], parts[1..])
  {
    var j := i + |parts[0]|;
    assert text[i..e][..|parts[0]|] == text[i..j] && text[i..e][|parts[0]|..] == text[j..e];
  }

  lemma MadeOf(p: Pattern, text: string, i: nat, j: nat, e: nat, parts: seq<string>)
    requires p.Then? && i <= j <= e <= |text| && Fills(p.first, text[i..j]) && Made(p.rest, text[j..e], parts)
    ensures Made(p, text[i..e], [text[i..j]] + parts)
  {
    assert text[i..e][j - i..] == text[j..e] && text[i..e][..j - i] == text[i..j];
    assert ([text[i..j]] + parts)[1..] == parts;
  }

  /** Where the match takes a piece, some reading begins with it; a run of blanks is taken whole. */
  lemma FirstIsTaken(p: Pattern, text: string, i: nat, e: nat, parts: seq<string>)
    requires Solid(p) && p.Then? && i <= e <= |text| && Made(p, text[i..e], parts)
    ensures Step(p.first, text, i) == Some(i + |parts[0]|)
  {
    MadeFront(p, text, i, e, parts);
    var j := i + |parts[0]|;
    if p.first.Blanks? {
      MadeFront(p.rest, text, j, e, parts[1..]);
      FilledIsNoSpace(p.rest.first, parts[1]);
      assert text[j..j + |parts[1]|][0] == text[j];
      BlanksExactly(text, i, j);
    } else {
      StepExactly(p.first, text, i, j);
    }
  }

  lemma TakenFills(piece: Piece, text: string, i: nat)
    requires SmallPiece(piece) && i <= |text| && Step(piece, text, i).Some?
    ensures Fills(piece, text[i..Step(piece, text, i).value])
  {
    if piece.Blanks? {
      SkippedAreBlank(text, i);
    } else {
      StepExactly(piece, text, i, Step(piece, text, i).value);
    }
  }

  lemma TakenReads(p: Pattern, text: string, i: nat, j: nat, e: nat)
    requires Solid(p) && p.Then? && i <= |text| && Step(p.first, text, i) == Some(j) && Reads(p.rest, text, j, e)
    ensures Reads(p, text, i, e)
  {
    TakenFills(p.first, text, i);
    var parts :| Made(p.rest, text[j..e], parts);
    MadeOf(p, text, i, j, e, parts);
  }

  lemma ReadIsTaken(p: Pattern, text: string, i: nat, e: nat) returns (j: nat)
    requires Solid(p) && p.Then? && Reads(p, text, i, e)
    ensures Step(p.first, text, i) == Some(j) && Reads(p.rest, text, j, e)
  {
    var parts :| Made(p, text[i..e], parts);
    FirstIsTaken(p, text, i, e, parts);
    MadeFront(p, text, i, e, parts);
    j := i + |parts[0]|;
  }

  /** The search finds exactly what a pattern reads: taking runs of blanks whole misses nothing. */
  lemma {:induction false} MatchExactly(p: Pattern, text: string, i: nat, e: nat)
    requires Solid(p) && i <= |text|
    ensures Match(p, text, i) == Some(e) <==> Reads(p, text, i, e)
    decreases p
  {
    if p.Done? {
      assert i == e <= |text| ==> Made(Done, text[i..e], []);
    } else {
      if Match(p, text, i) == Some(e) {
        var j := Step(p.first, text, i).value;
        MatchExactly(p.rest, text, j, e);
        TakenReads(p, text, i, j, e);
      }
      if Reads(p, text, i, e) {
        var j := ReadIsTaken(p, text, i, e);
        MatchExactly(p.rest, text, j, e);
      }
    }
  }

  // The three forms.

  function Pieces(p: Pattern): seq<Piece> {
    if p.Done? then [] else [p.first] + Pieces(p.rest)
  }

  /** One part for each piece, together the text. */
  ghost predicate FillsAll(pieces: seq<Piece>, text: string, parts: seq<string>) {
    |parts| == |pieces| && text == Concat(parts) && forall k | 0 <= k < |parts| :: Fills(pieces[k], parts[k])
  }

  lemma {:induction false} MadeExactly(p: Pattern, text: string, parts: seq<string>)
    ensures Made(p, text, parts) <==> FillsAll(Pieces(p), text, parts)
    decreases p
  {
    if p.Then? && parts != [] {
      var rest := parts[1..];
      if parts[0] <= text {
        MadeExactly(p.rest, text[|parts[0]|..], rest);
        assert text == parts[0] + text[|parts[0]|..];
      }
      MoreFill(p, text, parts);
    }
  }

  lemma MoreFill(p: Pattern, text: string, parts: seq<string>)
    requires p.Then? && parts != []
    ensures FillsAll(Pieces(p), text, parts)
            <==> parts[0] <= text && Fills(p.first, parts[0]) && FillsAll(Pieces(p.rest), text[|parts[0]|..], parts[1..])
  {
    var pieces, rest := Pieces(p), Pieces(p.rest);
    assert Concat(parts) == parts[0] + Concat(parts[1..]);
    if FillsAll(pieces, text, parts) {
      assert text[|parts[0]|..] == Concat(parts[1..]);
      forall k | 0 <= k < |parts| - 1 ensures Fills(rest[k], parts[1..][k]) {
        assert Fills(pieces[k + 1], parts[k + 1]);
      }
    }
    if parts[0] <= text && Fills(p.first, parts[0]) && FillsAll(rest, text[|parts[0]|..], parts[1..]) {
      assert text == parts[0] + text[|parts[0]|..];
      forall k | 0 <= k < |parts| ensures Fills(pieces[k], parts[k]) {
        if k > 0 {
          assert Fills(rest[k - 1], parts[1..][k - 1]);
        }
      }
    }
  }

  /** `session id: ...`, with any spacing and letter case. */
  predicate IsLabelled(parts: seq<string>) {
    && |parts| == 5 && Spells(parts[0], "session") && Blank(parts[1]) && parts[1] != "" && Spells(parts[2], "id:")
    && Blank(parts[3]) && IsUuid(parts[4])
  }

  predicate IsKey(s: string) {
    Spells(s, "session_id") || Spells(s, "sessionid")
  }

  /** `"session_id": "..."`, with or without the underscore and with any spacing around the colon. */
  predicate IsQuoted(parts: seq<string>) {
    && |parts| == 9 && parts[0] == "\"" && IsKey(parts[1]) && parts[2] == "\"" && Blank(parts[3]) && parts[4] == ":"
    && Blank(parts[5]) && parts[6] == "\"" && IsUuid(parts[7]) && parts[8] == "\""
  }

  /** `session_id = ...`, with an equals sign or a colon. */
  predicate IsAssigned(parts: seq<string>) {
    && |parts| == 5 && IsKey(parts[0]) && Blank(parts[1]) && (parts[2] == "=" || parts[2] == ":") && Blank(parts[3])
    && IsUuid(parts[4])
  }

  predicate InForm(f: Form, parts: seq<string>) {
    match f
    case Labelled => IsLabelled(parts)
    case Quoted => IsQuoted(parts)
    case Assigned => IsAssigned(parts)
  }

  ghost predicate Writes(f: Form, text: string) {
    exists parts :: InForm(f, parts) && text == Concat(parts)
  }

  lemma SignExactly(s: string, c: char)
    requires c == '"' || c == ':' || c == '='
    ensures Spells(s, [c]) <==> s == [c]
  {
  }

  lemma LabelledPieces()
    ensures Pieces(PatternOf(Labelled)) == [Word("session"), Blanks(true), Word("id:"), Blanks(false), Uuid]
  {
    var p := PatternOf(Labelled);
    assert Pieces(p.rest.rest.rest.rest) == [Uuid];
    assert Pieces(p.rest.rest) == [Word("id:"), Blanks(false), Uuid];
  }

  lemma LabelledFills(parts: seq<string>)
    ensures FillsAll(Pieces(PatternOf(Labelled)), Concat(parts), parts) <==> IsLabelled(parts)
  {
    LabelledPieces();
    var pieces := Pieces(PatternOf(Labelled));
    assert pieces[0] == Word("session") && pieces[1] == Blanks(true) && pieces[2] == Word("id:") && pieces[3] == Blanks(false);
  }

  lemma AssignedPieces()
    ensures Pieces(PatternOf(Assigned)) == [Either("session_id", "sessionid"), Blanks(false), Either(":", "="), Blanks(false), Uuid]
  {
    var p := PatternOf(Assigned);
    assert Pieces(p.rest.rest.rest.rest) == [Uuid];
    assert Pieces(p.rest.rest) == [Either(":", "="), Blanks(false), Uuid];
  }

  lemma AssignedFills(parts: seq<string>)
    ensures FillsAll(Pieces(PatternOf(Assigned)), Concat(parts), parts) <==> IsAssigned(parts)
  {
    AssignedPieces();
    var pieces := Pieces(PatternOf(Assigned));
    assert pieces[0] == Either("session_id", "sessionid") && pieces[2] == Either(":", "=");
    if |parts| == 5 {
      SignExactly(parts[2], ':');
      SignExactly(parts[2], '=');
    }
  }

  lemma QuotedPieces()
    ensures Pieces(PatternOf(Quoted))
            == [Word("\""), Either("session_id", "sessionid"), Word("\""), Blanks(false), Word(":"), Blanks(false), Word("\""), Uuid, Word("\"")]
  {
    var p := PatternOf(Quoted);
    var q := p.rest.rest.rest.rest;
    assert Pieces(q.rest.rest) == [Word("\""), Uuid, Word("\"")];
    assert Pieces(q) == [Word(":"), Blanks(false), Word("\""), Uuid, Word("\"")];
    assert Pieces(p.rest.rest) == [Word("\""), Blanks(false)] + Pieces(q);
  }

  lemma QuotedFills(parts: seq<string>)
    ensures FillsAll(Pieces(PatternOf(Quoted)), Concat(parts), parts) <==> IsQuoted(parts)
  {
    QuotedPieces();
    var pieces := Pieces(PatternOf(Quoted));
    assert pieces[0] == Word("\"") && pieces[1] == Either("session_id", "sessionid") && pieces[4] == Word(":");
    if |parts| == 9 {
      SignExactly(parts[0], '"');
      SignExactly(parts[2], '"');
      SignExactly(parts[4], ':');
      SignExactly(parts[6], '"');
      SignExactly(parts[8], '"');
    }
  }

  lemma KeysAreSmall()
    ensures Small("session_id") && Small("sessionid") && !("session_id" <= "sessionid") && !("sessionid" <= "session_id")
  {
    assert "session_id"[7] == '_' && "sessionid"[7] == 'i';
  }

  lemma WordsAreSmall()
    ensures Small("session") && Small("id:") && Small("\"") && Small(":") && Small("=")
    ensures !(":" <= "=") && !("=" <= ":")
  {
    assert ":"[0] == ':' && "="[0] == '=';
  }

  lemma FormsAreSolid(f: Form)
    ensures Solid(PatternOf(f))
  {
    KeysAreSmall();
    WordsAreSmall();
    var p := PatternOf(f);
    match f
    case Labelled => assert Solid(p.rest.rest.rest.rest) && Solid(p.rest.rest);
    case Quoted =>
      assert Solid(p.rest.rest.rest.rest.rest.rest);
      assert Solid(p.rest.rest.rest.rest) && Solid(p.rest.rest);
    case Assigned => assert Solid(p.rest.rest.rest.rest) && Solid(p.rest.rest);
  }

  lemma FormFills(f: Form, text: string)
    ensures IsMade(PatternOf(f), text) <==> Writes(f, text)
  {
    if IsMade(PatternOf(f), text) {
      var parts :| Made(PatternOf(f), text, parts);
      OneFormFills(f, text, parts);
      assert InForm(f, parts) && text == Concat(parts);
    }
    if Writes(f, text) {
      var parts :| InForm(f, parts) && text == Concat(parts);
      OneFormFills(f, text, parts);
    }
  }

  lemma OneFormFills(f: Form, text: string, parts: seq<string>)
    ensures Made(PatternOf(f), text, parts) <==> InForm(f, parts) && text == Concat(parts)
  {
    MadeExactly(PatternOf(f), text, parts);
    match f
    case Labelled => LabelledFills(parts);
    case Quoted => QuotedFills(parts);
    case Assigned => AssignedFills(parts);
  }

  /** A form is found from i to e exactly if what stands there is written in it. */
  lemma FormExactly(f: Form, text: string, i: nat, e: nat)
    requires i <= e <= |text|
    ensures Match(PatternOf(f), text, i) == Some(e) <==> Writes(f, text[i..e])
  {
    FormsAreSolid(f);
    MatchExactly(PatternOf(f), text, i, e);
    FormFills(f, text[i..e]);
  }

  /** No letter, digit or underscore stands directly before i or at e. */
  predicate StandsAlone(text: string, i: nat, e: nat)
    requires i <= e <= |text|
  {
    (i > 0 ==> !IsWordChar(text[i - 1])) && (e < |text| ==> !IsWordChar(text[e]))
  }

  /** An occurrence from i to e. */
  ghost predicate Occurs(f: Form, text: string, i: nat, e: nat) {
    i <= e <= |text| && Writes(f, text[i..e]) && (f != Quoted ==> StandsAlone(text, i, e))
  }

  /** A form matches exactly where it occurs, alone unless it is quoted. */
  lemma MatchesExactly(f: Form, text: string, i: nat)
    ensures Matches(f, text, i) <==> exists e :: Occurs(f, text, i, e)
  {
    if Matches(f, text, i) {
      var e := Match(PatternOf(f), text, i).value;
      FormExactly(f, text, i, e);
      assert Occurs(f, text, i, e);
    }
    if e: nat :| Occurs(f, text, i, e) {
      FormExactly(f, text, i, e);
    }
  }

  /** The id in what is written in a form: its last 36 characters, before the closing quote if there is one. */
  function IdIn(f: Form, text: string): string {
    var n := if f.Quoted? then |text| - 1 else |text|;
    if n < UUID_LENGTH then "" else text[n - UUID_LENGTH..n]
  }

  predicate IsBefore(f: Form, g: Form) {
    (f.Labelled? && !g.Labelled?) || (f.Quoted? && g.Assigned?)
  }

  /** The first occurrence of the first form that has one gives the id, in small letters. */
  lemma FirstOccurrenceIsExtracted(f: Form, text: string, i: nat, e: nat)
    requires Occurs(f, text, i, e)
    requires forall j: nat, d: nat :: j < i ==> !Occurs(f, text, j, d)
    requires forall g: Form, j: nat, d: nat :: IsBefore(g, f) ==> !Occurs(g, text, j, d)
    ensures Extract(text) == Some(LowerAll(IdIn(f, text[i..e])))
  {
    FormExactly(f, text, i, e);
    MatchesExactly(f, text, i);
    forall j: nat | j < i ensures !Matches(f, text, j) {
      MatchesExactly(f, text, j);
    }
    forall g: Form, j: nat | IsBefore(g, f) ensures !Matches(g, text, j) {
      MatchesExactly(g, text, j);
    }
    FirstFound(f, text, 0, i);
    FirstFormFound(f, text);
    WrittenIsLong(f, text[i..e]);
    FormEndsInId(f, text, i, e);
  }

  lemma {:induction false} FirstFound(f: Form, text: string, k: nat, i: nat)
    requires k <= i && Matches(f, text, i) && forall j: nat | k <= j < i :: !Matches(f, text, j)
    ensures Search(f, text, k) == Some(i)
    decreases i - k
  {
    if k < i {
      SearchGoesOn(f, text, k, i);
      FirstFound(f, text, k + 1, i);
    }
  }

  lemma SearchGoesOn(f: Form, text: string, k: nat, i: nat)
    requires k < i && Matches(f, text, i) && !Matches(f, text, k)
    ensures Search(f, text, k) == Search(f, text, k + 1)
  {
  }

  lemma FirstFormFound(f: Form, text: string)
    requires IdOf(f, text).Some? && forall g: Form, j: nat | IsBefore(g, f) :: !Matches(g, text, j)
    ensures Extract(text) == IdOf(f, text)
  {
    forall g: Form | IsBefore(g, f) ensures IdOf(g, text).None? {
      var s := Search(g, text, 0);
    }
    match f
    case Labelled =>
    case Quoted => assert IsBefore(Labelled, Quoted);
    case Assigned => assert IsBefore(Labelled, Assigned) && IsBefore(Quoted, Assigned);
  }

  lemma FormEndsInId(f: Form, text: string, i: nat, e: nat)
    requires i <= e <= |text| && e - i > UUID_LENGTH
    ensures IdBefore(f, text, e) == LowerAll(IdIn(f, text[i..e]))
  {
    var n := if f.Quoted? then e - 1 else e;
    assert n - UUID_LENGTH >= i;
    SliceOfSlice(text, i, e, n - UUID_LENGTH - i, n - i);
  }

  lemma WrittenIsLong(f: Form, text: string)
    ensures Writes(f, text) ==> |text| > UUID_LENGTH
  {
    if parts :| InForm(f, parts) && text == Concat(parts) {
      PartIsWithin(parts, if f.Quoted? then 7 else 4);
      assert f.Quoted? ==> |parts[8]| == 1 && |parts[7]| == UUID_LENGTH;
      PartIsWithin(parts, 0);
      FirstAndLast(parts, if f.Quoted? then 7 else 4);
    }
  }

  lemma {:induction false} PartIsWithin(parts: seq<string>, k: nat)
    requires k < |parts|
    ensures |Concat(parts)| >= |parts[k]|
  {
    if k > 0 {
      PartIsWithin(parts[1..], k - 1);
    }
  }

  lemma FirstAndLast(parts: seq<string>, k: nat)
    requires 0 < k < |parts|
    ensures |Concat(parts)| >= |parts[0]| + |parts[k]|
  {
    PartIsWithin(parts[1..], k - 1);
  }
}
