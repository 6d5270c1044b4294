// How the session id of a Codex run is found: a scan of the output chunk by chunk, in a window of the last
// 4000 characters, with three regular expressions. The whole output is searched with the same expressions
// to judge a failed resume. The two can differ, as a chunk or the window may be cut within a word.

module CodexSession {
  import opened JsText
  import opened LineStream
  import opened TextPatterns

  const WINDOW := 4000

  /** The three expressions: `session id: ...`, `"session_id": "..."` and `session_id = ...`. */
  datatype Form = Labelled | Quoted | Assigned

  function PatternOf(f: Form): Pattern {
    match f
    case Labelled =>
      Then(Word("session"), Then(Blanks(true), Then(Word("id:"), Then(Blanks(false), Then(Uuid, Done)))))
    case Quoted =>
      var value := Then(Blanks(false), Then(Word("\""), Then(Uuid, Then(Word("\""), Done))));
      Then(Word("\""), Then(Either("session_id", "sessionid"), Then(Word("\""), Then(Blanks(false), Then(Word(":"), value)))))
    case Assigned =>
      Then(Either("session_id", "sessionid"), Then(Blanks(false), Then(Either(":", "="), Then(Blanks(false), Then(Uuid, Done)))))
  }

  /** No word goes on across position i. */
  predicate StartsWord(text: string, i: nat)
    requires i <= |text|
  {
    i == 0 || !IsWordChar(text[i - 1])
  }

  predicate EndsWord(text: string, e: nat)
    requires e <= |text|
  {
    e == |text| || !IsWordChar(text[e])
  }

  /** What begins at i ends at m, with word boundaries if they are asked for. */
  predicate Fits(bounded: bool, text: string, i: nat, m: Option<nat>) {
    i <= |text| && m.Some? && m.value <= |text| && (bounded ==> StartsWord(text, i) && EndsWord(text, m.value))
  }

  /** The quoted form does without word boundaries. */
  predicate Matches(f: Form, text: string, i: nat) {
    i <= |text| && Fits(!f.Quoted?, text, i, Match(PatternOf(f), text, i))
  }

  /** The first match of a form, from position i on. */
  function Search(f: Form, text: string, i: nat): (r: Option<nat>)
    ensures r.Some? ==> Matches(f, text, r.value)
    ensures r.None? ==> forall j: nat | i <= j :: !Matches(f, text, j)
    decreases |text| - i
  {
    if Matches(f, text, i) then Some(i)
    else if i >= |text| then None
    else Search(f, text, i + 1)
  }

  /** The id of a match that ends at e: its last 36 characters, before the closing quote if there is one. */
  function IdBefore(f: Form, text: string, e: nat): string
    requires e <= |text|
  {
    var u := if f.Quoted? then e - 1 else e;
    if u < UUID_LENGTH then "" else LowerAll(text[u - UUID_LENGTH..u])
  }

  function IdOf(f: Form, text: string): Option<string> {
    match Search(f, text, 0)
    case None => None
    case Some(i) => Some(IdBefore(f, text, Match(PatternOf(f), text, i).value))
  }

  /** `extractCodexSessionId`: the forms in turn, the first match of the first that has one; None is no id. */
  function Extract(text: string): Option<string> {
    if IdOf(Labelled, text).Some? then IdOf(Labelled, text)
    else if IdOf(Quoted, text).Some? then IdOf(Quoted, text)
    else IdOf(Assigned, text)
  }

  ghost predicate NamesNoId(text: string) {
    forall f: Form, i: nat :: !Matches(f, text, i)
  }

  /** Nothing is extracted exactly if no form matches anywhere. */
  lemma ExtractsNothingExactly(text: string)
    ensures Extract(text).None? <==> NamesNoId(text)
  {
    if Extract(text).None? {
      forall f: Form, i: nat ensures !Matches(f, text, i) {
        assert f.Labelled? || f.Quoted? || f.Assigned?;
        assert Search(f, text, 0).None?;
      }
    }
  }

  // The scan.

  function Tail(s: string): string {
    if |s| <= WINDOW then s else s[|s| - WINDOW..]
  }

  /** The buffer and the id last found, as `onChunk` keeps them over both attempts of a run. */
  datatype Scan = Scan(buffer: string, captured: Option<string>)

  const START := Scan("", None)

  function OnChunk(s: Scan, chunk: string): Scan {
    var buffer := Tail(s.buffer + chunk);
    Scan(buffer, if Extract(buffer).Some? then Extract(buffer) else s.captured)
  }

  function ScanAll(s: Scan, chunks: seq<string>): Scan {
    if chunks == [] then s else OnChunk(ScanAll(s, chunks[..|chunks| - 1]), chunks[|chunks| - 1])
  }

  lemma {:induction false} ScanSame(s: Scan, t: Scan, a: seq<string>, b: seq<string>)
    requires a != [] && b != [] && a[|a| - 1] == b[|b| - 1]
    requires ScanAll(s, a[..|a| - 1]) == ScanAll(t, b[..|b| - 1])
    ensures ScanAll(s, a) == ScanAll(t, b)
  {
  }

  lemma {:induction false} ScanOn(s: Scan, a: seq<string>, b: seq<string>)
    ensures ScanAll(ScanAll(s, a), b) == ScanAll(s, a + b)
    decreases |b|
  {
    var t, all := ScanAll(s, a), a + b;
    if b == [] {
      assert all == a;
    } else {
      assert all[..|all| - 1] == a + b[..|b| - 1];
      ScanOn(s, a, b[..|b| - 1]);
      ScanSame(t, s, b, all);
    }
  }

  method ScanChunks(s: Scan, chunks: seq<string>) returns (r: Scan)
    ensures r == ScanAll(s, chunks)
  {
    r := s;
    for i := 0 to |chunks|
      invariant r == ScanAll(s, chunks[..i])
    {
      assert chunks[..i + 1][..i] == chunks[..i];
      r := OnChunk(r, chunks[i]);
    }
    assert chunks[..|chunks|] == chunks;
  }

  /** The buffer is the end of everything scanned so far. */
  lemma {:induction false} BufferIsTail(chunks: seq<string>)
    ensures ScanAll(START, chunks).buffer == Tail(Concat(chunks))
  {
    if chunks == [] {
    } else {
      var front, chunk := chunks[..|chunks| - 1], chunks[|chunks| - 1];
      BufferIsTail(front);
      TailOfTail(Concat(front), chunk);
      assert chunks == front + [chunk];
      ConcatSplit(front, [chunk]);
      ConcatOne(chunk);
    }
  }

  lemma TailOfTail(s: string, chunk: string)
    ensures Tail(Tail(s) + chunk) == Tail(s + chunk)
  {
    if |s| > WINDOW {
      assert s == s[..|s| - WINDOW] + Tail(s);
      assert s + chunk == s[..|s| - WINDOW] + (Tail(s) + chunk);
      DropPrefix(s[..|s| - WINDOW], Tail(s) + chunk);
    }
  }

  lemma DropPrefix(prefix: string, s: string)
    requires |s| >= WINDOW
    ensures Tail(prefix + s) == Tail(s)
  {
    var t := prefix + s;
    assert t[|t| - WINDOW..] == s[|s| - WINDOW..];
  }

  /** The window after chunk number k names an id. */
  ghost predicate NamedAfter(chunks: seq<string>, k: nat) {
    0 < k <= |chunks| && !NamesNoId(Tail(Concat(chunks[..k])))
  }

  lemma NamedBefore(chunks: seq<string>, more: seq<string>, k: nat)
    requires k <= |chunks|
    ensures NamedAfter(chunks + more, k) == NamedAfter(chunks, k)
  {
    assert (chunks + more)[..k] == chunks[..k];
  }

  lemma CapturedStep(front: seq<string>, chunk: string)
    ensures ScanAll(START, front + [chunk]).captured.Some?
            <==> ScanAll(START, front).captured.Some? || NamedAfter(front + [chunk], |front| + 1)
  {
    var chunks := front + [chunk];
    assert chunks[..|front|] == front && chunks[..|front| + 1] == chunks;
    BufferIsTail(chunks);
    ExtractsNothingExactly(Tail(Concat(chunks)));
  }

  /** An id is captured exactly if the window after some chunk names one. */
  lemma {:induction false} CapturedExactly(chunks: seq<string>)
    ensures ScanAll(START, chunks).captured.Some? <==> exists k :: NamedAfter(chunks, k)
  {
    if chunks == [] {
    } else {
      var front, chunk := chunks[..|chunks| - 1], chunks[|chunks| - 1];
      assert chunks == front + [chunk];
      CapturedExactly(front);
      CapturedStep(front, chunk);
      forall k: nat ensures NamedAfter(chunks, k) <==> NamedAfter(front, k) || (k == |chunks| && NamedAfter(chunks, k)) {
        if k <= |front| {
          NamedBefore(front, [chunk], k);
        }
      }
    }
  }

  // What a window names of a text that names nothing.

  lemma FormsAreProper(f: Form)
    ensures Proper(PatternOf(f))
  {
    assert "session_id"[7] != "sessionid"[7] && ":"[0] != "="[0];
    var p := PatternOf(f);
    match f
    case Labelled =>
      assert Proper(p.rest.rest.rest);
    case Quoted =>
      assert Proper(p.rest.rest.rest.rest.rest.rest.rest);
      assert Proper(p.rest.rest.rest.rest.rest);
      assert Proper(p.rest.rest.rest);
    case Assigned =>
      assert Proper(p.rest.rest.rest);
  }

  /** What begins at i and ends at m lies between a and b, with a word boundary wherever no edge is. */
  predicate Shown(bounded: bool, text: string, a: nat, b: nat, i: nat, m: Option<nat>) {
    && a <= i <= |text| && m.Some? && m.value <= b <= |text|
    && (bounded ==> (i == a || StartsWord(text, i)) && (m.value == b || EndsWord(text, m.value)))
  }

  /** A form occurs at i, and the window from a to b shows it. */
  predicate ShownAt(f: Form, text: string, a: nat, b: nat, i: nat) {
    i <= |text| && Shown(!f.Quoted?, text, a, b, i, Match(PatternOf(f), text, i))
  }

  /** The window shows it only because an edge lies within a word. */
  predicate TornAt(f: Form, text: string, a: nat, b: nat, i: nat) {
    ShownAt(f, text, a, b, i) && !f.Quoted?
    && !(StartsWord(text, i) && EndsWord(text, Match(PatternOf(f), text, i).value))
  }

  lemma FitsInWindowExactly(bounded: bool, text: string, a: nat, b: nat, i: nat, m: Option<nat>)
    requires a + i <= b <= |text| && (m.Some? ==> a + i <= m.value <= |text|)
    ensures Fits(bounded, text[a..b], i, Within(m, a, b)) <==> Shown(bounded, text, a, b, a + i, m)
  {
  }

  /** A form matches in the window exactly where the window shows it. */
  lemma ShownExactly(f: Form, text: string, a: nat, b: nat, i: nat)
    requires a + i <= b <= |text|
    ensures Matches(f, text[a..b], i) <==> ShownAt(f, text, a, b, a + i)
  {
    FormsAreProper(f);
    var p := PatternOf(f);
    MatchInWindow(p, text, a, b, i);
    FitsInWindowExactly(!f.Quoted?, text, a, b, i, Match(p, text, a + i));
  }

  /** What the window shows is torn exactly if the text itself does not match there. */
  lemma TornIsNoMatch(f: Form, text: string, a: nat, b: nat, i: nat)
    requires ShownAt(f, text, a, b, i)
    ensures TornAt(f, text, a, b, i) <==> !Matches(f, text, i)
  {
  }

  /** A window names an id exactly if it shows an occurrence; if the text names none, exactly if it tears one. */
  lemma WindowNamesExactly(text: string, a: nat, b: nat)
    requires a <= b <= |text|
    ensures !NamesNoId(text[a..b]) <==> exists f: Form, i: nat :: ShownAt(f, text, a, b, i)
    ensures NamesNoId(text) ==> (!NamesNoId(text[a..b]) <==> exists f: Form, i: nat :: TornAt(f, text, a, b, i))
  {
    if f: Form, i: nat :| Matches(f, text[a..b], i) {
      ShownExactly(f, text, a, b, i);
      TornIsNoMatch(f, text, a, b, a + i);
    }
    if f: Form, i: nat :| ShownAt(f, text, a, b, i) {
      ShownExactly(f, text, a, b, i - a);
    }
  }

  // The windows of a scan, as parts of everything scanned.

  /** The buffer's begin after k chunks, as a position in the output. */
  function WindowStart(chunks: seq<string>, k: nat): nat
    requires k <= |chunks|
  {
    if |Concat(chunks[..k])| <= WINDOW then 0 else |Concat(chunks[..k])| - WINDOW
  }

  lemma ConcatPrefix(chunks: seq<string>, k: nat)
    requires k <= |chunks|
    ensures Concat(chunks[..k]) <= Concat(chunks)
  {
    assert chunks == chunks[..k] + chunks[k..];
    ConcatSplit(chunks[..k], chunks[k..]);
  }

  /** The window after chunk number k shows an occurrence. */
  ghost predicate ShownAfter(chunks: seq<string>, k: nat) {
    0 < k <= |chunks|
    && exists f: Form, i: nat :: ShownAt(f, Concat(chunks), WindowStart(chunks, k), |Concat(chunks[..k])|, i)
  }

  /** Chunk number k ends, or the window after it begins, within a word next to an occurrence. */
  ghost predicate TornAfter(chunks: seq<string>, k: nat) {
    0 < k <= |chunks|
    && exists f: Form, i: nat :: TornAt(f, Concat(chunks), WindowStart(chunks, k), |Concat(chunks[..k])|, i)
  }

  lemma WindowOfAll(chunks: seq<string>, k: nat)
    requires k <= |chunks|
    ensures var a, b := WindowStart(chunks, k), |Concat(chunks[..k])|;
            a <= b <= |Concat(chunks)| && Tail(Concat(chunks[..k])) == Concat(chunks)[a..b]
  {
    var s, t := Concat(chunks[..k]), Concat(chunks);
    ConcatPrefix(chunks, k);
    assert s == t[..|s|];
    assert s[WindowStart(chunks, k)..] == t[WindowStart(chunks, k)..|s|];
  }

  lemma NamedAfterExactly(chunks: seq<string>, k: nat)
    requires 0 < k <= |chunks|
    ensures NamedAfter(chunks, k) <==> ShownAfter(chunks, k)
    ensures NamesNoId(Concat(chunks)) ==> (NamedAfter(chunks, k) <==> TornAfter(chunks, k))
  {
    WindowOfAll(chunks, k);
    WindowNamesExactly(Concat(chunks), WindowStart(chunks, k), |Concat(chunks[..k])|);
  }

  /**
   * An id is captured exactly if the window after some chunk shows an occurrence. If everything scanned, read
   * as one text, names no id, that is exactly if some chunk or window was cut within a word next to one.
   */
  lemma CapturedByShownExactly(chunks: seq<string>)
    ensures ScanAll(START, chunks).captured.Some? <==> exists k :: ShownAfter(chunks, k)
    ensures NamesNoId(Concat(chunks)) ==> (ScanAll(START, chunks).captured.Some? <==> exists k :: TornAfter(chunks, k))
  {
    CapturedExactly(chunks);
    if k: nat :| NamedAfter(chunks, k) {
      NamedAfterExactly(chunks, k);
    }
    if k: nat :| ShownAfter(chunks, k) {
      NamedAfterExactly(chunks, k);
    }
    if k: nat :| TornAfter(chunks, k) {
      assert ShownAfter(chunks, k);
    }
  }

  // A text that begins with what another one begins with, and ends with what a third one begins with.

  lemma SameMatchInPrefix(p: Pattern, text: string, other: string, n: nat, i: nat)
    requires Proper(p) && i <= n <= |text| && n <= |other| && text[..n] == other[..n]
    requires Match(p, text, i).Some? && Match(p, text, i).value <= n
    ensures Match(p, other, i) == Match(p, text, i)
  {
    MatchInWindow(p, text, 0, n, i);
    MatchInWindow(p, other, 0, n, i);
    assert text[0..n] == text[..n] && other[0..n] == other[..n];
  }

  lemma SameMatchInSuffix(p: Pattern, text: string, n: nat, i: nat)
    requires Proper(p) && n <= i <= |text| && Match(p, text, i).Some?
    ensures Match(p, text[n..], i - n) == Some(Match(p, text, i).value - n)
  {
    var k, e: nat := i - n, |text|;
    MatchMovesOn(p, text, i);
    MatchInWindow(p, text, n, e, k);
    assert text[n..e] == text[n..];
  }

  lemma FitsInPrefix(bounded: bool, text: string, other: string, n: nat, i: nat, m: Option<nat>)
    requires i <= n <= |text| && n <= |other| && text[..n] == other[..n]
    requires Fits(bounded, text, i, m) && i <= m.value < n
    ensures Fits(bounded, other, i, m)
  {
    var e := m.value;
    assert text[e] == text[..n][e] && other[e] == other[..n][e];
    assert i > 0 ==> text[i - 1] == text[..n][i - 1] && other[i - 1] == other[..n][i - 1];
  }

  /** What matches within the first n characters, not up to the last, depends on those alone. */
  lemma MatchesInPrefix(f: Form, text: string, other: string, n: nat, i: nat)
    requires n <= |text| && n <= |other| && text[..n] == other[..n] && Matches(f, text, i)
    requires Match(PatternOf(f), text, i).value < n
    ensures Matches(f, other, i)
  {
    FormsAreProper(f);
    SameMatchInPrefix(PatternOf(f), text, other, n, i);
    FitsInPrefix(!f.Quoted?, text, other, n, i, Match(PatternOf(f), text, i));
  }

  lemma FitsInSuffix(bounded: bool, text: string, n: nat, i: nat, m: Option<nat>)
    requires n < i <= |text| && Fits(bounded, text, i, m) && i <= m.value < |text|
    ensures Fits(bounded, text[n..], i - n, Some(m.value - n))
  {
    var tail, e := text[n..], m.value;
    assert tail[e - n] == text[e] && tail[i - n - 1] == text[i - 1];
  }

  /** A pattern that is found with its boundaries behind position n, and not up to the end. */
  lemma FoundInSuffix(bounded: bool, p: Pattern, text: string, other: string, n: nat, i: nat)
    requires Proper(p) && n < i <= |text| && text[n..] <= other && Fits(bounded, text, i, Match(p, text, i))
    requires Match(p, text, i).value < |text|
    ensures Fits(bounded, other, i - n, Match(p, other, i - n))
  {
    var tail, m := text[n..], Match(p, text, i);
    MatchMovesOn(p, text, i);
    SameMatchInSuffix(p, text, n, i);
    FitsInSuffix(bounded, text, n, i, m);
    assert other[..|tail|] == tail[..|tail|];
    SameMatchInPrefix(p, tail, other, |tail|, i - n);
    FitsInPrefix(bounded, tail, other, |tail|, i - n, Some(m.value - n));
  }

  lemma MatchMovesOn(p: Pattern, text: string, i: nat)
    requires i <= |text| && Match(p, text, i).Some?
    ensures Match(p, text, i).value >= i
  {
  }

  /** What matches behind position n, and not up to the end, is also in a text that goes on from there. */
  lemma MatchesInSuffix(f: Form, text: string, other: string, n: nat, i: nat)
    requires n < i <= |text| && text[n..] <= other && Matches(f, text, i)
    requires Match(PatternOf(f), text, i).value < |text|
    ensures Matches(f, other, i - n)
  {
    FormsAreProper(f);
    FoundInSuffix(!f.Quoted?, PatternOf(f), text, other, n, i);
  }

  /**
   * Where neither of two outputs names an id, what a window of the scan over both shows was torn by the window,
   * reaches from the one to the other, or ends where the scan ends.
   */
  lemma ShownOfNeither(f: Form, text: string, n: nat, first: string, second: string, a: nat, b: nat, i: nat)
    requires n <= |text| && text[..n] <= first && text[n..] <= second && NamesNoId(first) && NamesNoId(second)
    requires ShownAt(f, text, a, b, i)
    ensures var e := Match(PatternOf(f), text, i).value;
            TornAt(f, text, a, b, i) || i <= n <= e || e == |text|
  {
    var e := Match(PatternOf(f), text, i).value;
    TornIsNoMatch(f, text, a, b, i);
    if Matches(f, text, i) && e < n {
      assert first[..n] == text[..n];
      MatchesInPrefix(f, text, first, n, i);
      assert false;
    } else if Matches(f, text, i) && n < i && e < |text| {
      MatchesInSuffix(f, text, second, n, i);
      assert false;
    }
  }

  /** What the window after chunk number k shows is torn, or reaches over position n, or ends with everything. */
  ghost predicate CutOrJoinedAfter(chunks: seq<string>, n: nat, k: nat) {
    0 < k <= |chunks|
    && exists f: Form, i: nat :: CutOrJoinedAt(f, Concat(chunks), n, WindowStart(chunks, k), |Concat(chunks[..k])|, i)
  }

  predicate CutOrJoinedAt(f: Form, text: string, n: nat, a: nat, b: nat, i: nat) {
    ShownAt(f, text, a, b, i) &&
    var e := Match(PatternOf(f), text, i).value;
    TornAt(f, text, a, b, i) || i <= n <= e || e == |text|
  }

  lemma ShownOfNeitherAfter(chunks: seq<string>, n: nat, first: string, second: string, k: nat)
    requires n <= |Concat(chunks)| && Concat(chunks)[..n] <= first && Concat(chunks)[n..] <= second
    requires NamesNoId(first) && NamesNoId(second) && ShownAfter(chunks, k)
    ensures CutOrJoinedAfter(chunks, n, k)
  {
    var a, b := WindowStart(chunks, k), |Concat(chunks[..k])|;
    var f: Form, i: nat :| ShownAt(f, Concat(chunks), a, b, i);
    ShownOfNeither(f, Concat(chunks), n, first, second, a, b, i);
    assert CutOrJoinedAt(f, Concat(chunks), n, a, b, i);
  }

  // Every match holds its id in front of what closes it.

  predicate EndsInUuid(p: Pattern, closing: Pattern) {
    p.Then? && ((p.first.Uuid? && p.rest == closing) || EndsInUuid(p.rest, closing))
  }

  lemma {:induction false} MatchEndsInUuid(p: Pattern, closing: Pattern, text: string, i: nat) returns (u: nat)
    requires EndsInUuid(p, closing) && i <= |text| && Match(p, text, i).Some?
    ensures IsUuidAt(text, u) && Match(p, text, i) == Match(closing, text, u + UUID_LENGTH)
  {
    if p.first.Uuid? && p.rest == closing {
      u := i;
    } else {
      u := MatchEndsInUuid(p.rest, closing, text, Step(p.first, text, i).value);
    }
  }

  /** What the form has behind the id. */
  function Closing(f: Form): Pattern {
    if f.Quoted? then Then(Word("\""), Done) else Done
  }

  lemma FormsEndInUuid(f: Form)
    ensures EndsInUuid(PatternOf(f), Closing(f))
  {
    var p := PatternOf(f);
    match f
    case Labelled =>
      assert EndsInUuid(p.rest.rest.rest, Done);
    case Quoted =>
      assert EndsInUuid(p.rest.rest.rest.rest.rest.rest, Closing(f));
      assert EndsInUuid(p.rest.rest.rest.rest, Closing(f));
      assert EndsInUuid(p.rest.rest, Closing(f));
    case Assigned =>
      assert EndsInUuid(p.rest.rest.rest, Done);
  }

  lemma ExtractedLength(text: string)
    ensures Extract(text).Some? ==> |Extract(text).value| == UUID_LENGTH
  {
    forall f: Form | IdOf(f, text).Some? ensures |IdOf(f, text).value| == UUID_LENGTH {
      FormsEndInUuid(f);
      var i := Search(f, text, 0).value;
      var u := MatchEndsInUuid(PatternOf(f), Closing(f), text, i);
      ClosingLength(f, text, u + UUID_LENGTH);
    }
  }

  lemma ClosingLength(f: Form, text: string, i: nat)
    requires i <= |text| && Match(Closing(f), text, i).Some?
    ensures Match(Closing(f), text, i).value == i + if f.Quoted? then 1 else 0
  {
  }

  lemma {:induction false} CapturedIsNotEmpty(chunks: seq<string>)
    ensures var c := ScanAll(START, chunks).captured; c.Some? ==> c.value != ""
  {
    if chunks == [] {
    } else {
      CapturedIsNotEmpty(chunks[..|chunks| - 1]);
      ExtractedLength(ScanAll(START, chunks).buffer);
    }
  }

  // Texts with a single id.

  lemma HyphensAround(pre: string, id: string, post: string, j: nat)
    requires '-' !in pre && '-' !in post && IsUuid(id) && j < |pre + id + post|
    ensures (pre + id + post)[j] == '-' <==> j - |pre| in {8, 13, 18, 23}
  {
    var text := pre + id + post;
    if j < |pre| {
      assert text[j] == pre[j];
    } else if j < |pre| + UUID_LENGTH {
      assert text[j] == id[j - |pre|] && IsUuidChar(j - |pre|, id[j - |pre|]);
    } else {
      assert text[j] == post[j - |pre| - UUID_LENGTH];
    }
  }

  /** The hyphens fix the place of the id. */
  lemma OnlyUuid(pre: string, id: string, post: string, u: nat)
    requires '-' !in pre && '-' !in post && IsUuid(id) && IsUuidAt(pre + id + post, u)
    ensures u == |pre|
  {
    var s := (pre + id + post)[u..u + UUID_LENGTH];
    assert IsUuidChar(8, s[8]) && IsUuidChar(13, s[13]) && IsUuidChar(18, s[18]) && IsUuidChar(23, s[23]);
    HyphensAround(pre, id, post, u + 8);
    HyphensAround(pre, id, post, u + 13);
    HyphensAround(pre, id, post, u + 18);
    HyphensAround(pre, id, post, u + 23);
  }

  /** Without hyphens there is no id at all. */
  lemma NoHyphenNamesNoId(text: string)
    requires '-' !in text
    ensures NamesNoId(text) && Extract(text).None?
  {
    if f: Form, i: nat :| Matches(f, text, i) {
      FormsEndInUuid(f);
      var u := MatchEndsInUuid(PatternOf(f), Closing(f), text, i);
      UuidHasHyphen(text, u);
      assert false;
    }
    ExtractsNothingExactly(text);
  }

  lemma UuidHasHyphen(text: string, u: nat)
    requires IsUuidAt(text, u)
    ensures '-' in text
  {
    var s := text[u..u + UUID_LENGTH];
    assert IsUuidChar(8, s[8]) && s[8] == text[u + 8];
  }

  /** If such a text names an id, it is that one. */
  lemma NamesAtMost(pre: string, id: string, post: string)
    requires '-' !in pre && '-' !in post && IsUuid(id)
    ensures Extract(pre + id + post) in {None, Some(LowerAll(id))}
  {
    var text := pre + id + post;
    forall f: Form | IdOf(f, text).Some? ensures IdOf(f, text) == Some(LowerAll(id)) {
      FormsEndInUuid(f);
      var i := Search(f, text, 0).value;
      var u := MatchEndsInUuid(PatternOf(f), Closing(f), text, i);
      ClosingLength(f, text, u + UUID_LENGTH);
      OnlyUuid(pre, id, post, u);
      assert text[u..u + UUID_LENGTH] == id;
    }
  }

  const LABEL := "session id: "
  const REST := "0 resume failed"
  const FAILED := "resume failed\n"

  lemma NoHyphens()
    ensures '-' !in LABEL && '-' !in REST && '-' !in FAILED && '-' !in FAILED + LABEL
  {
  }

  /** The id behind its label is named if no word goes on into the label. */
  lemma LabelNamesId(pre: string, id: string)
    requires '-' !in pre && IsUuid(id) && (pre == "" || !IsWordChar(pre[|pre| - 1]))
    ensures Extract(pre + LABEL + id) == Some(LowerAll(id))
  {
    NoHyphens();
    var w := pre + LABEL + id;
    assert w == (pre + LABEL) + id + "";
    NamesAtMost(pre + LABEL, id, "");
    LabelMatches(pre, id);
    ExtractsNothingExactly(w);
  }

  lemma LabelMatches(pre: string, id: string)
    requires IsUuid(id) && (pre == "" || !IsWordChar(pre[|pre| - 1]))
    ensures Matches(Labelled, pre + LABEL + id, |pre|)
  {
    var w, n := pre + LABEL + id, |pre|;
    var p := PatternOf(Labelled);
    assert w[n..|w|] == LABEL + id;
    LabelBegins(id);
    FormsAreProper(Labelled);
    MatchInWindow(p, w, n, |w|, 0);
    assert Match(p, w, n) == Some(|w|);
    assert n > 0 ==> w[n - 1] == pre[n - 1];
  }

  lemma LabelBegins(id: string)
    requires IsUuid(id)
    ensures Match(PatternOf(Labelled), LABEL + id, 0) == Some(48)
  {
    var w := LABEL + id;
    assert w[12] == id[0] && IsUuidChar(0, id[0]);
    assert LowerAll(w[0..7]) == "session";
    assert LowerAll(w[8..11]) == "id:";
    assert w[12..48] == id;
    assert SkipBlanks(w, 7) == 8 && SkipBlanks(w, 11) == 12;
    var p := PatternOf(Labelled);
    assert IsUuidAt(w, 12) && Step(Uuid, w, 12) == Some(48) && Match(Then(Uuid, Done), w, 12) == Some(48);
    assert Step(Blanks(false), w, 11) == Some(12) && Match(p.rest.rest.rest, w, 11) == Some(48);
    assert Step(Word("id:"), w, 8) == Some(11) && Match(p.rest.rest, w, 8) == Some(48);
    assert Step(Blanks(true), w, 7) == Some(8) && Match(p.rest, w, 7) == Some(48);
    assert Step(Word("session"), w, 0) == Some(7) && Match(p, w, 0) == Some(48);
  }

  /** An id that a digit continues to a longer word is not named. */
  lemma LongerWordNamesNoId(id: string)
    requires IsUuid(id)
    ensures NamesNoId(LABEL + id + REST)
  {
    NoHyphens();
    var text := LABEL + id + REST;
    assert |text| == 63 && text[48] == REST[0] == '0';
    forall f: Form, i: nat | i <= |text| && Match(PatternOf(f), text, i).Some? ensures !Matches(f, text, i) {
      FormsEndInUuid(f);
      var u := MatchEndsInUuid(PatternOf(f), Closing(f), text, i);
      OnlyUuid(LABEL, id, REST, u);
      ClosedByNothing(f, text);
    }
  }

  /** No form begins with the id itself. */
  lemma BareIdNamesNoId(id: string)
    requires IsUuid(id)
    ensures NamesNoId(id)
  {
    if f: Form, i: nat :| Matches(f, id, i) {
      FormsBeginBefore(f, id, i);
      assert false;
    }
  }

  /** At the front of every form is a letter or a quote that no id has. */
  lemma FormsBeginBefore(f: Form, id: string, i: nat)
    requires IsUuid(id) && i <= |id|
    ensures Match(PatternOf(f), id, i).None?
  {
    NoSuchWord(id, i, "session");
    NoSuchWord(id, i, "\"");
    NoSuchWord(id, i, "session_id");
    NoSuchWord(id, i, "sessionid");
  }

  lemma NoSuchWord(id: string, i: nat, w: string)
    requires IsUuid(id) && w != "" && (w[0] == 's' || w[0] == '"')
    ensures !At(id, i, w)
  {
    if i < |id| {
      assert IsUuidChar(i, id[i]);
    }
    if i + |w| <= |id| {
      assert LowerAll(id[i..i + |w|])[0] == Lower(id[i]);
    }
  }

  /** A digit neither closes the quoted form nor is a boundary of the others. */
  lemma ClosedByNothing(f: Form, text: string)
    requires |text| > 48 && text[48] == '0'
    ensures f.Quoted? ==> Match(Closing(f), text, 48).None?
    ensures !f.Quoted? ==> Match(Closing(f), text, 48) == Some(48)
  {
    assert text[48..49][0] == '0';
  }

  // Scans that capture an id which no output names.

  /** The scan keeps the id of a chunk, which the next one continues to a longer word. */
  lemma CutChunkCaptures(id: string, before: seq<string>, pre: string)
    requires IsUuid(id) && '-' !in pre && (pre == "" || !IsWordChar(pre[|pre| - 1])) && |pre| < 100
    requires Concat(before) == pre
    ensures ScanAll(START, before + [LABEL + id, REST]).captured == Some(LowerAll(id))
  {
    NoHyphens();
    var all := before + [LABEL + id] + [REST];
    assert before + [LABEL + id, REST] == all;
    ScanOneMore(before, LABEL + id);
    ScanOneMore(before + [LABEL + id], REST);
    ConcatSplit(before, [LABEL + id]);
    ConcatOne(LABEL + id);
    ConcatSplit(before + [LABEL + id], [REST]);
    ConcatOne(REST);
    assert pre + (LABEL + id) == pre + LABEL + id;
    LabelNamesId(pre, id);
    assert pre + LABEL + id + REST == (pre + LABEL) + id + REST;
    NamesAtMost(pre + LABEL, id, REST);
  }

  /** One chunk more, as long as the window holds everything. */
  lemma ScanOneMore(chunks: seq<string>, chunk: string)
    ensures |Concat(chunks + [chunk])| <= WINDOW ==>
              var s := Extract(Concat(chunks + [chunk]));
              ScanAll(START, chunks + [chunk]).captured == if s.Some? then s else ScanAll(START, chunks).captured
  {
    assert (chunks + [chunk])[..|chunks|] == chunks;
    BufferIsTail(chunks + [chunk]);
  }
}
