// Duplicate detection for requirements and feedback: a canonical form of texts, and the uniqueness of
// open submissions that it supports.

module DuplicateText {
  import opened JsText

  /** `replace(/\r\n?/g, '\n')`. */
  function NormalizeNewlines(s: string): string
    decreases |s|
  {
    if s == "" then ""
    else if s[0] == '\r' then "\n" + NormalizeNewlines(s[if |s| > 1 && s[1] == '\n' then 2 else 1..])
    else [s[0]] + NormalizeNewlines(s[1..])
  }

  predicate IsBlank(c: char) {
    IsSpace(c) && c != '\r' && c != '\n'
  }

  function DropBlanks(s: string): (t: string)
    ensures |t| <= |s|
  {
    if s != "" && IsBlank(s[0]) then DropBlanks(s[1..]) else s
  }

  /** `replace(/[^\S\r\n]+/g, ' ')`. */
  function CollapseBlanks(s: string): string
    decreases |s|
  {
    if s == "" then ""
    else if IsBlank(s[0]) then " " + CollapseBlanks(DropBlanks(s[1..]))
    else [s[0]] + CollapseBlanks(s[1..])
  }

  function NormalizeLine(line: string): string {
    Trim(CollapseBlanks(line))
  }

  function NormalizeLines(ls: seq<string>): (r: seq<string>)
    ensures |r| == |ls|
  {
    if ls == [] then [] else [NormalizeLine(ls[0])] + NormalizeLines(ls[1..])
  }

  function NormalizeDuplicateText(value: string): string {
    Trim(JoinLines(NormalizeLines(SplitLines(NormalizeNewlines(value)))))
  }

  // The canonical texts, described without the function that computes them.

  /** The only white space is blanks and line feeds, and only line feeds stand side by side. */
  ghost predicate Sparse(s: string) {
    && (forall i :: 0 <= i < |s| && IsSpace(s[i]) ==> s[i] == ' ' || s[i] == '\n')
    && (forall i :: 0 < i < |s| && IsSpace(s[i - 1]) && IsSpace(s[i]) ==> s[i - 1] == '\n' && s[i] == '\n')
  }

  ghost predicate Trimmed(s: string) {
    s == "" || (!IsSpace(s[0]) && !IsSpace(s[|s| - 1]))
  }

  ghost predicate Canonical(s: string) {
    Sparse(s) && Trimmed(s)
  }

  lemma {:induction false} TrimStartShape(s: string)
    ensures TrimStart(s) == s[|s| - |TrimStart(s)|..]
    ensures TrimStart(s) != "" ==> !IsSpace(TrimStart(s)[0])
  {
    if s != "" && IsSpace(s[0]) {
      TrimStartShape(s[1..]);
    }
  }

  lemma {:induction false} TrimEndShape(s: string)
    ensures TrimEnd(s) <= s
    ensures TrimEnd(s) != "" ==> !IsSpace(TrimEnd(s)[|TrimEnd(s)| - 1])
  {
    if s != "" && IsSpace(s[|s| - 1]) {
      TrimEndShape(s[..|s| - 1]);
    }
  }

  /** Trimming cuts a piece out of the text, and that piece is trimmed. */
  lemma TrimShape(s: string) returns (i: nat, j: nat)
    ensures i <= j <= |s| && Trim(s) == s[i..j] && Trimmed(Trim(s))
  {
    TrimStartShape(s);
    TrimEndShape(TrimStart(s));
    i := |s| - |TrimStart(s)|;
    j := i + |Trim(s)|;
    assert s[i..][..j - i] == s[i..j];
  }

  lemma TrimOfTrimmed(s: string)
    requires Trimmed(s)
    ensures Trim(s) == s
  {
  }

  lemma SparseSlice(s: string, i: nat, j: nat)
    requires Sparse(s) && i <= j <= |s|
    ensures Sparse(s[i..j])
  {
  }

  lemma {:induction false} NoReturnLeft(s: string)
    ensures '\r' !in NormalizeNewlines(s)
    decreases |s|
  {
    if s == "" {
    } else {
      NoReturnLeft(s[if s[0] == '\r' && |s| > 1 && s[1] == '\n' then 2 else 1..]);
    }
  }

  lemma {:induction false} NewlinesOfClean(s: string)
    requires '\r' !in s
    ensures NormalizeNewlines(s) == s
    decreases |s|
  {
    if s == "" {
    } else {
      NewlinesOfClean(s[1..]);
    }
  }

  lemma {:induction false} DropBlanksShape(s: string)
    requires '\n' !in s && '\r' !in s
    ensures var t := DropBlanks(s); '\n' !in t && '\r' !in t && (t != "" ==> !IsSpace(t[0]))
  {
    if s != "" && IsBlank(s[0]) {
      DropBlanksShape(s[1..]);
    }
  }

  /** Prepending a character keeps a text sparse when it is no white space, or a blank before none. */
  lemma SparseCons(c: char, s: string)
    requires Sparse(s)
    requires IsSpace(c) ==> c == ' ' && (s != "" ==> !IsSpace(s[0]))
    requires !IsSpace(c) || c == ' '
    ensures Sparse([c] + s)
  {
  }

  lemma {:induction false} CollapseShape(s: string)
    requires '\n' !in s && '\r' !in s
    ensures Sparse(CollapseBlanks(s)) && '\n' !in CollapseBlanks(s)
    ensures s != "" && !IsSpace(s[0]) ==> CollapseBlanks(s) != "" && CollapseBlanks(s)[0] == s[0]
    ensures s == "" ==> CollapseBlanks(s) == ""
    decreases |s|
  {
    if s == "" {
    } else {
      if IsBlank(s[0]) {
        DropBlanksShape(s[1..]);
        CollapseShape(DropBlanks(s[1..]));
        SparseCons(' ', CollapseBlanks(DropBlanks(s[1..])));
      } else {
        CollapseShape(s[1..]);
        SparseCons(s[0], CollapseBlanks(s[1..]));
      }
    }
  }

  /** A line of a canonical text. */
  ghost predicate CanonicalLine(l: string) {
    Canonical(l) && '\n' !in l
  }

  lemma LineShape(l: string)
    requires '\n' !in l && '\r' !in l
    ensures CanonicalLine(NormalizeLine(l))
  {
    CollapseShape(l);
    var i, j := TrimShape(CollapseBlanks(l));
    SparseSlice(CollapseBlanks(l), i, j);
  }

  lemma {:induction false} LinesShape(ls: seq<string>)
    requires forall i :: 0 <= i < |ls| ==> '\n' !in ls[i] && '\r' !in ls[i]
    ensures forall i :: 0 <= i < |ls| ==> CanonicalLine(NormalizeLines(ls)[i])
  {
    if ls == [] {
    } else {
      LineShape(ls[0]);
      LinesShape(ls[1..]);
    }
  }

  /** Two sparse texts joined by a line feed are sparse if no blank stands next to it. */
  lemma SparseJoin(a: string, b: string)
    requires CanonicalLine(a) && Sparse(b) && (b != "" ==> b[0] != ' ')
    ensures Sparse(a + "\n" + b)
  {
    var t := a + "\n" + b;
    forall k | 0 <= k < |t| && IsSpace(t[k]) ensures t[k] == ' ' || t[k] == '\n' {
      if k > |a| {
        assert t[k] == b[k - |a| - 1];
      }
    }
    forall k | 0 < k < |t| && IsSpace(t[k - 1]) && IsSpace(t[k]) ensures t[k - 1] == '\n' && t[k] == '\n' {
      if k < |a| {
        assert t[k - 1] == a[k - 1] && t[k] == a[k];
      } else if k > |a| + 1 {
        assert t[k - 1] == b[k - |a| - 2] && t[k] == b[k - |a| - 1];
      } else if k == |a| + 1 {
        assert t[k] == b[0];
      }
    }
  }

  lemma {:induction false} JoinShape(ls: seq<string>)
    requires |ls| > 0 && forall i :: 0 <= i < |ls| ==> CanonicalLine(ls[i])
    ensures Sparse(JoinLines(ls)) && (JoinLines(ls) != "" ==> JoinLines(ls)[0] != ' ')
  {
    if |ls| > 1 {
      JoinShape(ls[1..]);
      SparseJoin(ls[0], JoinLines(ls[1..]));
    }
  }

  lemma {:induction false} SplitKeepsClean(s: string)
    requires '\r' !in s
    ensures forall i :: 0 <= i < |SplitLines(s)| ==> '\r' !in SplitLines(s)[i]
    decreases |s|
  {
    var i := IndexOf(s, '\n');
    if i != -1 {
      SplitKeepsClean(s[i + 1..]);
    }
  }

  /** Every normal form is canonical. */
  lemma NormalFormIsCanonical(value: string)
    ensures Canonical(NormalizeDuplicateText(value))
  {
    NoReturnLeft(value);
    var ls := SplitLines(NormalizeNewlines(value));
    SplitKeepsClean(NormalizeNewlines(value));
    LinesShape(ls);
    var joined := JoinLines(NormalizeLines(ls));
    JoinShape(NormalizeLines(ls));
    var i, j := TrimShape(joined);
    SparseSlice(joined, i, j);
  }

  lemma {:induction false} CollapseOfSparse(l: string)
    requires Sparse(l) && '\n' !in l
    ensures CollapseBlanks(l) == l
    decreases |l|
  {
    if l == "" {
    } else {
      SparseSlice(l, 1, |l|);
      CollapseOfSparse(l[1..]);
      if IsBlank(l[0]) {
        assert |l| > 1 ==> !IsSpace(l[1..][0]);
        assert DropBlanks(l[1..]) == l[1..];
      }
    }
  }

  ghost predicate NoBlankEnds(s: string) {
    s != "" ==> s[0] != ' ' && s[|s| - 1] != ' '
  }

  lemma LineEndsOfSparse(s: string, n: nat)
    requires Sparse(s) && NoBlankEnds(s) && 0 < n <= |s| && '\n' !in s[..n]
    requires n < |s| ==> s[n] == '\n'
    ensures !IsSpace(s[0]) && !IsSpace(s[n - 1])
  {
  }

  lemma FirstLineOfSparse(s: string, n: nat)
    requires Sparse(s) && NoBlankEnds(s) && n <= |s| && '\n' !in s[..n]
    requires n < |s| ==> s[n] == '\n'
    ensures NormalizeLine(s[..n]) == s[..n]
  {
    SparseSlice(s, 0, n);
    assert s[0..n] == s[..n];
    CollapseOfSparse(s[..n]);
    if n > 0 {
      LineEndsOfSparse(s, n);
    }
    TrimOfTrimmed(s[..n]);
  }

  lemma RestOfSparse(s: string, i: nat)
    requires Sparse(s) && NoBlankEnds(s) && i < |s| && s[i] == '\n'
    ensures Sparse(s[i + 1..]) && NoBlankEnds(s[i + 1..])
  {
  }

  /** The lines of a sparse text with no blank at its ends are canonical, so nothing is to do for them. */
  lemma {:induction false} SplitOfSparse(s: string)
    requires Sparse(s) && NoBlankEnds(s)
    ensures NormalizeLines(SplitLines(s)) == SplitLines(s)
    decreases |s|
  {
    var i := IndexOf(s, '\n');
    if i == -1 {
      FirstLineOfSparse(s, |s|);
      assert s[..|s|] == s;
    } else {
      FirstLineOfSparse(s, i);
      RestOfSparse(s, i);
      SplitOfSparse(s[i + 1..]);
      assert SplitLines(s)[1..] == SplitLines(s[i + 1..]);
    }
  }

  /** The texts that normalisation leaves alone are exactly the canonical ones. */
  lemma FixpointsAreCanonical(s: string)
    ensures NormalizeDuplicateText(s) == s <==> Canonical(s)
  {
    if Canonical(s) {
      assert '\r' !in s;
      NewlinesOfClean(s);
      SplitOfSparse(s);
      JoinOfSplit(s);
      TrimOfTrimmed(s);
    } else {
      NormalFormIsCanonical(s);
    }
  }

  lemma Idempotent(value: string)
    ensures NormalizeDuplicateText(NormalizeDuplicateText(value)) == NormalizeDuplicateText(value)
  {
    NormalFormIsCanonical(value);
    FixpointsAreCanonical(NormalizeDuplicateText(value));
  }

  // Nothing but white space is changed.

  lemma {:induction false} InkOfNewlines(s: string)
    ensures Ink(NormalizeNewlines(s)) == Ink(s)
    decreases |s|
  {
    if s == "" {
    } else {
      var n := if s[0] == '\r' && |s| > 1 && s[1] == '\n' then 2 else 1;
      InkOfNewlines(s[n..]);
      InkJoined(s[..n], s[n..]);
      InkJoined(if s[0] == '\r' then "\n" else [s[0]], NormalizeNewlines(s[n..]));
      assert s == s[..n] + s[n..];
      InkOfEnding(s[..n]);
    }
  }

  lemma InkOfEnding(s: string)
    requires |s| == 1 || s == "\r\n"
    ensures Ink(s) == if IsSpace(s[0]) then "" else s
    ensures Ink("\n") == ""
  {
    if |s| == 1 {
      assert s[1..] == "" && s == [s[0]];
    } else {
      assert s[1..] == "\n" && "\n"[1..] == "";
    }
    assert "\n"[1..] == "";
  }

  lemma {:induction false} InkOfDropBlanks(s: string)
    ensures Ink(DropBlanks(s)) == Ink(s)
  {
    if s != "" && IsBlank(s[0]) {
      InkOfDropBlanks(s[1..]);
    }
  }

  lemma {:induction false} InkOfCollapse(s: string)
    ensures Ink(CollapseBlanks(s)) == Ink(s)
    decreases |s|
  {
    if s == "" {
    } else if IsBlank(s[0]) {
      var rest := CollapseBlanks(DropBlanks(s[1..]));
      InkOfDropBlanks(s[1..]);
      InkOfCollapse(DropBlanks(s[1..]));
      assert (" " + rest)[1..] == rest;
    } else {
      var rest := CollapseBlanks(s[1..]);
      InkOfCollapse(s[1..]);
      assert ([s[0]] + rest)[1..] == rest;
    }
  }

  lemma {:induction false} InkOfLines(ls: seq<string>)
    requires ls != []
    ensures Ink(JoinLines(NormalizeLines(ls))) == Ink(JoinLines(ls))
  {
    InkOfCollapse(ls[0]);
    InkOfTrim(CollapseBlanks(ls[0]));
    if |ls| > 1 {
      InkOfLines(ls[1..]);
      InkOfJoined(ls[0], JoinLines(ls[1..]));
      InkOfJoined(NormalizeLine(ls[0]), JoinLines(NormalizeLines(ls[1..])));
      assert NormalizeLines(ls)[1..] == NormalizeLines(ls[1..]);
    }
  }

  lemma InkOfJoined(l: string, s: string)
    ensures Ink(l + "\n" + s) == Ink(l) + Ink(s)
  {
    InkJoined(l, "\n" + s);
    assert l + ("\n" + s) == l + "\n" + s && ("\n" + s)[1..] == s;
  }

  /** Normalisation loses, adds and moves nothing but white space. */
  lemma NormalFormKeepsInk(value: string)
    ensures Ink(NormalizeDuplicateText(value)) == Ink(value)
  {
    var t := NormalizeNewlines(value);
    InkOfNewlines(value);
    JoinOfSplit(t);
    InkOfLines(SplitLines(t));
    InkOfTrim(JoinLines(NormalizeLines(SplitLines(t))));
  }

  /** A text whose lines end in `ending`. */
  function WithEndings(s: string, ending: string): string {
    if s == "" then ""
    else (if s[0] == '\n' then ending else [s[0]]) + WithEndings(s[1..], ending)
  }

  lemma {:induction false} EndingsAreEqual(s: string, ending: string)
    requires '\r' !in s && (ending == "\r\n" || ending == "\r")
    ensures NormalizeNewlines(WithEndings(s, ending)) == s
    ensures ending == "\r" ==> '\n' !in WithEndings(s, ending)
    decreases |s|
  {
    if s == "" {
    } else {
      var rest := WithEndings(s[1..], ending);
      EndingsAreEqual(s[1..], ending);
      var t := WithEndings(s, ending);
      if s[0] == '\n' {
        assert t == ending + rest;
        if ending == "\r" {
          assert rest != "" ==> rest[0] != '\n';
          assert t[1..] == rest;
        } else {
          assert t[0] == '\r' && t[1] == '\n' && t[2..] == rest;
        }
      } else {
        assert t[1..] == rest;
      }
      assert [s[0]] + s[1..] == s;
    }
  }

  /** The CRLF, CR and LF versions of a text have one normal form. */
  lemma LineEndingsDoNotMatter(s: string)
    requires '\r' !in s
    ensures NormalizeDuplicateText(WithEndings(s, "\r\n")) == NormalizeDuplicateText(s)
    ensures NormalizeDuplicateText(WithEndings(s, "\r")) == NormalizeDuplicateText(s)
  {
    EndingsAreEqual(s, "\r\n");
    EndingsAreEqual(s, "\r");
    NewlinesOfClean(s);
  }
}

module Intake {
  import opened JsText
  import opened DuplicateText

  const TITLE_LIMIT := 80

  /** What a submission is compared within. */
  datatype Scope = Requirement(projectId: int) | Feedback(projectId: int, requirementId: Option<int>)

  datatype Row = Row(id: nat, scope: Scope, title: string, body: string, status: string)

  datatype Reply = Created(id: nat) | Duplicate(existingId: nat) | NoSuchProject | NoSuchRequirement | ForeignRequirement

  predicate IsOpen(r: Row) {
    r.status != "closed"
  }

  function FirstLine(ls: seq<string>): string {
    if ls == [] then "" else if Trim(ls[0]) != "" then Trim(ls[0]) else FirstLine(ls[1..])
  }

  function TitleFromBody(body: string, fallback: string): string {
    var line := FirstLine(SplitLines(body));
    if line == "" then fallback else if |line| <= TITLE_LIMIT then line else line[..TITLE_LIMIT]
  }

  function TitleFromInput(title: string, body: string, fallback: string): string {
    if Trim(title) != "" then Trim(title) else TitleFromBody(body, fallback)
  }

  predicate SameText(r: Row, title: string, body: string) {
    && NormalizeDuplicateText(r.title) == NormalizeDuplicateText(title)
    && NormalizeDuplicateText(r.body) == NormalizeDuplicateText(body)
  }

  /** An open row of the scope with the same title and body. */
  predicate Clashes(r: Row, scope: Scope, title: string, body: string) {
    IsOpen(r) && r.scope == scope && SameText(r, title, body)
  }

  /** findDuplicateIntake on the rows of the query: the first clash in id order. */
  function FindDuplicate(rows: seq<Row>, scope: Scope, title: string, body: string): (d: Option<Row>)
    ensures d.Some? <==> exists i :: 0 <= i < |rows| && Clashes(rows[i], scope, title, body)
    ensures d.Some? ==> d.value in rows && Clashes(d.value, scope, title, body)
  {
    if rows == [] then None
    else if Clashes(rows[0], scope, title, body) then Some(rows[0])
    else
      var d := FindDuplicate(rows[1..], scope, title, body);
      assert forall i :: 0 < i < |rows| ==> rows[i] == rows[1..][i - 1];
      d
  }

  /** No two open submissions of a scope say the same. */
  ghost predicate Unique(rows: seq<Row>) {
    forall i, j :: 0 <= i < j < |rows| ==> !IsOpen(rows[j]) || !Clashes(rows[i], rows[j].scope, rows[j].title, rows[j].body)
  }

  function NextId(rows: seq<Row>): nat {
    if rows == [] then 1 else rows[|rows| - 1].id + 1
  }

  /** The check and the insert; a status that is empty means open. */
  function Submit(rows: seq<Row>, scope: Scope, title: string, body: string, status: string): (seq<Row>, Reply) {
    match FindDuplicate(rows, scope, title, body)
    case Some(d) => (rows, Duplicate(d.id))
    case None =>
      var r := Row(NextId(rows), scope, title, body, if status == "" then "open" else status);
      (rows + [r], Created(r.id))
  }

  function SetStatus(rows: seq<Row>, id: nat, status: string): (r: seq<Row>)
    ensures |r| == |rows|
    ensures forall i :: 0 <= i < |r| ==> r[i] == if rows[i].id == id then rows[i].(status := status) else rows[i]
  {
    if rows == [] then []
    else [if rows[0].id == id then rows[0].(status := status) else rows[0]] + SetStatus(rows[1..], id, status)
  }

  datatype Step = Submission(scope: Scope, title: string, body: string, status: string) | Closing(id: nat)

  function Apply(rows: seq<Row>, s: Step): seq<Row> {
    match s
    case Submission(scope, title, body, status) => Submit(rows, scope, title, body, status).0
    case Closing(id) => SetStatus(rows, id, "closed")
  }

  function Run(steps: seq<Step>): seq<Row> {
    if steps == [] then [] else Apply(Run(steps[..|steps| - 1]), steps[|steps| - 1])
  }

  lemma SubmitKeepsUnique(rows: seq<Row>, scope: Scope, title: string, body: string, status: string)
    requires Unique(rows)
    ensures Unique(Submit(rows, scope, title, body, status).0)
  {
    var after := Submit(rows, scope, title, body, status).0;
    forall i, j | 0 <= i < j < |after|
      ensures !IsOpen(after[j]) || !Clashes(after[i], after[j].scope, after[j].title, after[j].body)
    {
      if j < |rows| {
        assert after[i] == rows[i] && after[j] == rows[j];
      } else {
        assert after[i] == rows[i];
      }
    }
  }

  lemma CloseKeepsUnique(rows: seq<Row>, id: nat)
    requires Unique(rows)
    ensures Unique(SetStatus(rows, id, "closed"))
  {
  }

  /** Over any run of submissions and closings, no two open ones of a scope say the same. */
  lemma {:induction false} RunIsUnique(steps: seq<Step>)
    ensures Unique(Run(steps))
  {
    if steps == [] {
    } else {
      var rows := Run(steps[..|steps| - 1]);
      RunIsUnique(steps[..|steps| - 1]);
      match steps[|steps| - 1]
      case Submission(scope, title, body, status) => SubmitKeepsUnique(rows, scope, title, body, status);
      case Closing(id) => CloseKeepsUnique(rows, id);
    }
  }

  /** Identifiers grow from row to row. */
  ghost predicate Numbered(rows: seq<Row>) {
    forall i, j | 0 <= i < j < |rows| :: rows[i].id < rows[j].id
  }

  /** What is accepted is stored as given, open if no status is, under an identifier that no row has; a refusal stores nothing. */
  lemma AcceptedExactly(rows: seq<Row>, scope: Scope, title: string, body: string, status: string)
    requires Numbered(rows)
    ensures var (after, r) := Submit(rows, scope, title, body, status);
            && (r.Created? <==> forall i | 0 <= i < |rows| :: !Clashes(rows[i], scope, title, body))
            && (r.Created? ==> Numbered(after) && |after| == |rows| + 1 && after[..|rows|] == rows
                               && after[|rows|] == Row(r.id, scope, title, body, if status != "" then status else "open")
                               && forall i | 0 <= i < |rows| :: rows[i].id < r.id)
            && (!r.Created? ==> after == rows && r.Duplicate?
                                && exists i | 0 <= i < |rows| :: Clashes(rows[i], scope, title, body) && rows[i].id == r.existingId)
  {
  }

  lemma {:induction false} RunIsNumbered(steps: seq<Step>)
    ensures Numbered(Run(steps))
  {
    if steps == [] {
    } else {
      var before, last := Run(steps[..|steps| - 1]), steps[|steps| - 1];
      RunIsNumbered(steps[..|steps| - 1]);
      if last.Submission? {
        AcceptedExactly(before, last.scope, last.title, last.body, last.status);
      }
    }
  }

  /** Two submissions of one text leave one row; with a closing in between they leave two. */
  lemma CloseMakesRoom(scope: Scope, title: string, body: string)
    ensures var s := Submission(scope, title, body, "");
            && Run([s] + [s]) == [Row(1, scope, title, body, "open")]
            && Run([s] + [Closing(1)] + [s]) == [Row(1, scope, title, body, "closed"), Row(2, scope, title, body, "open")]
  {
    var s := Submission(scope, title, body, "");
    RunOneMore([], s);
    assert [] + [s] == [s] && Run([s]) == [Row(1, scope, title, body, "open")];
    RunOneMore([s], s);
    RunOneMore([s], Closing(1));
    assert Run([s] + [Closing(1)]) == [Row(1, scope, title, body, "closed")];
    RunOneMore([s] + [Closing(1)], s);
  }

  lemma RunOneMore(steps: seq<Step>, s: Step)
    ensures Run(steps + [s]) == Apply(Run(steps), s)
  {
    assert (steps + [s])[..|steps|] == steps;
  }

  /** The first line with text in it. */
  ghost predicate IsFirstText(body: string, i: nat) {
    var ls := SplitLines(body);
    i < |ls| && Trim(ls[i]) != "" && forall k | 0 <= k < i :: Trim(ls[k]) == ""
  }

  lemma {:induction false} FirstLineExactly(ls: seq<string>, i: nat)
    requires i < |ls| && Trim(ls[i]) != "" && forall k | 0 <= k < i :: Trim(ls[k]) == ""
    ensures FirstLine(ls) == Trim(ls[i])
  {
    if i > 0 {
      assert Trim(ls[0]) == "";
      FirstLineExactly(ls[1..], i - 1);
    }
  }

  lemma {:induction false} NoFirstLine(ls: seq<string>)
    requires forall k | 0 <= k < |ls| :: Trim(ls[k]) == ""
    ensures FirstLine(ls) == ""
  {
    if ls != [] {
      assert Trim(ls[0]) == "";
      NoFirstLine(ls[1..]);
    }
  }

  /**
   * The title that is stored: the given one without the white space at its ends, or if that is empty the first line
   * of the body with text, trimmed and cut after 80 characters, or else the fallback.
   */
  lemma TitleExactly(title: string, body: string, fallback: string)
    ensures var t := TitleFromInput(title, body, fallback);
            && (Trim(title) != "" ==> t == Trim(title))
            && (Trim(title) == "" ==>
                  && (forall i: nat | IsFirstText(body, i) ::
                        t == var l := Trim(SplitLines(body)[i]); if |l| > 80 then l[..80] else l)
                  && ((forall i: nat :: !IsFirstText(body, i)) ==> t == fallback))
  {
    var ls := SplitLines(body);
    if i: nat :| IsFirstText(body, i) {
      FirstLineExactly(ls, i);
      forall j: nat | IsFirstText(body, j) ensures j == i {
        assert !(i < j) && !(j < i);
      }
    } else {
      NothingFirst(body, |ls|);
      NoFirstLine(ls);
    }
  }

  lemma {:induction false} NothingFirst(body: string, n: nat)
    requires n <= |SplitLines(body)| && forall i: nat :: !IsFirstText(body, i)
    ensures forall k | 0 <= k < n :: Trim(SplitLines(body)[k]) == ""
  {
    if n > 0 {
      NothingFirst(body, n - 1);
      assert !IsFirstText(body, n - 1);
    }
  }

  /** Submitting again, whatever the line endings and the spacing, is refused and names an open row that says the same. */
  lemma ResubmissionIsRefused(rows: seq<Row>, scope: Scope, title: string, body: string, status: string,
                              title': string, body': string, status': string)
    requires Submit(rows, scope, title, body, status).1.Created? && status != "closed"
    requires NormalizeDuplicateText(title') == NormalizeDuplicateText(title)
    requires NormalizeDuplicateText(body') == NormalizeDuplicateText(body)
    ensures var after := Submit(rows, scope, title, body, status).0;
            Submit(after, scope, title', body', status') == (after, Duplicate(NextId(rows)))
  {
  }

  /**
   * Editing a row, which is not checked for duplicates, keeps uniqueness exactly when the row ends up
   * closed or no other open row of its scope says what it now says.
   */
  lemma EditKeepsUniqueExactly(rows: seq<Row>, k: nat, title: string, body: string, status: string)
    requires Unique(rows) && k < |rows|
    ensures Unique(rows[k := rows[k].(title := title, body := body, status := status)])
            <==> status == "closed"
                 || forall i :: 0 <= i < |rows| && i != k ==> !Clashes(rows[i], rows[k].scope, title, body)
  {
    var r := rows[k].(title := title, body := body, status := status);
    var after := rows[k := r];
    if status != "closed" && exists i :: 0 <= i < |rows| && i != k && Clashes(rows[i], rows[k].scope, title, body) {
      var i :| 0 <= i < |rows| && i != k && Clashes(rows[i], rows[k].scope, title, body);
      assert after[i] == rows[i] && after[k] == r;
      assert Clashes(after[if i < k then i else k], after[if i < k then k else i].scope,
                     after[if i < k then k else i].title, after[if i < k then k else i].body);
    } else {
      forall i, j | 0 <= i < j < |after|
        ensures !IsOpen(after[j]) || !Clashes(after[i], after[j].scope, after[j].title, after[j].body)
      {
        if i != k && j != k {
          assert after[i] == rows[i] && after[j] == rows[j];
        }
      }
    }
  }

  /** Such an edit: of two open rows with different bodies, the second is given the body of the first. */
  lemma EditMayDuplicate(scope: Scope, title: string, a: string, b: string)
    requires NormalizeDuplicateText(a) != NormalizeDuplicateText(b)
    ensures var rows := [Row(1, scope, title, a, "open"), Row(2, scope, title, b, "open")];
            Unique(rows) && !Unique(rows[1 := rows[1].(body := a)])
  {
    var rows := [Row(1, scope, title, a, "open"), Row(2, scope, title, b, "open")];
    assert Clashes(rows[0], scope, title, a);
    EditKeepsUniqueExactly(rows, 1, title, a, "open");
    assert rows[1].(title := title, body := a, status := "open") == rows[1].(body := a);
  }

  /** The project of the requirement with this id. */
  function ProjectOfRequirement(rows: seq<Row>, id: int): Option<int> {
    if rows == [] then None
    else if rows[0].id == id then Some(rows[0].scope.projectId)
    else ProjectOfRequirement(rows[1..], id)
  }

  /** Why feedback may not name this requirement, if so; 0 names none. */
  function WhyNotLinkable(rows: seq<Row>, projectId: int, requirementId: int): Option<Reply> {
    if requirementId == 0 then None
    else
      match ProjectOfRequirement(rows, requirementId)
      case None => Some(NoSuchRequirement)
      case Some(p) => if p != projectId then Some(ForeignRequirement) else None
  }

  lemma {:induction false} FirstWithId(rows: seq<Row>, id: int, i: nat)
    requires i < |rows| && rows[i].id == id && forall k | 0 <= k < i :: rows[k].id != id
    ensures ProjectOfRequirement(rows, id) == Some(rows[i].scope.projectId)
  {
    if i == 0 {
    } else {
      assert rows[0].id != id;
      forall k | 0 <= k < i - 1 ensures rows[1..][k].id != id {
        assert rows[k + 1].id != id;
      }
      FirstWithId(rows[1..], id, i - 1);
    }
  }

  lemma {:induction false} NoneWithId(rows: seq<Row>, id: int)
    requires forall k | 0 <= k < |rows| :: rows[k].id != id
    ensures ProjectOfRequirement(rows, id).None?
  {
    if rows == [] {
    } else {
      assert rows[0].id != id;
      forall k | 0 <= k < |rows| - 1 ensures rows[1..][k].id != id {
        assert rows[k + 1].id != id;
      }
      NoneWithId(rows[1..], id);
    }
  }

  /**
   * Among requirements with distinct ids, feedback may name none, or one that is there and belongs to the project;
   * one that is not there is refused as missing, one of another project as foreign.
   */
  lemma LinkableExactly(rows: seq<Row>, projectId: int, requirementId: int)
    requires forall i, j | 0 <= i < j < |rows| :: rows[i].id != rows[j].id
    ensures var why := WhyNotLinkable(rows, projectId, requirementId);
            && (why.None? <==> requirementId == 0
                               || exists i :: 0 <= i < |rows| && rows[i].id == requirementId && rows[i].scope.projectId == projectId)
            && (why == Some(NoSuchRequirement) <==> requirementId != 0 && forall i | 0 <= i < |rows| :: rows[i].id != requirementId)
            && (why == Some(ForeignRequirement)
                <==> requirementId != 0
                     && exists i :: 0 <= i < |rows| && rows[i].id == requirementId && rows[i].scope.projectId != projectId)
  {
    if i :| 0 <= i < |rows| && rows[i].id == requirementId {
      forall k | 0 <= k < i ensures rows[k].id != requirementId {
        assert rows[k].id != rows[i].id;
      }
      FirstWithId(rows, requirementId, i);
      forall k | 0 <= k < |rows| && rows[k].id == requirementId ensures k == i {
        assert k < i || k == i || i < k;
      }
    } else {
      NoneWithId(rows, requirementId);
    }
  }

  class IntakeService {
    var requirements: seq<Row>
    var feedback: seq<Row>
    var projects: set<int>

    ghost predicate Valid()
      reads this
    {
      Unique(requirements) && Unique(feedback)
    }

    constructor (projects: set<int>)
      ensures Valid() && this.projects == projects && requirements == [] && feedback == []
    {
      requirements, feedback, this.projects := [], [], projects;
    }

    method CreateRequirement(projectId: int, title: string, body: string, status: string) returns (r: Reply)
      requires Valid()
      modifies `requirements
      ensures Valid()
      ensures projectId == 0 || projectId !in projects ==> r == NoSuchProject && requirements == old(requirements)
      ensures projectId != 0 && projectId in projects ==>
                (requirements, r) == Submit(old(requirements), Requirement(projectId),
                                            TitleFromInput(title, body, "未命名需求"), body, status)
    {
      if projectId == 0 || projectId !in projects {
        return NoSuchProject;
      }
      var stored := TitleFromInput(title, body, "未命名需求");
      SubmitKeepsUnique(requirements, Requirement(projectId), stored, body, status);
      var duplicate := FindDuplicate(requirements, Requirement(projectId), stored, body);
      if duplicate.Some? {
        return Duplicate(duplicate.value.id);
      }
      var id := NextId(requirements);
      requirements := requirements + [Row(id, Requirement(projectId), stored, body, if status == "" then "open" else status)];
      return Created(id);
    }

    /** validRequirementId: 0 means no requirement. */
    method ValidRequirementId(projectId: int, requirementId: int) returns (r: Option<int>, error: Option<Reply>)
      ensures error == WhyNotLinkable(requirements, projectId, requirementId)
      ensures r == if requirementId == 0 || error.Some? then None else Some(requirementId)
    {
      if requirementId == 0 {
        return None, None;
      }
      for i := 0 to |requirements|
        invariant forall k | 0 <= k < i :: requirements[k].id != requirementId
      {
        if requirements[i].id == requirementId {
          FirstWithId(requirements, requirementId, i);
          if requirements[i].scope.projectId != projectId {
            return None, Some(ForeignRequirement);
          }
          return Some(requirementId), None;
        }
      }
      NoneWithId(requirements, requirementId);
      return None, Some(NoSuchRequirement);
    }

    method CreateFeedback(projectId: int, requirementId: int, title: string, body: string, status: string)
      returns (r: Reply)
      requires Valid()
      modifies `feedback
      ensures Valid()
      ensures projectId == 0 || projectId !in projects ==> r == NoSuchProject && feedback == old(feedback)
      ensures projectId != 0 && projectId in projects ==>
                match WhyNotLinkable(requirements, projectId, requirementId)
                case Some(error) => r == error && feedback == old(feedback)
                case None =>
                  (feedback, r) == Submit(old(feedback), Feedback(projectId, if requirementId == 0 then None else Some(requirementId)),
                                          TitleFromInput(title, body, "未命名反馈"), body, status)
    {
      if projectId == 0 || projectId !in projects {
        return NoSuchProject;
      }
      var requirement, error := ValidRequirementId(projectId, requirementId);
      if error.Some? {
        return error.value;
      }
      var scope := Feedback(projectId, requirement);
      var stored := TitleFromInput(title, body, "未命名反馈");
      SubmitKeepsUnique(feedback, scope, stored, body, status);
      var duplicate := FindDuplicate(feedback, scope, stored, body);
      if duplicate.Some? {
        return Duplicate(duplicate.value.id);
      }
      var id := NextId(feedback);
      feedback := feedback + [Row(id, scope, stored, body, if status == "" then "open" else status)];
      return Created(id);
    }
  }
}
