// The titles of submissions: what is stored when none is given, and what that means for the detection of
// duplicates, which compares the stored titles.

module TextEnds {
  import opened JsText
  import opened DuplicateText

  // White space at the ends does not matter to the normal form.

  lemma {:induction false} TrimStartOfMore(s: string, c: char)
    requires IsSpace(c)
    ensures TrimStart(s + [c]) == if TrimStart(s) == "" then "" else TrimStart(s) + [c]
  {
    if s == "" {
      assert s + [c] == [c];
    } else if IsSpace(s[0]) {
      TrimStartOfMore(s[1..], c);
      assert (s + [c])[1..] == s[1..] + [c];
    }
  }

  lemma TrimDropsLast(s: string, c: char)
    requires IsSpace(c)
    ensures Trim(s + [c]) == Trim(s)
  {
    TrimStartOfMore(s, c);
    var t := TrimStart(s);
    assert (t + [c])[..|t|] == t;
  }

  lemma TrimDropsFirst(c: char, s: string)
    requires IsSpace(c)
    ensures Trim([c] + s) == Trim(s)
  {
    assert ([c] + s)[1..] == s;
  }

  lemma FirstIndex(s: string, c: char, k: nat)
    requires k < |s| && s[k] == c && c !in s[..k]
    ensures IndexOf(s, c) == k
  {
  }

  lemma SplitFirst(l: string, s: string)
    requires '\n' !in l
    ensures SplitLines(l + "\n" + s) == [l] + SplitLines(s)
  {
    var t := l + "\n" + s;
    assert t[..|l|] == l && t[|l|] == '\n' && t[|l| + 1..] == s;
    FirstIndex(t, '\n', |l|);
  }

  lemma SplitNone(l: string)
    requires '\n' !in l
    ensures SplitLines(l) == [l]
  {
  }

  /** A text is one line, or a line and a text. */
  lemma Lined(s: string) returns (l: string, rest: string)
    requires '\n' in s
    ensures '\n' !in l && s == l + "\n" + rest && |rest| < |s|
  {
    var i := IndexOf(s, '\n');
    l, rest := s[..i], s[i + 1..];
  }

  /** The lines of a text, each in its normal form. */
  function Evened(s: string): string {
    JoinLines(NormalizeLines(SplitLines(s)))
  }

  lemma EvenedFirst(l: string, s: string)
    requires '\n' !in l
    ensures Evened(l + "\n" + s) == NormalizeLine(l) + "\n" + Evened(s)
  {
    SplitFirst(l, s);
    var ls := SplitLines(l + "\n" + s);
    assert ls[1..] == SplitLines(s);
    assert NormalizeLines(ls) == [NormalizeLine(l)] + NormalizeLines(SplitLines(s));
    assert NormalizeLines(ls)[1..] == NormalizeLines(SplitLines(s));
  }

  lemma EvenedLine(l: string)
    requires '\n' !in l
    ensures Evened(l) == NormalizeLine(l)
  {
    SplitNone(l);
    assert NormalizeLines([l]) == [NormalizeLine(l)];
  }

  lemma {:induction false} DropBlanksOfMore(s: string, c: char)
    requires IsBlank(c)
    ensures DropBlanks(s + [c]) == if DropBlanks(s) == "" then "" else DropBlanks(s) + [c]
  {
    if s == "" {
      assert s + [c] == [c];
    } else if IsBlank(s[0]) {
      DropBlanksOfMore(s[1..], c);
      assert (s + [c])[1..] == s[1..] + [c];
    }
  }

  lemma {:induction false} CollapseMore(l: string, c: char)
    requires IsBlank(c)
    ensures CollapseBlanks(l + [c]) == CollapseBlanks(l) || CollapseBlanks(l + [c]) == CollapseBlanks(l) + " "
    decreases |l|
  {
    if l == "" {
      assert l + [c] == [c];
    } else {
      assert (l + [c])[1..] == l[1..] + [c];
      if IsBlank(l[0]) {
        DropBlanksOfMore(l[1..], c);
        CollapseMore(DropBlanks(l[1..]), c);
      } else {
        CollapseMore(l[1..], c);
      }
    }
  }

  lemma LineDropsLast(l: string, c: char)
    requires IsBlank(c)
    ensures NormalizeLine(l + [c]) == NormalizeLine(l)
  {
    CollapseMore(l, c);
    TrimDropsLast(CollapseBlanks(l), ' ');
  }

  lemma LineDropsFirst(c: char, l: string)
    requires IsBlank(c)
    ensures NormalizeLine([c] + l) == NormalizeLine(l)
  {
    assert ([c] + l)[1..] == l;
    TrimDropsFirst(' ', CollapseBlanks(DropBlanks(l)));
    if l != "" && IsBlank(l[0]) {
      assert DropBlanks(l) == DropBlanks(l[1..]);
    }
  }

  lemma {:induction false} EvenedDropsBlank(s: string, c: char)
    requires IsBlank(c)
    ensures Evened(s + [c]) == Evened(s)
    decreases |s|
  {
    if '\n' in s {
      var l, rest := Lined(s);
      EvenedDropsBlank(rest, c);
      EvenedFirst(l, rest);
      EvenedFirst(l, rest + [c]);
      assert s + [c] == l + "\n" + (rest + [c]);
    } else {
      EvenedLine(s);
      EvenedLine(s + [c]);
      LineDropsLast(s, c);
    }
  }

  lemma EvenedDropsFirst(c: char, s: string)
    requires IsBlank(c)
    ensures Evened([c] + s) == Evened(s)
  {
    if '\n' in s {
      var l, rest := Lined(s);
      assert [c] + s == ([c] + l) + "\n" + rest;
      LineDropsFirst(c, l);
      SameFirst([c] + l, l, rest);
    } else {
      EvenedLine(s);
      EvenedLine([c] + s);
      LineDropsFirst(c, s);
    }
  }

  lemma SameFirst(k: string, l: string, rest: string)
    requires '\n' !in k && '\n' !in l && NormalizeLine(k) == NormalizeLine(l)
    ensures Evened(k + "\n" + rest) == Evened(l + "\n" + rest)
  {
    EvenedFirst(l, rest);
    EvenedFirst(k, rest);
  }

  lemma {:induction false} EvenedOfBreak(s: string)
    ensures Evened(s + "\n") == Evened(s) + "\n"
    decreases |s|
  {
    if '\n' in s {
      var l, rest := Lined(s);
      EvenedOfBreak(rest);
      assert s + "\n" == l + "\n" + (rest + "\n");
      BreakAfterFirst(l, rest);
    } else {
      BreakAfterLine(s);
    }
  }

  lemma BreakAfterLine(l: string)
    requires '\n' !in l
    ensures Evened(l + "\n") == Evened(l) + "\n"
  {
    EvenedLine(l);
    EvenedLine("");
    EvenedFirst(l, "");
    assert l + "\n" + "" == l + "\n";
  }

  lemma BreakAfterFirst(l: string, rest: string)
    requires '\n' !in l && Evened(rest + "\n") == Evened(rest) + "\n"
    ensures Evened(l + "\n" + (rest + "\n")) == Evened(l + "\n" + rest) + "\n"
  {
    EvenedFirst(l, rest);
    EvenedFirst(l, rest + "\n");
  }

  lemma NewlinesOfPair(rest: string)
    ensures NormalizeNewlines("\r\n" + rest) == "\n" + NormalizeNewlines(rest)
  {
    assert ("\r\n" + rest)[2..] == rest;
  }

  lemma NewlinesOfOne(c: char, rest: string)
    requires !(c == '\r' && rest != "" && rest[0] == '\n')
    ensures NormalizeNewlines([c] + rest) == [if c == '\r' then '\n' else c] + NormalizeNewlines(rest)
  {
    assert ([c] + rest)[1..] == rest;
  }

  /** What one more character at the end adds. */
  function Ending(s: string, c: char): string {
    if c == '\r' then "\n" else if c == '\n' && s != "" && s[|s| - 1] == '\r' then "" else [c]
  }

  lemma MoreAfterPair(rest: string, c: char)
    requires NormalizeNewlines(rest + [c]) == NormalizeNewlines(rest) + Ending(rest, c)
    ensures NormalizeNewlines("\r\n" + rest + [c]) == NormalizeNewlines("\r\n" + rest) + Ending("\r\n" + rest, c)
  {
    NewlinesOfPair(rest);
    NewlinesOfPair(rest + [c]);
    assert "\r\n" + rest + [c] == "\r\n" + (rest + [c]);
  }

  lemma MoreAfterOne(a: char, rest: string, c: char)
    requires !(a == '\r' && (rest + [c])[0] == '\n')
    requires NormalizeNewlines(rest + [c]) == NormalizeNewlines(rest) + Ending(rest, c)
    ensures NormalizeNewlines([a] + rest + [c]) == NormalizeNewlines([a] + rest) + Ending([a] + rest, c)
  {
    NewlinesOfOne(a, rest);
    NewlinesOfOne(a, rest + [c]);
    assert [a] + rest + [c] == [a] + (rest + [c]);
  }

  lemma {:induction false} NewlinesOfMore(s: string, c: char)
    ensures NormalizeNewlines(s + [c]) == NormalizeNewlines(s) + Ending(s, c)
    decreases |s|
  {
    if s == "" {
      NewlinesOfOne(c, "");
      assert s + [c] == [c] + "";
    } else if s[0] == '\r' && |s| > 1 && s[1] == '\n' {
      NewlinesOfMore(s[2..], c);
      MoreAfterPair(s[2..], c);
      assert s == "\r\n" + s[2..];
    } else if s == "\r" && c == '\n' {
      PairOfMore();
    } else {
      NewlinesOfMore(s[1..], c);
      MoreAfterOne(s[0], s[1..], c);
      assert s == [s[0]] + s[1..];
    }
  }

  lemma PairOfMore()
    ensures NormalizeNewlines("\r" + ['\n']) == NormalizeNewlines("\r") + Ending("\r", '\n')
  {
    NewlinesOfPair("");
    NewlinesOfOne('\r', "");
    assert "\r" + ['\n'] == "\r\n" + "" && "\r" == ['\r'] + "";
  }

  lemma NormalDropsLast(s: string, c: char)
    requires IsSpace(c)
    ensures NormalizeDuplicateText(s + [c]) == NormalizeDuplicateText(s)
  {
    var t := NormalizeNewlines(s);
    NewlinesOfMore(s, c);
    assert t + "" == t;
    if c == '\r' || c == '\n' {
      EvenedOfBreak(t);
      TrimDropsLast(Evened(t), '\n');
    } else {
      EvenedDropsBlank(t, c);
    }
  }

  lemma NormalDropsFirst(c: char, s: string)
    requires IsSpace(c)
    ensures NormalizeDuplicateText([c] + s) == NormalizeDuplicateText(s)
  {
    var t := NormalizeNewlines(s);
    assert ([c] + s)[1..] == s;
    if c == '\r' && s != "" && s[0] == '\n' {
      assert ([c] + s)[2..] == s[1..];
    } else if c == '\r' || c == '\n' {
      EvenedFirst("", t);
      assert "" + "\n" + t == "\n" + t && NormalizeLine("") + "\n" == "\n";
      TrimDropsFirst('\n', Evened(t));
    } else {
      EvenedDropsFirst(c, t);
    }
  }

  lemma {:induction false} TrimStartKeepsNormalForm(s: string)
    ensures NormalizeDuplicateText(TrimStart(s)) == NormalizeDuplicateText(s)
  {
    if s != "" && IsSpace(s[0]) {
      TrimStartKeepsNormalForm(s[1..]);
      NormalDropsFirst(s[0], s[1..]);
      assert [s[0]] + s[1..] == s;
    }
  }

  lemma {:induction false} TrimEndKeepsNormalForm(s: string)
    ensures NormalizeDuplicateText(TrimEnd(s)) == NormalizeDuplicateText(s)
  {
    if s != "" && IsSpace(s[|s| - 1]) {
      TrimEndKeepsNormalForm(s[..|s| - 1]);
      NormalDropsLast(s[..|s| - 1], s[|s| - 1]);
      assert s[..|s| - 1] + [s[|s| - 1]] == s;
    }
  }

  /** Trimming a text, as is done to titles before they are stored, keeps its normal form. */
  lemma TrimKeepsNormalForm(s: string)
    ensures NormalizeDuplicateText(Trim(s)) == NormalizeDuplicateText(s)
  {
    TrimStartKeepsNormalForm(s);
    TrimEndKeepsNormalForm(TrimStart(s));
  }
}

module IntakeTitles {
  import opened JsText
  import opened DuplicateText
  import opened TextEnds
  import opened Intake

  /** The first line of a text that is not blank, trimmed. */
  function FirstText(s: string): string {
    FirstLine(SplitLines(s))
  }

  lemma FirstTextOfFirst(l: string, s: string)
    requires '\n' !in l
    ensures FirstText(l + "\n" + s) == if Trim(l) != "" then Trim(l) else FirstText(s)
  {
    SplitFirst(l, s);
    assert ([l] + SplitLines(s))[1..] == SplitLines(s);
  }

  lemma FirstTextOfLine(l: string)
    requires '\n' !in l
    ensures FirstText(l) == Trim(l)
  {
    SplitNone(l);
    assert [l][1..] == [] && FirstLine([]) == "";
  }

  lemma FirstTextDropsFirst(c: char, s: string)
    requires IsSpace(c)
    ensures FirstText([c] + s) == FirstText(s)
  {
    if c == '\n' {
      FirstTextOfFirst("", s);
      assert "" + "\n" + s == [c] + s;
    } else if '\n' in s {
      var l, rest := Lined(s);
      assert [c] + s == ([c] + l) + "\n" + rest;
      TrimDropsFirst(c, l);
      SameFirstText([c] + l, l, rest);
    } else {
      FirstTextOfLine(s);
      FirstTextOfLine([c] + s);
      TrimDropsFirst(c, s);
    }
  }

  lemma SameFirstText(k: string, l: string, rest: string)
    requires '\n' !in k && '\n' !in l && Trim(k) == Trim(l)
    ensures FirstText(k + "\n" + rest) == FirstText(l + "\n" + rest)
  {
    FirstTextOfFirst(k, rest);
    FirstTextOfFirst(l, rest);
  }

  lemma {:induction false} FirstTextDropsLast(s: string, c: char)
    requires IsSpace(c)
    ensures FirstText(s + [c]) == FirstText(s)
    decreases |s|
  {
    if '\n' in s {
      var l, rest := Lined(s);
      FirstTextDropsLast(rest, c);
      FirstTextOfFirst(l, rest);
      FirstTextOfFirst(l, rest + [c]);
      assert s + [c] == l + "\n" + (rest + [c]);
    } else if c == '\n' {
      FirstTextOfLine(s);
      FirstTextOfFirst(s, "");
      FirstTextOfLine("");
      assert s + [c] == s + "\n" + "";
    } else {
      FirstTextOfLine(s);
      FirstTextOfLine(s + [c]);
      TrimDropsLast(s, c);
    }
  }

  lemma {:induction false} FirstTextOfTrimStart(s: string)
    ensures FirstText(TrimStart(s)) == FirstText(s)
  {
    if s != "" && IsSpace(s[0]) {
      FirstTextOfTrimStart(s[1..]);
      FirstTextDropsFirst(s[0], s[1..]);
      assert [s[0]] + s[1..] == s;
    }
  }

  lemma {:induction false} FirstTextOfTrimEnd(s: string)
    ensures FirstText(TrimEnd(s)) == FirstText(s)
  {
    if s != "" && IsSpace(s[|s| - 1]) {
      FirstTextOfTrimEnd(s[..|s| - 1]);
      FirstTextDropsLast(s[..|s| - 1], s[|s| - 1]);
      assert s[..|s| - 1] + [s[|s| - 1]] == s;
    }
  }

  lemma FirstTextOfTrim(s: string)
    ensures FirstText(Trim(s)) == FirstText(s)
  {
    FirstTextOfTrimStart(s);
    FirstTextOfTrimEnd(TrimStart(s));
  }

  predicate OneLine(s: string) {
    '\n' !in s && '\r' !in s
  }

  /** The normal form of a line is that of the line as a text. */
  lemma NormalOfLine(l: string)
    requires OneLine(l)
    ensures NormalizeDuplicateText(l) == NormalizeLine(l)
  {
    NewlinesOfClean(l);
    EvenedLine(l);
    LineShape(l);
    TrimOfTrimmed(NormalizeLine(l));
  }

  lemma TrimIsOneLine(l: string)
    requires OneLine(l)
    ensures OneLine(Trim(l))
  {
    var i, j := TrimShape(l);
  }

  lemma NormalOfTrimmedLine(l: string)
    requires OneLine(l)
    ensures NormalizeLine(Trim(l)) == NormalizeLine(l)
  {
    TrimKeepsNormalForm(l);
    NormalOfLine(l);
    TrimIsOneLine(l);
    NormalOfLine(Trim(l));
  }

  lemma {:induction false} TrimEndOfText(s: string)
    requires s != "" && !IsSpace(s[0])
    ensures TrimEnd(s) != ""
    decreases |s|
  {
    if IsSpace(s[|s| - 1]) {
      TrimEndOfText(s[..|s| - 1]);
    }
  }

  /** Exactly the blank lines have an empty normal form. */
  lemma BlankLineExactly(l: string)
    requires OneLine(l)
    ensures NormalizeLine(l) == "" <==> Trim(l) == ""
  {
    NormalOfTrimmedLine(l);
    var t := Trim(l);
    var i, j := TrimShape(l);
    TrimIsOneLine(l);
    CollapseShape(t);
    if t != "" {
      TrimEndOfText(CollapseBlanks(t));
    }
  }

  /** The first text of the lines of a text in their normal form is that of its first text. */
  lemma {:induction false} FirstTextOfEvened(s: string)
    requires '\r' !in s
    ensures FirstText(Evened(s)) == NormalizeLine(FirstText(s))
    decreases |s|
  {
    if '\n' in s {
      var l, rest := Lined(s);
      assert '\r' !in l && '\r' !in rest;
      EvenedFirst(l, rest);
      FirstTextOfFirst(l, rest);
      FirstTextOfEvened(rest);
      FirstOfLine(l);
      FirstTextOfFirst(NormalizeLine(l), Evened(rest));
    } else {
      EvenedLine(s);
      FirstTextOfLine(s);
      FirstOfLine(s);
      FirstTextOfLine(NormalizeLine(s));
    }
  }

  lemma FirstOfLine(l: string)
    requires OneLine(l)
    ensures var n := NormalizeLine(l);
            '\n' !in n && Trim(n) == n == NormalizeLine(Trim(l)) && (n == "" <==> Trim(l) == "")
  {
    LineShape(l);
    TrimOfTrimmed(NormalizeLine(l));
    NormalOfTrimmedLine(l);
    BlankLineExactly(l);
  }

  /** Every carriage return belongs to a line ending of two characters. */
  predicate NoLoneReturn(s: string) {
    forall i | 0 <= i < |s| && s[i] == '\r' :: i + 1 < |s| && s[i + 1] == '\n'
  }

  lemma {:induction false} NewlinesOfFirst(l: string, s: string)
    requires '\r' !in l
    ensures NormalizeNewlines(l + s) == l + NormalizeNewlines(s)
    decreases |l|
  {
    if l == "" {
      assert l + s == s;
    } else {
      NewlinesOfFirst(l[1..], s);
      assert (l + s)[1..] == l[1..] + s;
      assert l + NormalizeNewlines(s) == [l[0]] + (l[1..] + NormalizeNewlines(s));
    }
  }

  lemma NoLoneReturnAfter(s: string, n: nat)
    requires NoLoneReturn(s) && n <= |s|
    ensures NoLoneReturn(s[n..])
  {
    forall i | 0 <= i < |s| - n && s[n..][i] == '\r' ensures i + 1 < |s| - n && s[n..][i + 1] == '\n' {
      assert s[i + n] == '\r';
    }
  }

  lemma ReturnIsFollowed(s: string, i: nat, n: nat)
    requires NoLoneReturn(s) && i < |s| && s[i] == '\r' && n <= |s|
    ensures i + 1 < |s| && (i + 1 < n ==> '\n' in s[..n]) && '\n' in s
  {
    assert s[i + 1] in s;
    assert i + 1 < n ==> s[..n][i + 1] == '\n' && s[..n][i + 1] in s[..n];
  }

  lemma NoReturnWithin(s: string, n: nat)
    requires NoLoneReturn(s) && n < |s|
    ensures '\r' in s[..n] ==> '\n' in s[..n + 1]
  {
    if '\r' in s[..n] {
      var i :| 0 <= i < n && s[..n][i] == '\r';
      ReturnIsFollowed(s, i, n + 1);
    }
  }

  /** A first line, without its carriage return. */
  lemma FirstEnding(l: string, rest: string) returns (k: string)
    requires '\n' !in l && NoLoneReturn(l + "\n" + rest)
    ensures OneLine(k) && Trim(k) == Trim(l) && NoLoneReturn(rest)
    ensures NormalizeNewlines(l + "\n" + rest) == k + "\n" + NormalizeNewlines(rest)
  {
    var s, n := l + "\n" + rest, |l| + 1;
    NoLoneReturnAfter(s, n);
    assert s[n..] == rest;
    k := l;
    if l != "" {
      var m := |l| - 1;
      assert s[..m + 1] == l && s[..m] == l[..m];
      NoReturnWithin(s, m);
      if l[m] == '\r' {
        k := l[..m];
        TrimDropsLast(k, '\r');
        assert l == k + ['\r'];
      }
    }
    EndingIsBreak(k, rest);
  }

  lemma EndingIsBreak(k: string, rest: string)
    requires '\r' !in k
    ensures NormalizeNewlines(k + "\n" + rest) == k + "\n" + NormalizeNewlines(rest)
    ensures NormalizeNewlines(k + ['\r'] + "\n" + rest) == k + "\n" + NormalizeNewlines(rest)
  {
    NewlinesOfFirst(k, "\n" + rest);
    NewlinesOfFirst(k, "\r\n" + rest);
    assert ("\n" + rest)[1..] == rest && ("\r\n" + rest)[2..] == rest;
    assert k + "\n" + rest == k + ("\n" + rest) && k + ['\r'] + "\n" + rest == k + ("\r\n" + rest);
  }

  lemma {:induction false} FirstTextOfEndings(s: string)
    requires NoLoneReturn(s)
    ensures FirstText(NormalizeNewlines(s)) == FirstText(s)
    decreases |s|
  {
    if '\n' in s {
      var l, rest := Lined(s);
      var k := FirstEnding(l, rest);
      FirstTextOfEndings(rest);
      FirstTextOfFirst(l, rest);
      FirstTextOfFirst(k, NormalizeNewlines(rest));
    } else {
      if i :| 0 <= i < |s| && s[i] == '\r' {
        ReturnIsFollowed(s, i, |s|);
        assert false;
      }
      NewlinesOfClean(s);
    }
  }

  lemma {:induction false} FirstTextIsOneLine(s: string)
    requires '\r' !in s
    ensures OneLine(FirstText(s))
    decreases |s|
  {
    if '\n' in s {
      var l, rest := Lined(s);
      assert '\r' !in l && '\r' !in rest;
      FirstTextOfFirst(l, rest);
      FirstTextIsOneLine(rest);
      TrimIsOneLine(l);
    } else {
      FirstTextOfLine(s);
      TrimIsOneLine(s);
    }
  }

  /** Without lone carriage returns, the first text of the normal form is the normal form of the first text. */
  lemma FirstTextOfNormalForm(s: string)
    requires NoLoneReturn(s)
    ensures FirstText(NormalizeDuplicateText(s)) == NormalizeDuplicateText(FirstText(s))
  {
    var t := NormalizeNewlines(s);
    NoReturnLeft(s);
    FirstTextOfEndings(s);
    FirstTextOfEvened(t);
    FirstTextOfTrim(Evened(t));
    FirstTextIsOneLine(t);
    NormalOfLine(FirstText(t));
  }

  // Submitting again.

  /** What a submission stores, with the title it derives when none is given. */
  function Submitted(rows: seq<Row>, scope: Scope, fallback: string, title: string, body: string, status: string): (seq<Row>, Reply) {
    Submit(rows, scope, TitleFromInput(title, body, fallback), body, status)
  }

  /**
   * After a submission was accepted and is open, one whose body has the same normal form is refused exactly if
   * the stored titles have the same normal form, or an older open row says what it says.
   */
  lemma ResubmittedExactly(rows: seq<Row>, scope: Scope, fallback: string, title: string, body: string, status: string,
                           title': string, body': string, status': string)
    requires Submitted(rows, scope, fallback, title, body, status).1.Created? && status != "closed"
    requires NormalizeDuplicateText(body') == NormalizeDuplicateText(body)
    ensures var t, t' := TitleFromInput(title, body, fallback), TitleFromInput(title', body', fallback);
            var after := Submitted(rows, scope, fallback, title, body, status).0;
            Submitted(after, scope, fallback, title', body', status').1.Duplicate?
            <==> NormalizeDuplicateText(t') == NormalizeDuplicateText(t) || FindDuplicate(rows, scope, t', body').Some?
  {
    var t, t' := TitleFromInput(title, body, fallback), TitleFromInput(title', body', fallback);
    var after := Submitted(rows, scope, fallback, title, body, status).0;
    assert after[..|rows|] == rows && after == rows + [after[|rows|]];
    if FindDuplicate(rows, scope, t', body').Some? {
      var i :| 0 <= i < |rows| && Clashes(rows[i], scope, t', body');
      assert after[i] == rows[i];
    }
    assert Clashes(after[|rows|], scope, t', body') <==> NormalizeDuplicateText(t') == NormalizeDuplicateText(t);
  }

  /** With a title given both times, whatever the spacing and the line endings of titles and bodies, it is refused. */
  lemma GivenTitleIsRefused(rows: seq<Row>, scope: Scope, fallback: string, title: string, body: string, status: string,
                            title': string, body': string, status': string)
    requires Submitted(rows, scope, fallback, title, body, status).1.Created? && status != "closed"
    requires Trim(title) != "" && Trim(title') != "" && NormalizeDuplicateText(title') == NormalizeDuplicateText(title)
    requires NormalizeDuplicateText(body') == NormalizeDuplicateText(body)
    ensures var after := Submitted(rows, scope, fallback, title, body, status).0;
            Submitted(after, scope, fallback, title', body', status') == (after, Duplicate(NextId(rows)))
  {
    TrimKeepsNormalForm(title);
    TrimKeepsNormalForm(title');
    ResubmissionIsRefused(rows, scope, Trim(title), body, status, Trim(title'), body', status');
  }

  lemma {:induction false} FirstLineIsTrimmed(ls: seq<string>)
    ensures Trim(FirstLine(ls)) == FirstLine(ls)
  {
    if ls != [] {
      var i, j := TrimShape(ls[0]);
      TrimOfTrimmed(Trim(ls[0]));
      FirstLineIsTrimmed(ls[1..]);
    }
  }

  /** A text has a first text exactly if its normal form is not empty. */
  lemma FirstTextIsThere(s: string)
    requires NoLoneReturn(s)
    ensures FirstText(s) == "" <==> NormalizeDuplicateText(FirstText(s)) == ""
  {
    NoReturnLeft(s);
    FirstTextOfEndings(s);
    FirstTextIsOneLine(NormalizeNewlines(s));
    FirstLineIsTrimmed(SplitLines(s));
    NormalOfLine(FirstText(s));
    BlankLineExactly(FirstText(s));
  }

  /** No carriage return stands alone, and the title is not cut. */
  predicate Plain(body: string) {
    NoLoneReturn(body) && |FirstText(body)| <= TITLE_LIMIT
  }

  lemma SameDerivedTitle(fallback: string, body: string, body': string)
    requires NormalizeDuplicateText(body') == NormalizeDuplicateText(body)
    requires FirstText(body') == FirstText(body) || (Plain(body) && Plain(body'))
    ensures NormalizeDuplicateText(TitleFromBody(body', fallback)) == NormalizeDuplicateText(TitleFromBody(body, fallback))
  {
    if FirstText(body') != FirstText(body) {
      FirstTextOfNormalForm(body);
      FirstTextOfNormalForm(body');
      FirstTextIsThere(body);
      FirstTextIsThere(body');
    }
  }

  /**
   * With no title both times, it is refused if both bodies begin with the same line, or no carriage return stands
   * alone in them and their first lines are short enough not to be cut.
   */
  lemma OmittedTitleIsRefused(rows: seq<Row>, scope: Scope, fallback: string, title: string, body: string, status: string,
                              title': string, body': string, status': string)
    requires Submitted(rows, scope, fallback, title, body, status).1.Created? && status != "closed"
    requires Trim(title) == "" && Trim(title') == ""
    requires NormalizeDuplicateText(body') == NormalizeDuplicateText(body)
    requires FirstText(body') == FirstText(body) || (Plain(body) && Plain(body'))
    ensures var after := Submitted(rows, scope, fallback, title, body, status).0;
            Submitted(after, scope, fallback, title', body', status') == (after, Duplicate(NextId(rows)))
  {
    SameDerivedTitle(fallback, body, body');
    ResubmissionIsRefused(rows, scope, TitleFromBody(body, fallback), body, status, TitleFromBody(body', fallback), body', status');
  }

  lemma {:induction false} NoneAlone(s: string)
    requires '\r' !in s
    ensures NoLoneReturn(WithEndings(s, "\r\n"))
  {
    if s != "" {
      NoneAlone(s[1..]);
      var rest := WithEndings(s[1..], "\r\n");
      var first := if s[0] == '\n' then "\r\n" else [s[0]];
      NoneAloneBefore(first, rest);
    }
  }

  lemma NoneAloneBefore(first: string, rest: string)
    requires NoLoneReturn(first) && NoLoneReturn(rest)
    ensures NoLoneReturn(first + rest)
  {
    var t, n := first + rest, |first|;
    forall i | 0 <= i < |t| && t[i] == '\r' ensures i + 1 < |t| && t[i + 1] == '\n' {
      if i < n {
        assert first[i] == '\r';
      } else {
        assert rest[i - n] == '\r';
      }
    }
  }

  /** The CRLF version of a text has the same first text, so the same derived title, however long. */
  lemma CrlfKeepsFirstText(s: string)
    requires '\r' !in s
    ensures FirstText(WithEndings(s, "\r\n")) == FirstText(s)
  {
    NoneAlone(s);
    EndingsAreEqual(s, "\r\n");
    FirstTextOfEndings(WithEndings(s, "\r\n"));
  }

  // Bodies with one normal form that are both accepted when no title is given.

  lemma BothAccepted(scope: Scope, fallback: string, body: string, body': string)
    requires NormalizeDuplicateText(body') == NormalizeDuplicateText(body)
    requires NormalizeDuplicateText(TitleFromBody(body', fallback)) != NormalizeDuplicateText(TitleFromBody(body, fallback))
    ensures var once := Submitted([], scope, fallback, "", body, "").0;
            |once| == 1 && Submitted(once, scope, fallback, "", body', "").1 == Created(2)
  {
    ResubmittedExactly([], scope, fallback, "", body, "", "", body', "");
  }

  lemma CanonicalLineIsNormal(l: string)
    requires CanonicalLine(l)
    ensures NormalizeDuplicateText(l) == l && Trim(l) == l && OneLine(l) && FirstText(l) == l
  {
    FixpointsAreCanonical(l);
    TrimOfTrimmed(l);
    FirstTextOfLine(l);
  }

  lemma TwoLines(l: string, m: string)
    requires CanonicalLine(l) && CanonicalLine(m) && l != "" && m != ""
    ensures Canonical(l + "\n" + m)
  {
    SparseJoin(l, m);
  }

  lemma NewlinesOfReturn(m: string)
    requires OneLine(m)
    ensures NormalizeNewlines("\r" + m) == "\n" + m && NormalizeNewlines("\n" + m) == "\n" + m
  {
    NewlinesOfClean(m);
    assert ("\r" + m)[1..] == m && ("\n" + m)[1..] == m;
  }

  /** A lone carriage return is a line ending to the normal form. */
  lemma LoneReturnIsBreak(l: string, m: string)
    requires OneLine(l) && OneLine(m)
    ensures NormalizeDuplicateText(l + "\r" + m) == NormalizeDuplicateText(l + "\n" + m)
  {
    NewlinesOfReturn(m);
    assert NormalizeNewlines(l + "\r" + m) == l + ("\n" + m) by {
      NewlinesOfFirst(l, "\r" + m);
      assert l + ("\r" + m) == l + "\r" + m;
    }
    assert NormalizeNewlines(l + "\n" + m) == l + ("\n" + m) by {
      NewlinesOfFirst(l, "\n" + m);
      assert l + ("\n" + m) == l + "\n" + m;
    }
  }

  /** `a\nb` and `a\rb`: the first has the title `a`, the second is one line to the derivation of titles. */
  lemma LoneReturnIsAccepted(scope: Scope, fallback: string, l: string, m: string)
    requires CanonicalLine(l) && CanonicalLine(m) && l != "" && m != "" && |l| + |m| < TITLE_LIMIT
    ensures var body, body' := l + "\n" + m, l + "\r" + m;
            var once := Submitted([], scope, fallback, "", body, "").0;
            && NormalizeDuplicateText(body') == NormalizeDuplicateText(body)
            && |once| == 1 && Submitted(once, scope, fallback, "", body', "").1 == Created(2)
  {
    var body, body' := l + "\n" + m, l + "\r" + m;
    TwoLines(l, m);
    FirstTextOfFirst(l, m);
    FixpointsAreCanonical(body);
    CanonicalLineIsNormal(l);
    CanonicalLineIsNormal(m);
    LoneReturnIsBreak(l, m);
    assert body'[0] == l[0] && body'[|body'| - 1] == m[|m| - 1];
    TrimOfTrimmed(body');
    FirstTextOfLine(body');
    BothAccepted(scope, fallback, body, body');
  }

  lemma {:induction false} CollapseAfter(w: string, t: string)
    requires Sparse(w) && '\n' !in w && (w != "" ==> !IsSpace(w[|w| - 1]))
    ensures CollapseBlanks(w + t) == w + CollapseBlanks(t)
    decreases |w|
  {
    if w == "" {
      assert w + t == t;
    } else {
      var rest := w[1..];
      SparseSlice(w, 1, |w|);
      assert rest != "" ==> rest[|rest| - 1] == w[|w| - 1] && rest[0] == w[1];
      CollapseAfter(rest, t);
      CollapseOneMore(w[0], rest + t);
      assert w + t == [w[0]] + (rest + t);
      assert w + CollapseBlanks(t) == [w[0]] + (rest + CollapseBlanks(t));
    }
  }

  lemma CollapseOneMore(c: char, s: string)
    requires IsBlank(c) ==> c == ' ' && s != "" && !IsSpace(s[0])
    ensures CollapseBlanks([c] + s) == [c] + CollapseBlanks(s)
  {
    assert ([c] + s)[1..] == s;
  }

  lemma WideBlank(w: string, t: string)
    requires CanonicalLine(w) && w != "" && (t == " y" || t == "  y")
    ensures NormalizeDuplicateText(w + t) == w + " y" && FirstText(w + t) == w + t
  {
    var line := w + t;
    assert OneLine(w) && !IsSpace('y');
    assert OneLine(line);
    CollapseAfter(w, t);
    BlanksBeforeY();
    TrimOfTrimmed(line);
    TrimOfTrimmed(w + " y");
    NormalOfLine(line);
    FirstTextOfLine(line);
  }

  lemma BlanksAfter(w: string)
    requires CanonicalLine(w)
    ensures NormalizeDuplicateText(w + "  ") == w
  {
    CanonicalLineIsNormal(w);
    NormalDropsLast(w, ' ');
    NormalDropsLast(w + " ", ' ');
    assert w + " " + [' '] == w + "  ";
  }

  lemma BlanksBeforeY()
    ensures CollapseBlanks(" y") == " y" && CollapseBlanks("  y") == " y"
  {
    assert CollapseBlanks("y") == "y" by {
      assert "y"[1..] == "";
    }
    assert " y"[1..] == "y" && "  y"[1..] == " y" && DropBlanks("y") == "y" && DropBlanks(" y") == "y";
  }

  /** A first line of 80 characters, and one that is longer by a second blank, which moves the cut. */
  lemma CutTitleIsAccepted(scope: Scope, fallback: string, w: string)
    requires CanonicalLine(w) && |w| == TITLE_LIMIT - 2
    ensures var body, body' := w + "  y", w + " y";
            var once := Submitted([], scope, fallback, "", body, "").0;
            && NormalizeDuplicateText(body') == NormalizeDuplicateText(body)
            && |once| == 1 && Submitted(once, scope, fallback, "", body', "").1 == Created(2)
  {
    var body, body' := w + "  y", w + " y";
    WideBlank(w, "  y");
    WideBlank(w, " y");
    BlanksAfter(w);
    assert body[..TITLE_LIMIT] == w + "  ";
    BothAccepted(scope, fallback, body, body');
  }
}
