// The string operations of the JavaScript runtime that several components share.
// A Dafny char stands for one UTF-16 code unit.

module JsText {
  datatype Option<+T> = None | Some(value: T) {
    function UnwrapOr(fallback: T): T {
      if Some? then value else fallback
    }
  }

  /** The characters that `\s` and `trim` treat as white space, line terminators included. */
  predicate IsSpace(c: char) {
    || '\t' <= c <= '\r'
    || c == ' ' || c == '\U{a0}' || c == '\U{1680}'
    || '\U{2000}' <= c <= '\U{200a}'
    || c == '\U{2028}' || c == '\U{2029}' || c == '\U{202f}' || c == '\U{205f}'
    || c == '\U{3000}' || c == '\U{feff}'
  }

  predicate Blank(s: string) {
    forall k | 0 <= k < |s| :: IsSpace(s[k])
  }

  /** The small letter, or its capital. */
  predicate SameLetter(c: char, small: char) {
    c == small || ('A' <= c <= 'Z' && c as int - 'A' as int == small as int - 'a' as int)
  }

  function TrimStart(s: string): (t: string)
    ensures |t| <= |s|
  {
    if s != "" && IsSpace(s[0]) then TrimStart(s[1..]) else s
  }

  function TrimEnd(s: string): string {
    if s != "" && IsSpace(s[|s| - 1]) then TrimEnd(s[..|s| - 1]) else s
  }

  function Trim(s: string): string {
    TrimEnd(TrimStart(s))
  }

  /** `indexOf` of a single character: its first position, or -1. */
  function IndexOf(s: string, c: char): (i: int)
    ensures i == -1 ==> c !in s
    ensures i != -1 ==> 0 <= i < |s| && s[i] == c && c !in s[..i]
  {
    if s == "" then -1
    else if s[0] == c then 0
    else
      var i := IndexOf(s[1..], c);
      if i == -1 then -1
      else
        assert s[..i + 1] == [s[0]] + s[1..][..i];
        i + 1
  }

  /** `replace(/\r/g, '')`. */
  function StripCr(s: string): (t: string)
    ensures '\r' !in t
    ensures '\r' !in s ==> t == s
  {
    if s == "" then ""
    else if s[0] == '\r' then StripCr(s[1..])
    else [s[0]] + StripCr(s[1..])
  }

  /** `replace(/\s+/g, ' ')`: every run of white space becomes one blank. */
  function CollapseSpaces(s: string): string
    decreases |s|
  {
    if s == "" then ""
    else if IsSpace(s[0]) then " " + CollapseSpaces(TrimStart(s[1..]))
    else [s[0]] + CollapseSpaces(s[1..])
  }

  /** `split('\n')`: never empty, and the pieces hold no line feed. */
  function SplitLines(s: string): (ls: seq<string>)
    ensures |ls| > 0
    ensures forall i :: 0 <= i < |ls| ==> '\n' !in ls[i]
    decreases |s|
  {
    var i := IndexOf(s, '\n');
    if i == -1 then [s] else [s[..i]] + SplitLines(s[i + 1..])
  }

  /** `join('\n')`. */
  function JoinLines(ls: seq<string>): string
    requires |ls| > 0
  {
    if |ls| == 1 then ls[0] else ls[0] + "\n" + JoinLines(ls[1..])
  }

  lemma {:induction false} JoinOfSplit(s: string)
    ensures JoinLines(SplitLines(s)) == s
    decreases |s|
  {
    var i := IndexOf(s, '\n');
    if i != -1 {
      JoinOfSplit(s[i + 1..]);
      var ls := SplitLines(s);
      assert ls[1..] == SplitLines(s[i + 1..]);
      assert s == s[..i] + "\n" + s[i + 1..];
    }
  }

  /** The order of texts by their first difference, as SQL compares them. */
  predicate TextBefore(a: string, b: string) {
    b != "" && (a == "" || a[0] < b[0] || (a[0] == b[0] && TextBefore(a[1..], b[1..])))
  }

  /** The characters that are no white space. */
  function Ink(s: string): string {
    if s == "" then "" else (if IsSpace(s[0]) then "" else [s[0]]) + Ink(s[1..])
  }

  lemma {:induction false} InkJoined(a: string, b: string)
    ensures Ink(a + b) == Ink(a) + Ink(b)
  {
    if a == "" {
      assert a + b == b;
    } else {
      var first := if IsSpace(a[0]) then "" else [a[0]];
      InkJoined(a[1..], b);
      assert (a + b)[1..] == a[1..] + b;
      assert Ink(a + b) == first + (Ink(a[1..]) + Ink(b)) && Ink(a) == first + Ink(a[1..]);
    }
  }

  lemma {:induction false} InkOfTrimStart(s: string)
    ensures Ink(TrimStart(s)) == Ink(s)
  {
    if s != "" && IsSpace(s[0]) {
      InkOfTrimStart(s[1..]);
    }
  }

  lemma {:induction false} InkOfTrimEnd(s: string)
    ensures Ink(TrimEnd(s)) == Ink(s)
  {
    if s != "" && IsSpace(s[|s| - 1]) {
      var last := s[|s| - 1..];
      InkOfTrimEnd(s[..|s| - 1]);
      InkJoined(s[..|s| - 1], last);
      assert s == s[..|s| - 1] + last && last[1..] == "";
    }
  }

  lemma InkOfTrim(s: string)
    ensures Ink(Trim(s)) == Ink(s)
  {
    InkOfTrimStart(s);
    InkOfTrimEnd(TrimStart(s));
  }

  lemma {:induction false} InkOfBlank(s: string)
    ensures Ink(s) == "" <==> Blank(s)
  {
    if s != "" {
      InkOfBlank(s[1..]);
      assert s == [s[0]] + s[1..];
      if Blank(s) {
        assert forall k | 0 < k < |s| :: s[k] == s[1..][k - 1];
      }
    }
  }

  /** Exactly the blank texts are trimmed to nothing. */
  lemma BlankIsTrimmed(s: string)
    ensures Trim(s) == "" <==> Blank(s)
  {
    InkOfTrim(s);
    InkOfBlank(s);
    TrimIsInked(s);
  }

  lemma TrimIsInked(s: string)
    ensures Trim(s) != "" ==> Ink(Trim(s)) != ""
  {
    var t := Trim(s);
    TrimEndEndsInInk(TrimStart(s));
    if t != "" {
      InkJoined(t[..|t| - 1], t[|t| - 1..]);
      assert t == t[..|t| - 1] + t[|t| - 1..] && Ink(t[|t| - 1..]) == [t[|t| - 1]] + Ink("");
    }
  }

  lemma {:induction false} TrimEndEndsInInk(s: string)
    ensures var t := TrimEnd(s); t != "" ==> !IsSpace(t[|t| - 1])
  {
    if s != "" && IsSpace(s[|s| - 1]) {
      TrimEndEndsInInk(s[..|s| - 1]);
    }
  }

  /** The texts agree up to k, where the first has the smaller character. */
  predicate SmallerAt(a: string, b: string, k: nat) {
    k < |a| && k < |b| && a[..k] == b[..k] && a[k] < b[k]
  }

  ghost predicate SmallerSomewhere(a: string, b: string) {
    exists k: nat :: SmallerAt(a, b, k)
  }

  lemma SmallerByOne(a: string, b: string)
    requires a != "" && b != ""
    ensures SmallerSomewhere(a, b) <==> a[0] < b[0] || (a[0] == b[0] && SmallerSomewhere(a[1..], b[1..]))
  {
    if k: nat :| SmallerAt(a, b, k) && k > 0 {
      assert a[0] == a[..k][0] && a[..k][1..] == a[1..][..k - 1] && b[..k][1..] == b[1..][..k - 1];
      assert SmallerAt(a[1..], b[1..], k - 1);
    }
    if a[0] < b[0] {
      assert SmallerAt(a, b, 0);
    }
    if k: nat :| a[0] == b[0] && SmallerAt(a[1..], b[1..], k) {
      assert a[..k + 1] == [a[0]] + a[1..][..k] && b[..k + 1] == [b[0]] + b[1..][..k];
      assert SmallerAt(a, b, k + 1);
    }
  }

  /** A text comes before those that it begins, and before those that have a greater character where they first differ. */
  lemma {:induction false} TextBeforeExactly(a: string, b: string)
    ensures TextBefore(a, b) <==> (a <= b && a != b) || SmallerSomewhere(a, b)
  {
    if a != "" && b != "" {
      SmallerByOne(a, b);
      TextBeforeExactly(a[1..], b[1..]);
      assert a == [a[0]] + a[1..] && b == [b[0]] + b[1..];
    }
  }

  lemma {:induction false} TextOrderTotal(a: string, b: string)
    ensures TextBefore(a, b) || TextBefore(b, a) || a == b
    ensures !(TextBefore(a, b) && TextBefore(b, a)) && !TextBefore(a, a)
    decreases |a|
  {
    if a == "" {
    } else {
      TextOrderTotal(a[1..], if b != "" then b[1..] else "");
      assert a == [a[0]] + a[1..];
    }
    if a != "" && b != "" {
      assert b == [b[0]] + b[1..];
    }
  }

  lemma {:induction false} TextOrderTransitive(a: string, b: string, c: string)
    requires TextBefore(a, b) && TextBefore(b, c)
    ensures TextBefore(a, c)
    decreases |a|
  {
    if a != "" && a[0] == b[0] && b[0] == c[0] {
      TextOrderTransitive(a[1..], b[1..], c[1..]);
    }
  }
}
