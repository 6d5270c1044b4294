// Words and white space as a reader sees them, and the search functions that look for them.

module TextSpelling {
  import opened JsText
  import opened TextPatterns

  predicate NoCapitals(w: string) {
    forall k | 0 <= k < |w| :: !('A' <= w[k] <= 'Z')
  }

  /** A word in small letters that begins with none of the white space. */
  predicate Small(w: string) {
    NoCapitals(w) && w != "" && !IsSpace(w[0])
  }

  predicate Spells(s: string, w: string) {
    |s| == |w| && forall k | 0 <= k < |s| :: SameLetter(s[k], w[k])
  }

  predicate SpelledAt(text: string, i: nat, w: string) {
    i + |w| <= |text| && Spells(text[i..i + |w|], w)
  }

  // What the search functions find.

  lemma LowerExactly(c: char, small: char)
    requires !('A' <= small <= 'Z')
    ensures Lower(c) == small <==> SameLetter(c, small)
  {
  }

  lemma AtExactly(text: string, i: nat, w: string)
    requires NoCapitals(w)
    ensures At(text, i, w) <==> SpelledAt(text, i, w)
  {
    if i + |w| <= |text| {
      var s := text[i..i + |w|];
      forall k | 0 <= k < |s| ensures LowerAll(s)[k] == w[k] <==> SameLetter(s[k], w[k]) {
        LowerExactly(s[k], w[k]);
      }
      if Spells(s, w) {
        assert LowerAll(s) == w;
      }
    }
  }

  /** Of the stretches of white space from i on, only one ends before something else. */
  lemma {:induction false} BlanksExactly(text: string, i: nat, j: nat)
    requires i <= j < |text| && !IsSpace(text[j])
    ensures SkipBlanks(text, i) == j <==> Blank(text[i..j])
    decreases j - i
  {
    if i < j {
      BlankByOne(text, i, j);
      if IsSpace(text[i]) {
        BlanksExactly(text, i + 1, j);
      }
    }
  }

  lemma BlankByOne(text: string, i: nat, j: nat)
    requires i < j <= |text|
    ensures Blank(text[i..j]) <==> IsSpace(text[i]) && Blank(text[i + 1..j])
  {
    var rest := text[i + 1..j];
    assert text[i..j] == [text[i]] + rest;
    if Blank(text[i..j]) {
      forall k | 0 <= k < |rest| ensures IsSpace(rest[k]) {
        assert rest[k] == text[i..j][k + 1];
      }
    }
  }

  lemma {:induction false} SkippedAreBlank(text: string, i: nat)
    requires i <= |text|
    ensures Blank(text[i..SkipBlanks(text, i)])
    decreases |text| - i
  {
    if i < |text| && IsSpace(text[i]) {
      SkippedAreBlank(text, i + 1);
      BlankByOne(text, i, SkipBlanks(text, i));
    }
  }

  lemma SpelledIsNoSpace(text: string, i: nat, w: string)
    requires Small(w) && SpelledAt(text, i, w)
    ensures i < |text| && !IsSpace(text[i])
  {
    assert SameLetter(text[i..i + |w|][0], w[0]);
  }
}
