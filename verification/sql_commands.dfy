// Which SQL statements AppDatabase persists the database after, by their first word.

module SqlCommands {
  import opened JsText

  function UpperAscii(s: string): string {
    if s == "" then "" else [if 'a' <= s[0] <= 'z' then s[0] - 'a' + 'A' else s[0]] + UpperAscii(s[1..])
  }

  function FirstWord(s: string): string {
    if s == "" || IsSpace(s[0]) then "" else [s[0]] + FirstWord(s[1..])
  }

  function FirstSqlCommand(sql: string): string {
    UpperAscii(FirstWord(Trim(sql)))
  }

  predicate IsReadOnly(command: string) {
    command == "" || command == "SELECT" || command == "EXPLAIN"
  }

  predicate IsRowModifying(command: string) {
    command == "UPDATE" || command == "DELETE" || command == "INSERT" || command == "REPLACE"
  }

  predicate ShouldPersistAfterStatement(sql: string, rowsModified: nat) {
    var command := FirstSqlCommand(sql);
    !IsReadOnly(command) && (IsRowModifying(command) ==> rowsModified > 0)
  }

  // The same, said of the text of the statement.

  /** A capital, or its small letter. */
  predicate CapitalIs(c: char, capital: char) {
    c == capital || ('a' <= c <= 'z' && c as int - 'a' as int == capital as int - 'A' as int)
  }

  predicate Capitals(word: string) {
    forall k | 0 <= k < |word| :: 'A' <= word[k] <= 'Z'
  }

  /** The word in any case. */
  predicate Spells(s: string, word: string) {
    |s| == |word| && forall k | 0 <= k < |s| :: CapitalIs(s[k], word[k])
  }

  /** Behind blanks there is the word from i to j, and a blank or the end. */
  predicate WordAt(sql: string, word: string, i: nat, j: nat) {
    i <= j <= |sql| && Blank(sql[..i]) && Spells(sql[i..j], word) && (j < |sql| ==> IsSpace(sql[j]))
  }

  ghost predicate StartsWith(sql: string, word: string) {
    exists i, j :: WordAt(sql, word, i, j)
  }

  ghost predicate OnlyReads(sql: string) {
    Blank(sql) || StartsWith(sql, "SELECT") || StartsWith(sql, "EXPLAIN")
  }

  ghost predicate ModifiesRows(sql: string) {
    StartsWith(sql, "UPDATE") || StartsWith(sql, "DELETE") || StartsWith(sql, "INSERT") || StartsWith(sql, "REPLACE")
  }

  /** The statement is known to change nothing. */
  ghost predicate Quiet(sql: string, rowsModified: nat) {
    OnlyReads(sql) || (ModifiesRows(sql) && rowsModified == 0)
  }

  lemma SpellsByLetter(s: string, word: string)
    requires s != "" && word != ""
    ensures Spells(s, word) <==> CapitalIs(s[0], word[0]) && Spells(s[1..], word[1..])
  {
    if CapitalIs(s[0], word[0]) && Spells(s[1..], word[1..]) {
      assert forall k | 0 < k < |s| :: s[k] == s[1..][k - 1];
      assert forall k | 0 < k < |word| :: word[k] == word[1..][k - 1];
    }
  }

  lemma {:induction false} UpperExactly(s: string, word: string)
    requires Capitals(word)
    ensures UpperAscii(s) == word <==> Spells(s, word)
    decreases |s|
  {
    if s == "" {
    } else if word != "" {
      UpperExactly(s[1..], word[1..]);
      SpellsByLetter(s, word);
      assert word == [word[0]] + word[1..];
      assert UpperAscii(s)[1..] == UpperAscii(s[1..]);
    }
  }

  lemma {:induction false} FirstWordOfMore(s: string, c: char)
    requires IsSpace(c)
    ensures FirstWord(s + [c]) == FirstWord(s)
  {
    if s != "" && !IsSpace(s[0]) {
      FirstWordOfMore(s[1..], c);
      assert (s + [c])[1..] == s[1..] + [c];
    }
  }

  lemma {:induction false} FirstWordOfTrimEnd(s: string)
    ensures FirstWord(TrimEnd(s)) == FirstWord(s)
  {
    if s != "" && IsSpace(s[|s| - 1]) {
      FirstWordOfTrimEnd(s[..|s| - 1]);
      FirstWordOfMore(s[..|s| - 1], s[|s| - 1]);
      assert s[..|s| - 1] + [s[|s| - 1]] == s;
    }
  }

  /** The text from where the blanks end. */
  lemma {:induction false} LeadingBlanks(s: string) returns (i: nat)
    ensures i <= |s| && TrimStart(s) == s[i..] && Blank(s[..i]) && (i < |s| ==> !IsSpace(s[i]))
  {
    i := 0;
    if s != "" && IsSpace(s[0]) {
      var k := LeadingBlanks(s[1..]);
      i := k + 1;
      assert s[..i] == [s[0]] + s[1..][..k];
    }
  }

  lemma {:induction false} FirstWordEnd(s: string)
    ensures var w := FirstWord(s); w <= s && (|w| < |s| ==> IsSpace(s[|w|])) && forall k | 0 <= k < |w| :: !IsSpace(w[k])
  {
    if s != "" && !IsSpace(s[0]) {
      FirstWordEnd(s[1..]);
      var w := FirstWord(s[1..]);
      assert FirstWord(s) == [s[0]] + w && s == [s[0]] + s[1..];
    }
  }

  /** Where the first word is. */
  lemma FirstWordPlace(sql: string) returns (i: nat, j: nat)
    ensures i <= j <= |sql| && FirstWord(Trim(sql)) == sql[i..j] && Blank(sql[..i])
    ensures (j < |sql| ==> IsSpace(sql[j])) && (i < |sql| ==> !IsSpace(sql[i]))
    ensures forall k | i <= k < j :: !IsSpace(sql[k])
  {
    i := LeadingBlanks(sql);
    FirstWordOfTrimEnd(sql[i..]);
    FirstWordEnd(sql[i..]);
    var w := FirstWord(sql[i..]);
    j := i + |w|;
    assert w == sql[i..j];
    assert forall k | i <= k < j :: sql[k] == w[k - i];
  }

  lemma LetterIsNoSpace(c: char, capital: char)
    requires CapitalIs(c, capital) && 'A' <= capital <= 'Z'
    ensures !IsSpace(c)
  {
  }

  /** There is only one place for a first word. */
  lemma OnePlace(sql: string, word: string, i: nat, j: nat, k: nat, l: nat)
    requires WordAt(sql, word, k, l) && Capitals(word) && word != ""
    requires i <= j <= |sql| && Blank(sql[..i]) && (i < |sql| ==> !IsSpace(sql[i]))
    requires (j < |sql| ==> IsSpace(sql[j])) && forall m | i <= m < j :: !IsSpace(sql[m])
    ensures i == k && j == l
  {
    assert forall m | k <= m < l :: sql[m] == sql[k..l][m - k];
    forall m | k <= m < l ensures !IsSpace(sql[m]) {
      LetterIsNoSpace(sql[m], word[m - k]);
    }
    if k < i {
      BlankBefore(sql, i, k);
      assert false;
    } else if i < k {
      BlankBefore(sql, k, i);
      assert false;
    }
  }

  lemma BlankBefore(sql: string, i: nat, k: nat)
    requires k < i <= |sql| && Blank(sql[..i])
    ensures IsSpace(sql[k])
  {
    assert sql[..i][k] == sql[k];
  }

  /** The first word in capitals is `word` exactly if the statement starts with it, in any case and behind blanks. */
  lemma FirstCommandExactly(sql: string, word: string)
    requires Capitals(word) && word != ""
    ensures FirstSqlCommand(sql) == word <==> StartsWith(sql, word)
  {
    var i, j := FirstWordPlace(sql);
    UpperExactly(sql[i..j], word);
    if FirstSqlCommand(sql) == word {
      assert WordAt(sql, word, i, j);
    }
    if k, l :| WordAt(sql, word, k, l) {
      OnePlace(sql, word, i, j, k, l);
    }
  }

  lemma NoCommandExactly(sql: string)
    ensures FirstSqlCommand(sql) == "" <==> Blank(sql)
  {
    var i, j := FirstWordPlace(sql);
    UpperExactly(sql[i..j], "");
    if i == |sql| {
      assert sql[..i] == sql;
    }
  }

  lemma ReadOnlyExactly(sql: string)
    ensures IsReadOnly(FirstSqlCommand(sql)) <==> OnlyReads(sql)
  {
    NoCommandExactly(sql);
    FirstCommandExactly(sql, "SELECT");
    FirstCommandExactly(sql, "EXPLAIN");
  }

  lemma RowModifyingExactly(sql: string)
    ensures IsRowModifying(FirstSqlCommand(sql)) <==> ModifiesRows(sql)
  {
    FirstCommandExactly(sql, "UPDATE");
    FirstCommandExactly(sql, "DELETE");
    FirstCommandExactly(sql, "INSERT");
    FirstCommandExactly(sql, "REPLACE");
  }

  /** A statement is persisted after unless it only reads, or is a row statement that changed no row. */
  lemma AsksExactly(sql: string, rowsModified: nat)
    ensures ShouldPersistAfterStatement(sql, rowsModified) <==> !Quiet(sql, rowsModified)
  {
    ReadOnlyExactly(sql);
    RowModifyingExactly(sql);
  }
}
