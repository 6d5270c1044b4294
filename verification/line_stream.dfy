// Incremental line splitting, shared by both activity printers.
//
// The printers receive a stream in arbitrary chunks and cut it into lines with a buffer for the
// unfinished line. Here the meaning of a stream is given one character at a time; the printers'
// loops are proved against it, and the independence from chunk boundaries is proved about it.

module LineStream {
  import opened JsText

  /** The unfinished line together with whatever state the line handler keeps. */
  datatype Stream<S> = Stream(pending: string, inner: S)

  function FeedChar<S>(handle: (S, string) -> S, st: Stream<S>, c: char): Stream<S> {
    if c == '\r' then st
    else if c == '\n' then Stream("", handle(st.inner, st.pending))
    else Stream(st.pending + [c], st.inner)
  }

  function Feed<S>(handle: (S, string) -> S, st: Stream<S>, text: string): Stream<S>
    decreases |text|
  {
    if text == "" then st else Feed(handle, FeedChar(handle, st, text[0]), text[1..])
  }

  function FeedChunks<S>(handle: (S, string) -> S, st: Stream<S>, chunks: seq<string>): Stream<S>
    decreases |chunks|
  {
    if chunks == [] then st else FeedChunks(handle, Feed(handle, st, chunks[0]), chunks[1..])
  }

  function Concat(chunks: seq<string>): string {
    if chunks == [] then "" else chunks[0] + Concat(chunks[1..])
  }

  lemma {:induction false} ConcatSplit(a: seq<string>, b: seq<string>)
    ensures Concat(a + b) == Concat(a) + Concat(b)
  {
    if a == [] {
      assert a + b == b;
    } else {
      assert (a + b)[1..] == a[1..] + b;
      ConcatSplit(a[1..], b);
    }
  }

  lemma ConcatOne(a: string)
    ensures Concat([a]) == a
  {
    assert [a][1..] == [];
    assert Concat([a]) == a + "";
  }

  lemma ConcatTwo(a: string, b: string)
    ensures Concat([a, b]) == a + b
  {
    assert [a, b] == [a] + [b];
    ConcatSplit([a], [b]);
    ConcatOne(a);
    ConcatOne(b);
  }

  function Fold<S>(handle: (S, string) -> S, s: S, lines: seq<string>): S
    decreases |lines|
  {
    if lines == [] then s else Fold(handle, handle(s, lines[0]), lines[1..])
  }

  /** Feeding two chunks is feeding their concatenation. */
  lemma {:induction false} FeedConcat<S>(handle: (S, string) -> S, st: Stream<S>, a: string, b: string)
    ensures Feed(handle, st, a + b) == Feed(handle, Feed(handle, st, a), b)
    decreases |a|
  {
    if a == "" {
      assert a + b == b;
    } else {
      assert (a + b)[1..] == a[1..] + b;
      FeedConcat(handle, FeedChar(handle, st, a[0]), a[1..], b);
    }
  }

  /** Any way of cutting a text into chunks leaves the state that the whole text leaves. */
  lemma {:induction false} ChunkInvariance<S>(handle: (S, string) -> S, st: Stream<S>, chunks: seq<string>)
    ensures FeedChunks(handle, st, chunks) == Feed(handle, st, Concat(chunks))
    decreases |chunks|
  {
    if chunks == [] {
    } else {
      FeedConcat(handle, st, chunks[0], Concat(chunks[1..]));
      ChunkInvariance(handle, Feed(handle, st, chunks[0]), chunks[1..]);
    }
  }

  /** Carriage returns are invisible. */
  lemma {:induction false} FeedStripCr<S>(handle: (S, string) -> S, st: Stream<S>, text: string)
    ensures Feed(handle, st, StripCr(text)) == Feed(handle, st, text)
    decreases |text|
  {
    if text == "" {
    } else {
      FeedStripCr(handle, FeedChar(handle, st, text[0]), text[1..]);
      if text[0] != '\r' {
        assert StripCr(text)[1..] == StripCr(text[1..]);
      }
    }
  }

  /** A piece without line breaks only extends the unfinished line. */
  lemma {:induction false} FeedWithinLine<S>(handle: (S, string) -> S, st: Stream<S>, text: string)
    requires '\n' !in text && '\r' !in text
    ensures Feed(handle, st, text) == Stream(st.pending + text, st.inner)
    decreases |text|
  {
    if text == "" {
      assert st.pending + text == st.pending;
    } else {
      FeedWithinLine(handle, FeedChar(handle, st, text[0]), text[1..]);
      assert st.pending + text == st.pending + [text[0]] + text[1..];
    }
  }

  /** A complete line at the front of the text is handed to the handler. */
  lemma FeedFirstLine<S>(handle: (S, string) -> S, s: S, text: string, i: nat)
    requires '\r' !in text
    requires i < |text| && text[i] == '\n' && '\n' !in text[..i]
    ensures Feed(handle, Stream("", s), text) == Feed(handle, Stream("", handle(s, text[..i])), text[i + 1..])
  {
    assert text == text[..i] + text[i..];
    FeedConcat(handle, Stream("", s), text[..i], text[i..]);
    FeedWithinLine(handle, Stream("", s), text[..i]);
    assert text[i..][1..] == text[i + 1..];
    assert "" + text[..i] == text[..i];
  }

  /** The unfinished line never holds a line break, whatever was fed. */
  lemma {:induction false} PendingIsUnbroken<S>(handle: (S, string) -> S, st: Stream<S>, text: string)
    requires '\n' !in st.pending && '\r' !in st.pending
    ensures var after := Feed(handle, st, text); '\n' !in after.pending && '\r' !in after.pending
    decreases |text|
  {
    if text == "" {
    } else {
      PendingIsUnbroken(handle, FeedChar(handle, st, text[0]), text[1..]);
    }
  }

  /**
   * The stream against its batch reading: a whole text, fed in any way, has handled exactly the
   * lines of `split('\n')` but the last, and the last is what is pending.
   */
  lemma {:induction false} StreamIsLines<S>(handle: (S, string) -> S, s: S, text: string)
    ensures var ls := SplitLines(StripCr(text));
            Feed(handle, Stream("", s), text) == Stream(ls[|ls| - 1], Fold(handle, s, ls[..|ls| - 1]))
  {
    FeedStripCr(handle, Stream("", s), text);
    CleanStreamIsLines(handle, s, StripCr(text));
  }

  lemma {:induction false} CleanStreamIsLines<S>(handle: (S, string) -> S, s: S, text: string)
    requires '\r' !in text
    ensures var ls := SplitLines(text);
            Feed(handle, Stream("", s), text) == Stream(ls[|ls| - 1], Fold(handle, s, ls[..|ls| - 1]))
    decreases |text|
  {
    var i := IndexOf(text, '\n');
    if i == -1 {
      FeedWithinLine(handle, Stream("", s), text);
      assert "" + text == text;
    } else {
      FeedFirstLine(handle, s, text, i);
      CleanStreamIsLines(handle, handle(s, text[..i]), text[i + 1..]);
      var ls := SplitLines(text);
      var rest := SplitLines(text[i + 1..]);
      assert ls[1..] == rest;
      assert ls[..|ls| - 1][1..] == rest[..|rest| - 1];
    }
  }
}
