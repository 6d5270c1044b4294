// The bounded, deduplicated window of activity lines kept by both printers.
//
// `recent` remembers the keys that were accepted. When the window is full and `recent` holds more
// than twice the window, it is rebuilt from the window after the oldest line has left but before
// the new line is stored, so the key of the newest line is forgotten once per rebuild. The main
// results say exactly how much of "no line twice" survives that.

module DedupWindow {
  datatype Role = Info | Codex | Exec | Thinking | System | Error

  datatype Line = Line(role: Role, text: string)

  /**
   * `recent` holds keys `role:text` in the program. A key determines its line (KeyInjective), so the
   * remembered lines stand for their keys here.
   */
  datatype Window = Window(lines: seq<Line>, recent: set<Line>)

  const EMPTY := Window([], {})

  function RoleName(r: Role): string {
    match r
    case Info => "info"
    case Codex => "codex"
    case Exec => "exec"
    case Thinking => "thinking"
    case System => "system"
    case Error => "error"
  }

  function Key(l: Line): string {
    RoleName(l.role) + ":" + l.text
  }

  function KeysOf(ls: set<Line>): set<string> {
    set l | l in ls :: Key(l)
  }

  function Elements(ls: seq<Line>): set<Line> {
    set l | l in ls
  }

  function LineKeys(ls: seq<Line>): (keys: set<string>)
    ensures keys == KeysOf(Elements(ls))
  {
    set l | l in ls :: Key(l)
  }

  /** One call of `push` with a line that has already been cut to size. */
  function Push(max: nat, w: Window, l: Line): Window {
    if l in w.recent then w
    else
      var recent := w.recent + {l};
      if |w.lines| >= max then
        var rest := if w.lines == [] then [] else w.lines[1..];
        Window(rest + [l], if |recent| > 2 * max then Elements(rest) else recent)
      else
        Window(w.lines + [l], recent)
  }

  function PushAll(max: nat, ls: seq<Line>): Window {
    if ls == [] then EMPTY else Push(max, PushAll(max, ls[..|ls| - 1]), ls[|ls| - 1])
  }

  /** The lines of a run that `push` did not discard, in order. */
  function Accepted(max: nat, ls: seq<Line>): seq<Line> {
    if ls == [] then []
    else
      var before := ls[..|ls| - 1];
      var l := ls[|ls| - 1];
      Accepted(max, before) + if l in PushAll(max, before).recent then [] else [l]
  }

  /** A window of no lines still shows the line it was just given. */
  function Capacity(max: nat): nat {
    if max == 0 then 1 else max
  }

  function Last(ls: seq<Line>, n: nat): seq<Line> {
    if |ls| <= n then ls else ls[|ls| - n..]
  }

  predicate Distinct(ls: seq<Line>) {
    forall i, j :: 0 <= i < j < |ls| ==> ls[i] != ls[j]
  }

  /** At most one pair of positions holds equal lines: no line thrice, and no two lines twice. */
  predicate AtMostOneRepeat(ls: seq<Line>) {
    forall i, j, k, m ::
      0 <= i < j < |ls| && 0 <= k < m < |ls| && ls[i] == ls[j] && ls[k] == ls[m] ==> i == k && j == m
  }

  lemma KeyInjective(a: Line, b: Line)
    requires Key(a) == Key(b)
    ensures a == b
  {
    var n, m := RoleName(a.role), RoleName(b.role);
    assert Key(a)[|n|] == ':' && Key(b)[|m|] == ':';
    assert |n| == |m|;
    assert n == Key(a)[..|n|] == Key(b)[..|m|] == m;
    assert a.text == Key(a)[|n| + 1..] == Key(b)[|m| + 1..] == b.text;
  }

  /** Looking a key up among the keys of some lines is looking the line up among them. */
  lemma KeyLookup(ls: set<Line>, l: Line)
    ensures Key(l) in KeysOf(ls) <==> l in ls
    ensures KeysOf(ls + {l}) == KeysOf(ls) + {Key(l)}
  {
    if Key(l) in KeysOf(ls) {
      var k :| k in ls && Key(k) == Key(l);
      KeyInjective(k, l);
    }
  }

  lemma {:induction false} KeysCard(ls: set<Line>)
    ensures |KeysOf(ls)| == |ls|
    decreases |ls|
  {
    if ls == {} {
    } else {
      var l :| l in ls;
      var rest := ls - {l};
      KeysCard(rest);
      KeyLookup(rest, l);
      assert rest + {l} == ls;
    }
  }

  lemma {:induction false} CardOfDistinct(ls: seq<Line>)
    requires Distinct(ls)
    ensures |Elements(ls)| == |ls|
  {
    if ls == [] {
    } else {
      var n := |ls| - 1;
      var front := ls[..n];
      CardOfDistinct(front);
      assert Elements(ls) == Elements(front) + {ls[n]} by {
        assert ls == front + [ls[n]];
      }
      assert ls[n] !in front;
    }
  }

  /**
   * What every push keeps. `p` is the position of the one line whose key may have been forgotten,
   * negative when there is none. All other lines are distinct and remembered; only a later line can
   * equal the forgotten one; and the next rebuild is too far away to happen while `p` is in sight.
   */
  ghost predicate Inv(max: nat, w: Window, p: int) {
    && p < |w.lines| <= Capacity(max)
    && |w.recent| <= 2 * max
    && (|w.lines| < Capacity(max) ==> |w.recent| <= |w.lines|)
    && (forall i :: 0 <= i < |w.lines| && i != p ==> w.lines[i] in w.recent)
    && (forall i, j :: 0 <= i < j < |w.lines| && i != p ==> w.lines[i] != w.lines[j])
    && (p >= 0 ==> |w.lines| == Capacity(max) && (max >= 1 ==> |w.recent| + p == 2 * max - 2))
  }

  lemma PushKeepsInv(max: nat, w: Window, l: Line, p: int) returns (q: int)
    requires Inv(max, w, p)
    ensures Inv(max, Push(max, w, l), q)
  {
    var w' := Push(max, w, l);
    if l in w.recent {
      return p;
    }
    forall i | 0 <= i < |w.lines| && i != p ensures w.lines[i] != l {
    }
    if |w.lines| < max {
      return p;
    }
    var rest := if w.lines == [] then [] else w.lines[1..];
    forall i | 0 <= i < |rest| ensures rest[i] == w.lines[i + 1] {
    }
    if |w.recent + {l}| > 2 * max {
      assert p <= 0;
      CardOfDistinct(rest);
      forall i | 0 <= i < |rest| ensures rest[i] in Elements(rest) {
        assert rest[i] in rest;
      }
      return |rest|;
    }
    return p - 1;
  }

  /** The windows that some sequence of pushes leads to. */
  ghost predicate Reachable(max: nat, w: Window) {
    exists ls :: w == PushAll(max, ls)
  }

  lemma PushKeepsReachable(max: nat, w: Window, l: Line)
    requires Reachable(max, w)
    ensures Reachable(max, Push(max, w, l))
  {
    var ls :| w == PushAll(max, ls);
    PushOneMore(max, ls, l);
  }

  lemma {:induction false} ReachableInv(max: nat, ls: seq<Line>) returns (p: int)
    ensures Inv(max, PushAll(max, ls), p)
  {
    if ls == [] {
      return -1;
    }
    var q := ReachableInv(max, ls[..|ls| - 1]);
    p := PushKeepsInv(max, PushAll(max, ls[..|ls| - 1]), ls[|ls| - 1], q);
  }

  lemma TailStep(max: nat, w: Window, acc: seq<Line>, l: Line)
    requires w.lines == Last(acc, Capacity(max)) && l !in w.recent
    ensures Push(max, w, l).lines == Last(acc + [l], Capacity(max))
  {
  }

  /** The window is the tail of what was accepted, of the window's capacity. */
  lemma {:induction false} WindowIsTail(max: nat, ls: seq<Line>)
    ensures PushAll(max, ls).lines == Last(Accepted(max, ls), Capacity(max))
  {
    if ls == [] {
    } else {
      var before, l := ls[..|ls| - 1], ls[|ls| - 1];
      WindowIsTail(max, before);
      if l in PushAll(max, before).recent {
        assert PushAll(max, ls) == PushAll(max, before) && Accepted(max, ls) == Accepted(max, before);
      } else {
        TailStep(max, PushAll(max, before), Accepted(max, before), l);
      }
    }
  }

  /** `recent` stays bounded, and at most one line of the window is there twice, on every input. */
  lemma RunsStayAlmostDistinct(max: nat, ls: seq<Line>)
    ensures var w := PushAll(max, ls);
            && |w.recent| <= 2 * max
            && |w.lines| <= Capacity(max)
            && AtMostOneRepeat(w.lines)
  {
    var p := ReachableInv(max, ls);
  }

  /** Only one line can be in the window without being remembered, and its place is known. */
  lemma ForgottenPosition(max: nat, ls: seq<Line>, i: nat)
    requires max >= 1
    requires i < |PushAll(max, ls).lines|
    requires PushAll(max, ls).lines[i] !in PushAll(max, ls).recent
    ensures i == 2 * max - 2 - |PushAll(max, ls).recent|
  {
    var p := ReachableInv(max, ls);
  }

  /**
   * A window without repeats gets one exactly when the new line is in the part of the window that
   * stays, and its key is not in `recent`.
   */
  lemma RepeatExactly(max: nat, ls: seq<Line>, l: Line)
    requires Distinct(PushAll(max, ls).lines)
    ensures var w := PushAll(max, ls);
            !Distinct(PushAll(max, ls + [l]).lines)
            <==> l !in w.recent && |w.lines| >= max && w.lines != [] && l in w.lines[1..]
  {
    var w := PushAll(max, ls);
    assert (ls + [l])[..|ls|] == ls;
    assert PushAll(max, ls + [l]) == Push(max, w, l);
    var p := ReachableInv(max, ls);
    if l !in w.recent && |w.lines| >= max && w.lines != [] {
      var after := w.lines[1..] + [l];
      if l in w.lines[1..] {
        var i :| 0 <= i < |w.lines| - 1 && w.lines[1..][i] == l;
        assert after[i] == after[|after| - 1];
      }
    }
  }

  lemma DistinctSnoc(ls: seq<Line>, l: Line)
    requires Distinct(ls) && l !in ls
    ensures Distinct(ls + [l]) && Elements(ls + [l]) == Elements(ls) + {l}
  {
  }

  lemma DistinctStep(max: nat, w: Window, acc: seq<Line>, l: Line)
    requires Distinct(acc) && |acc| <= 2 * max && w.recent == Elements(acc) && l !in w.recent
    ensures Distinct(acc + [l])
    ensures |acc| < 2 * max ==> Push(max, w, l).recent == Elements(acc + [l])
  {
    DistinctSnoc(acc, l);
    CardOfDistinct(acc + [l]);
  }

  /** Until `recent` is rebuilt for the first time, all accepted lines differ, the whole run through. */
  lemma {:induction false} DistinctBeforeRebuild(max: nat, ls: seq<Line>)
    requires |Accepted(max, ls)| <= 2 * max + 1
    ensures Distinct(Accepted(max, ls))
    ensures |Accepted(max, ls)| <= 2 * max ==> PushAll(max, ls).recent == Elements(Accepted(max, ls))
  {
    if ls == [] {
    } else {
      var before, l := ls[..|ls| - 1], ls[|ls| - 1];
      DistinctBeforeRebuild(max, before);
      if l !in PushAll(max, before).recent {
        DistinctStep(max, PushAll(max, before), Accepted(max, before), l);
      }
    }
  }

  lemma PushOneMore(max: nat, ls: seq<Line>, l: Line)
    ensures PushAll(max, ls + [l]) == Push(max, PushAll(max, ls), l)
  {
  }

  /** Distinct lines are all accepted until the first rebuild. */
  lemma {:induction false} DistinctRun(max: nat, ls: seq<Line>)
    requires Distinct(ls) && |ls| <= 2 * max
    ensures Accepted(max, ls) == ls && PushAll(max, ls).recent == Elements(ls)
  {
    if ls == [] {
    } else {
      var before, l := ls[..|ls| - 1], ls[|ls| - 1];
      DistinctRun(max, before);
      assert ls == before + [l];
      DistinctStep(max, PushAll(max, before), before, l);
    }
  }

  lemma DistinctPart(ls: seq<Line>, n: nat)
    requires Distinct(ls) && n <= |ls|
    ensures |Elements(ls[n..])| == |ls| - n
  {
    CardOfDistinct(ls[n..]);
  }

  lemma RebuildStep(max: nat, ls: seq<Line>, w: Window, l: Line)
    requires max >= 1 && |ls| == 2 * max
    requires w.lines == ls[max..] && |w.recent| == 2 * max && l !in w.recent
    ensures Push(max, w, l) == Window(ls[max + 1..] + [l], Elements(ls[max + 1..]))
  {
  }

  lemma StepAfterRebuild(max: nat, ls: seq<Line>, l: Line)
    requires max >= 2 && Distinct(ls) && l !in ls && |ls| == 2 * max
    ensures Push(max, Window(ls[max + 1..] + [l], Elements(ls[max + 1..])), l).lines == ls[max + 2..] + [l, l]
  {
    DistinctPart(ls, max + 1);
    assert (ls[max + 1..] + [l])[1..] == ls[max + 2..] + [l];
    assert ls[max + 2..] + [l] + [l] == ls[max + 2..] + [l, l];
  }

  lemma FullRun(max: nat, ls: seq<Line>)
    requires max >= 1 && Distinct(ls) && |ls| == 2 * max
    ensures var w := PushAll(max, ls);
            w.lines == ls[max..] && w.recent == Elements(ls) && |w.recent| == 2 * max
  {
    DistinctRun(max, ls);
    WindowIsTail(max, ls);
    CardOfDistinct(ls);
  }

  /** The first rebuild leaves the line that caused it out of `recent`. */
  lemma FirstRebuild(max: nat, ls: seq<Line>, l: Line)
    requires max >= 1 && Distinct(ls) && l !in ls && |ls| == 2 * max
    ensures PushAll(max, ls + [l]) == Window(ls[max + 1..] + [l], Elements(ls[max + 1..]))
  {
    FullRun(max, ls);
    RebuildStep(max, ls, PushAll(max, ls), l);
    PushOneMore(max, ls, l);
  }

  /**
   * Full distinctness fails for every window of two lines or more: the push that causes the first
   * rebuild can be repeated at once, and its line is then there twice.
   */
  lemma RepeatWitness(max: nat, ls: seq<Line>, l: Line)
    requires max >= 2 && Distinct(ls) && l !in ls && |ls| == 2 * max
    ensures PushAll(max, ls + [l] + [l]).lines == ls[max + 2..] + [l, l]
  {
    FirstRebuild(max, ls, l);
    StepAfterRebuild(max, ls, l);
    PushOneMore(max, ls + [l], l);
  }

  /** The window as the printers hold it: `lines` and the key set `recent`. */
  class ActivityWindow {
    const maxLines: nat
    var lines: seq<Line>
    var recent: set<string>
    ghost var remembered: set<Line>  // the lines whose keys are in recent

    ghost predicate Valid()
      reads this
    {
      recent == KeysOf(remembered)
    }

    ghost function View(): Window
      reads this
    {
      Window(lines, remembered)
    }

    constructor (maxLines: nat)
      ensures Valid() && View() == EMPTY && this.maxLines == maxLines
    {
      this.maxLines := maxLines;
      lines, recent, remembered := [], {}, {};
    }

    method Store(l: Line)
      requires Valid()
      modifies this
      ensures Valid()
      ensures View() == Push(maxLines, old(View()), l)
    {
      var known := Known(l);
      if known {
        return;
      }
      Remember(l);
      if |lines| >= maxLines {
        if lines != [] {
          lines := lines[1..];
        }
        var size := RecentSize();
        if size > maxLines * 2 {
          Rebuild();
        }
      }
      lines := lines + [l];
    }

    method Known(l: Line) returns (b: bool)
      requires Valid()
      ensures b == (l in remembered)
    {
      KeyLookup(remembered, l);
      b := Key(l) in recent;
    }

    method Remember(l: Line)
      requires Valid()
      modifies `recent, `remembered
      ensures Valid() && remembered == old(remembered) + {l}
    {
      KeyLookup(remembered, l);
      recent, remembered := recent + {Key(l)}, remembered + {l};
    }

    method RecentSize() returns (n: nat)
      requires Valid()
      ensures n == |remembered|
    {
      KeysCard(remembered);
      n := |recent|;
    }

    method Rebuild()
      modifies `recent, `remembered
      ensures Valid() && remembered == Elements(lines)
    {
      recent, remembered := LineKeys(lines), Elements(lines);
    }

    method Tail(n: nat) returns (r: seq<Line>)
      ensures r == Last(lines, n)
    {
      r := if |lines| <= n then lines else lines[|lines| - n..];
    }
  }
}
