/**
 * The directive source: `concat_multi_lines`, which joins backslash-continued
 * physical lines into logical lines, and `get_commands`, which finds one
 * `@[!]cmd args` directive per logical line with LINE_PATTERN.
 *
 * The template is given as its physical lines, each as the file iterator
 * returns it (with its line terminator); reading the file is not modelled.
 * `shlex.split` is a parameter: a quote-aware splitter that may fail.
 */
module Directives {
  import opened Failures
  import opened Text

  /** A logical line: the line number (from 0) it is reported with, and its text. */
  datatype LogicalLine = LogicalLine(lineno: nat, text: string)

  /** One directive; `lineno` counts from 1. */
  datatype Command = Command(negated: bool, cmd: string, args: seq<string>, lineno: nat)

  /** Python's `x or y` for `x` None or an int: None and 0 are both false. */
  function PyOr(x: Option<nat>, y: nat): (r: nat)
    ensures x.Some? && x.value != 0 ==> r == x.value
    ensures x.None? || x.value == 0 ==> r == y
  {
    if x.Some? && x.value != 0 then x.value else y
  }

  predicate EndsWithBackslash(s: string) {
    |s| > 0 && s[|s| - 1] == '\\'
  }

  // ---------------------------------------------------------------------
  // concat_multi_lines

  /** Length of the longest common prefix of `a` and `b`. */
  function CommonPrefixLen(a: string, b: string): (n: nat)
    ensures n <= |a| && n <= |b|
    ensures forall k :: 0 <= k < n ==> a[k] == b[k]
    ensures n == |a| || n == |b| || a[n] != b[n]
  {
    if a == [] || b == [] || a[0] != b[0] then 0 else 1 + CommonPrefixLen(a[1..], b[1..])
  }

  /** The shared prefix ends at the first position where the strings differ. */
  lemma CommonPrefixIs(a: string, b: string, n: nat)
    requires n < |a| && n < |b| && a[..n] == b[..n] && a[n] != b[n]
    ensures CommonPrefixLen(a, b) == n
  {
  }

  /**
   * A continuation line with the prefix it shares with the previous line
   * removed, then its leading whitespace.
   */
  function StripShared(line: string, last: string): string {
    LStrip(line[CommonPrefixLen(line, last)..])
  }

  /**
   * What is removed from a continuation line is its prefix shared with the
   * previous line followed by whitespace only; what is kept does not start
   * with whitespace.
   */
  lemma StripSharedRemoves(line: string, last: string)
    ensures |StripShared(line, last)| + CommonPrefixLen(line, last) <= |line|
    ensures StripShared(line, last) == line[|line| - |StripShared(line, last)|..]
    ensures StripShared(line, last) == [] || !IsSpace(StripShared(line, last)[0])
    ensures forall k :: CommonPrefixLen(line, last) <= k < |line| - |StripShared(line, last)| ==> IsSpace(line[k])
  {
    var n := CommonPrefixLen(line, last);
    var t := line[n..];
    var r := LStrip(t);
    LStripSuffix(t);
    assert t[|t| - |r|..] == line[|line| - |r|..];
    forall k | n <= k < |line| - |r|
      ensures IsSpace(line[k])
    {
      assert line[k] == t[k - n];
    }
  }

  /** The loop variables of `concat_multi_lines`. */
  datatype JoinState = JoinState(lastline: Option<string>, firstlineno: Option<nat>, catenated: string)

  const Fresh := JoinState(None, None, "")

  /** The line `raw` (physical line `lineno`) as the loop body processes it. */
  function Processed(st: JoinState, raw: string): string {
    var line := RStripNewlines(raw);
    if st.lastline.Some? then StripShared(line, st.lastline.value) else line
  }

  /** One iteration of the loop: the next state and what is yielded, if anything. */
  function Advance(st: JoinState, lineno: nat, raw: string): (r: (JoinState, Option<LogicalLine>))
    ensures r.1.Some? ==> r.0 == Fresh && r.1.value.lineno == PyOr(st.firstlineno, lineno)
    ensures r.1.None? ==> r.0.lastline.Some? && r.0.firstlineno == Some(PyOr(st.firstlineno, lineno))
  {
    var line := Processed(st, raw);
    var first := PyOr(st.firstlineno, lineno);
    if EndsWithBackslash(line) then
      var body := line[..|line| - 1];
      (JoinState(Some(body), Some(first), st.catenated + body), None)
    else
      (Fresh, Some(LogicalLine(first, st.catenated + line)))
  }

  /** What the generator yields from physical line `i` on, starting in state `st`. */
  function JoinFrom(f: seq<string>, i: nat, st: JoinState): Stream<LogicalLine>
    requires i <= |f|
    decreases |f| - i
  {
    if i == |f| then
      Stream([], if st.lastline.Some? then Some(TrailingBackslash) else None)
    else
      var (next, out) := Advance(st, i, f[i]);
      var rest := JoinFrom(f, i + 1, next);
      if out.Some? then Prepend([out.value], rest) else rest
  }

  /**
   * The logical lines of a template given as physical lines; the only error
   * raised is the trailing backslash (their numbering is `LineNumbersIncrease`).
   */
  function JoinLines(f: seq<string>): (r: Stream<LogicalLine>)
    ensures r.end == None || r.end == Some(TrailingBackslash)
  {
    JoinFromEnds(f, 0, Fresh);
    JoinFrom(f, 0, Fresh)
  }

  /** From any state, the only error the generator raises is the trailing backslash. */
  lemma {:induction false} JoinFromEnds(f: seq<string>, i: nat, st: JoinState)
    requires i <= |f|
    ensures JoinFrom(f, i, st).end == None || JoinFrom(f, i, st).end == Some(TrailingBackslash)
    decreases |f| - i
  {
    if i < |f| {
      JoinFromEnds(f, i + 1, Advance(st, i, f[i]).0);
    }
  }

  /** Unfolding the generator by one physical line. */
  lemma JoinFromStep(f: seq<string>, i: nat, st: JoinState)
    requires i < |f|
    ensures JoinFrom(f, i, st)
      == if Advance(st, i, f[i]).1.Some?
         then Prepend([Advance(st, i, f[i]).1.value], JoinFrom(f, i + 1, Advance(st, i, f[i]).0))
         else JoinFrom(f, i + 1, Advance(st, i, f[i]).0)
  {
  }

  /** The logical lines one step yields. */
  function Emitted(out: Option<LogicalLine>): seq<LogicalLine> {
    if out.Some? then [out.value] else []
  }

  /** One step of the generator seen from the outside: what it yields at line `i`, then the rest. */
  lemma AdvanceStep(f: seq<string>, i: nat, st: JoinState, yielded: seq<LogicalLine>)
    requires i < |f|
    ensures Prepend(yielded, JoinFrom(f, i, st))
      == Prepend(yielded + Emitted(Advance(st, i, f[i]).1), JoinFrom(f, i + 1, Advance(st, i, f[i]).0))
  {
    JoinFromStep(f, i, st);
    var adv := Advance(st, i, f[i]);
    var rest := JoinFrom(f, i + 1, adv.0);
    if adv.1.Some? {
      assert yielded + ([adv.1.value] + rest.items) == (yielded + [adv.1.value]) + rest.items;
    } else {
      assert yielded + [] == yielded;
    }
  }

  /**
   * One pass of the loop in `ConcatMultiLines`: with `line` the processed
   * physical line, the rest of the output after updating the loop's
   * variables as the source does.
   */
  lemma LoopStep(f: seq<string>, i: nat, st: JoinState, yielded: seq<LogicalLine>, whole: Stream<LogicalLine>, line: string)
    requires i < |f| && line == Processed(st, f[i])
    requires whole == Prepend(yielded, JoinFrom(f, i, st))
    ensures EndsWithBackslash(line) ==>
      whole == Prepend(yielded, JoinFrom(f, i + 1, JoinState(Some(line[..|line| - 1]), Some(PyOr(st.firstlineno, i)), st.catenated + line[..|line| - 1])))
    ensures !EndsWithBackslash(line) ==>
      whole == Prepend(yielded + [LogicalLine(PyOr(st.firstlineno, i), st.catenated + line)], JoinFrom(f, i + 1, Fresh))
  {
    AdvanceStep(f, i, st, yielded);
  }

  /** The prefix-counting loop of `concat_multi_lines`. */
  method SharedPrefix(line: string, last: string) returns (maxprefix: nat)
    ensures maxprefix == CommonPrefixLen(line, last)
  {
    maxprefix := 0;
    while maxprefix < |line| && maxprefix < |last| && line[maxprefix] == last[maxprefix]
      invariant maxprefix <= |line| && maxprefix <= |last|
      invariant maxprefix + CommonPrefixLen(line[maxprefix..], last[maxprefix..]) == CommonPrefixLen(line, last)
    {
      assert line[maxprefix..][1..] == line[maxprefix + 1..];
      assert last[maxprefix..][1..] == last[maxprefix + 1..];
      maxprefix := maxprefix + 1;
    }
  }

  /** `concat_multi_lines`, as the loop the source runs. */
  method ConcatMultiLines(f: seq<string>) returns (out: Stream<LogicalLine>)
    ensures out == JoinLines(f)
  {
    var lastline: Option<string> := None;
    var firstlineno: Option<nat> := None;
    var catenated := "";
    var yielded: seq<LogicalLine> := [];
    var lineno := 0;
    assert yielded + JoinLines(f).items == JoinLines(f).items;
    while lineno < |f|
      invariant lineno <= |f|
      invariant JoinLines(f) == Prepend(yielded, JoinFrom(f, lineno, JoinState(lastline, firstlineno, catenated)))
    {
      ghost var st := JoinState(lastline, firstlineno, catenated);
      var line := RStripNewlines(f[lineno]);
      if lastline.Some? {
        var maxprefix := SharedPrefix(line, lastline.value);
        line := LStrip(line[maxprefix..]);
      }
      LoopStep(f, lineno, st, yielded, JoinLines(f), line);
      firstlineno := Some(PyOr(firstlineno, lineno));
      if EndsWithBackslash(line) {
        lastline := Some(line[..|line| - 1]);
        catenated := catenated + line[..|line| - 1];
      } else {
        yielded := yielded + [LogicalLine(firstlineno.value, catenated + line)];
        lastline := None;
        firstlineno := None;
        catenated := "";
      }
      lineno := lineno + 1;
    }
    assert yielded + [] == yielded;
    out := Stream(yielded, if lastline.Some? then Some(TrailingBackslash) else None);
  }

  /** Lines that never end in a backslash pass through one by one, numbered by position. */
  lemma {:induction false} PlainLinesPassThrough(f: seq<string>, i: nat)
    requires i <= |f|
    requires forall k :: i <= k < |f| ==> !EndsWithBackslash(RStripNewlines(f[k]))
    ensures JoinFrom(f, i, Fresh).end == None
    ensures |JoinFrom(f, i, Fresh).items| == |f| - i
    ensures forall k :: i <= k < |f| ==> JoinFrom(f, i, Fresh).items[k - i] == LogicalLine(k, RStripNewlines(f[k]))
    decreases |f| - i
  {
    if i < |f| {
      PlainLinesPassThrough(f, i + 1);
      var items := JoinFrom(f, i, Fresh).items;
      var rest := JoinFrom(f, i + 1, Fresh).items;
      var line := RStripNewlines(f[i]);
      assert Processed(Fresh, f[i]) == line;
      assert "" + line == line;
      assert Advance(Fresh, i, f[i]) == (Fresh, Some(LogicalLine(i, line)));
      assert items == [LogicalLine(i, line)] + rest;
      forall k | i < k < |f|
        ensures items[k - i] == LogicalLine(k, RStripNewlines(f[k]))
      {
        assert items[k - i] == rest[k - (i + 1)];
      }
    }
  }

  /**
   * A line that, once processed, ends in a backslash yields nothing: its body
   * is appended to the pending text and becomes the previous line, and the
   * first line number is kept (`firstlineno or lineno`).
   */
  lemma ContinuationPends(f: seq<string>, i: nat, st: JoinState, body: string)
    requires i < |f|
    requires Processed(st, f[i]) == body + "\\"
    ensures JoinFrom(f, i, st)
      == JoinFrom(f, i + 1, JoinState(Some(body), Some(PyOr(st.firstlineno, i)), st.catenated + body))
  {
    var line := Processed(st, f[i]);
    assert line[..|line| - 1] == body;
    JoinFromStep(f, i, st);
  }

  /**
   * The line after a continued line loses the prefix it shares with the
   * previous line's body (not with the whole pending text) and its leading
   * whitespace; if it does not continue further, the pending text and it are
   * yielded as one line, with the first line's number, except that a start
   * at line 0 is reported as the current line (`firstlineno or lineno`).
   */
  lemma ContinuationResumes(f: seq<string>, i: nat, last: string, start: nat, pending: string)
    requires i < |f|
    requires !EndsWithBackslash(StripShared(RStripNewlines(f[i]), last))
    ensures JoinFrom(f, i, JoinState(Some(last), Some(start), pending))
      == Prepend([LogicalLine(if start == 0 then i else start, pending + StripShared(RStripNewlines(f[i]), last))],
                 JoinFrom(f, i + 1, Fresh))
  {
    var st := JoinState(Some(last), Some(start), pending);
    var line := StripShared(RStripNewlines(f[i]), last);
    assert Processed(st, f[i]) == line;
    var adv := Advance(st, i, f[i]);
    assert adv == (Fresh, Some(LogicalLine(if start == 0 then i else start, pending + line)));
    JoinFromStep(f, i, st);
  }

  /**
   * Three lines joined: the second is stripped against the first's body and
   * the third against the second's, so text the third shares with the first
   * is kept. Reported under line 1, since line 0 counts as no line yet.
   */
  lemma ContinuationChain()
    ensures JoinLines(["  x = 1 \\", "  x = 2 \\", "  x = 3"]) == Stream([LogicalLine(1, "  x = 1 2 x = 3")], None)
  {
    var f := ["  x = 1 \\", "  x = 2 \\", "  x = 3"];
    ChainFirst();
    ContinuationPends(f, 0, Fresh, "  x = 1 ");
    var s1 := JoinState(Some("  x = 1 "), Some(0), "  x = 1 ");
    assert "" + "  x = 1 " == "  x = 1 ";
    ChainSecond();
    ContinuationPends(f, 1, s1, "2 ");
    ChainPending();
    ChainThird();
    ContinuationResumes(f, 2, "2 ", 1, "  x = 1 2 ");
    assert JoinFrom(f, 3, Fresh) == Stream([], None);
  }

  lemma ChainFirst()
    ensures Processed(Fresh, "  x = 1 \\") == "  x = 1 " + "\\"
  {
    assert RStripNewlines("  x = 1 \\") == "  x = 1 \\";
  }

  lemma ChainSecond()
    ensures Processed(JoinState(Some("  x = 1 "), Some(0), "  x = 1 "), "  x = 2 \\") == "2 " + "\\"
  {
    var line := "  x = 2 \\";
    var last := "  x = 1 ";
    assert RStripNewlines(line) == line;
    ChainSecondShared(line);
    var rest := line[6..];
    ChainSecondRest(rest);
    assert StripShared(line, last) == LStrip(rest);
  }

  lemma ChainPending()
    ensures "  x = 1 " + "2 " == "  x = 1 2 "
  {
  }

  lemma ChainSecondShared(line: string)
    requires line == "  x = 2 \\"
    ensures CommonPrefixLen(line, "  x = 1 ") == 6 && line[6..] == "2 \\"
  {
    CommonPrefixIs(line, "  x = 1 ", 6);
  }

  lemma ChainSecondRest(rest: string)
    requires rest == "2 \\"
    ensures LStrip(rest) == rest == "2 " + "\\"
  {
    assert !IsSpace(rest[0]);
  }

  lemma ChainThird()
    ensures StripShared(RStripNewlines("  x = 3"), "2 ") == "x = 3"
    ensures !EndsWithBackslash("x = 3")
    ensures "  x = 1 2 " + "x = 3" == "  x = 1 2 x = 3"
  {
    var line := "  x = 3";
    assert RStripNewlines(line) == line;
    assert CommonPrefixLen(line, "2 ") == 0;
    assert line[0..] == line && line[1..] == " x = 3" && " x = 3"[1..] == "x = 3";
    assert LStrip("x = 3") == "x = 3";
    assert LStrip(" x = 3") == "x = 3";
  }

  /**
   * Two physical lines, the first ending in a backslash: they are yielded as
   * one logical line, numbered by the first (line 0 reported as line 1).
   */
  lemma ContinuationJoins(f: seq<string>, i: nat, body: string)
    requires i + 1 < |f|
    requires RStripNewlines(f[i]) == body + "\\"
    requires !EndsWithBackslash(StripShared(RStripNewlines(f[i + 1]), body))
    ensures JoinFrom(f, i, Fresh)
      == Prepend([LogicalLine(if i == 0 then 1 else i, body + StripShared(RStripNewlines(f[i + 1]), body))],
                 JoinFrom(f, i + 2, Fresh))
  {
    FreshPends(f, i, body);
    ContinuationResumes(f, i + 1, body, i, body);
    assert (if i == 0 then i + 1 else i) == (if i == 0 then 1 else i);
  }

  /** From a fresh state, a line ending in a backslash starts the pending text. */
  lemma FreshPends(f: seq<string>, i: nat, body: string)
    requires i < |f|
    requires RStripNewlines(f[i]) == body + "\\"
    ensures JoinFrom(f, i, Fresh) == JoinFrom(f, i + 1, JoinState(Some(body), Some(i), body))
  {
    assert Processed(Fresh, f[i]) == body + "\\";
    ContinuationPends(f, i, Fresh, body);
    assert PyOr(Fresh.firstlineno, i) == i;
    assert Fresh.catenated + body == body;
  }

  /** A processed continuation line is a suffix of the raw line without its terminator. */
  lemma ProcessedIsSuffix(st: JoinState, raw: string)
    ensures var line := RStripNewlines(raw);
      var p := Processed(st, raw);
      |p| <= |line| && p == line[|line| - |p|..]
  {
    if st.lastline.Some? {
      StripSharedRemoves(RStripNewlines(raw), st.lastline.value);
    }
  }

  /** If the last physical line does not end in a backslash, no error is raised. */
  lemma {:induction false} EndsCleanly(f: seq<string>, i: nat, st: JoinState)
    requires i < |f|
    requires !EndsWithBackslash(RStripNewlines(f[|f| - 1]))
    ensures JoinFrom(f, i, st).end == None
    decreases |f| - i
  {
    var (next, out) := Advance(st, i, f[i]);
    if i == |f| - 1 {
      ProcessedIsSuffix(st, f[i]);
      var line := RStripNewlines(f[i]);
      var p := Processed(st, f[i]);
      assert p == [] || p[|p| - 1] == line[|line| - 1];
    } else {
      EndsCleanly(f, i + 1, next);
    }
  }

  /** A backslash on the last line, with no continuation pending, raises "Trailing backslash". */
  lemma TrailingBackslashRaises(f: seq<string>, st: JoinState)
    requires |f| > 0 && st.lastline.None?
    requires EndsWithBackslash(RStripNewlines(f[|f| - 1]))
    ensures JoinFrom(f, |f| - 1, st) == Stream([], Some(TrailingBackslash))
  {
  }

  /**
   * A last line ending in a backslash does not raise when a continuation is
   * pending and the backslash is part of the prefix shared with the line
   * before: here it is stripped with that prefix and the logical line ends.
   */
  lemma SharedBackslashAbsorbed()
    ensures JoinLines(["a\\\\\n", "a\\"]) == Stream([LogicalLine(1, "a\\")], None)
  {
    var f := ["a\\\\\n", "a\\"];
    AbsorbedLines();
    FreshPends(f, 0, "a\\");
    ContinuationResumes(f, 1, "a\\", 0, "a\\");
    assert JoinFrom(f, 2, Fresh) == Stream([], None);
  }

  lemma AbsorbedLines()
    ensures RStripNewlines("a\\\\\n") == "a\\" + "\\"
    ensures StripShared(RStripNewlines("a\\"), "a\\") == ""
    ensures "a\\" + "" == "a\\"
  {
    var line := "a\\\\\n";
    assert line[..|line| - 1] == "a\\\\";
    assert RStripNewlines("a\\\\") == "a\\\\";
    assert RStripNewlines("a\\") == "a\\";
    assert CommonPrefixLen("a\\", "a\\") == 2;
  }

  /** A template of one line `@has foo\` yields nothing and raises. */
  lemma LoneContinuedLineRaises(line: string)
    requires EndsWithBackslash(RStripNewlines(line))
    ensures JoinLines([line]) == Stream([], Some(TrailingBackslash))
  {
    TrailingBackslashRaises([line], Fresh);
  }

  /** The line number the next logical line will be reported with. */
  function NextNumber(st: JoinState, i: nat): nat {
    PyOr(st.firstlineno, i)
  }

  /** Line numbers in `lo..hi-1`, strictly increasing. */
  predicate IncreasingLines(items: seq<LogicalLine>, lo: nat, hi: nat) {
    && (forall k :: 0 <= k < |items| ==> lo <= items[k].lineno < hi)
    && (forall k, m :: 0 <= k < m < |items| ==> items[k].lineno < items[m].lineno)
  }

  /** `IncreasingLines` unrolled one line at a time, with no quantifier. */
  predicate Ascending(items: seq<LogicalLine>, lo: nat, hi: nat)
    decreases |items|
  {
    items == [] || (lo <= items[0].lineno < hi && Ascending(items[1..], items[0].lineno + 1, hi))
  }

  /**
   * Reported line numbers are strictly increasing and each is at most the
   * number of the last physical line of its logical line.
   */
  lemma LineNumbersIncrease(f: seq<string>, i: nat, st: JoinState)
    requires i <= |f|
    requires st.firstlineno.Some? ==> st.firstlineno.value < i
    ensures IncreasingLines(JoinFrom(f, i, st).items, NextNumber(st, i), |f|)
  {
    LineNumbersAscend(f, i, st);
    AscendingIncreasing(JoinFrom(f, i, st).items, NextNumber(st, i), |f|);
  }

  lemma {:induction false} LineNumbersAscend(f: seq<string>, i: nat, st: JoinState)
    requires i <= |f|
    requires st.firstlineno.Some? ==> st.firstlineno.value < i
    ensures Ascending(JoinFrom(f, i, st).items, NextNumber(st, i), |f|)
    decreases |f| - i
  {
    if i < |f| {
      var next := Advance(st, i, f[i]).0;
      LineNumbersAscend(f, i + 1, next);
      LineNumbersUnfold(f, i, st);
    }
  }

  /** The line numbers of the rest of the template, and what line `i` yields, increase. */
  lemma LineNumbersUnfold(f: seq<string>, i: nat, st: JoinState)
    requires i < |f|
    requires st.firstlineno.Some? ==> st.firstlineno.value < i
    requires Ascending(JoinFrom(f, i + 1, Advance(st, i, f[i]).0).items, NextNumber(Advance(st, i, f[i]).0, i + 1), |f|)
    ensures Ascending(JoinFrom(f, i, st).items, NextNumber(st, i), |f|)
  {
    var adv := Advance(st, i, f[i]);
    var rest := JoinFrom(f, i + 1, adv.0);
    LineNumbersStep(st, i, adv, rest.items, |f|);
    JoinFromItems(f, i, st);
  }

  /** Unfolding the generator by one physical line, as the lines it yields. */
  lemma JoinFromItems(f: seq<string>, i: nat, st: JoinState)
    requires i < |f|
    ensures JoinFrom(f, i, st).items
      == Emitted(Advance(st, i, f[i]).1) + JoinFrom(f, i + 1, Advance(st, i, f[i]).0).items
  {
    JoinFromStep(f, i, st);
    var adv := Advance(st, i, f[i]);
    var rest := JoinFrom(f, i + 1, adv.0);
    if adv.1.Some? {
      assert JoinFrom(f, i, st) == Prepend([adv.1.value], rest);
    } else {
      assert JoinFrom(f, i, st) == rest;
      assert Emitted(adv.1) + rest.items == rest.items;
    }
  }

  /** One step keeps the line numbers increasing: what it yields comes before the rest. */
  lemma LineNumbersStep(st: JoinState, i: nat, adv: (JoinState, Option<LogicalLine>), rest: seq<LogicalLine>, hi: nat)
    requires i < hi
    requires st.firstlineno.Some? ==> st.firstlineno.value < i
    requires adv.1.Some? ==> adv.0 == Fresh && adv.1.value.lineno == PyOr(st.firstlineno, i)
    requires adv.1.None? ==> adv.0.firstlineno == Some(PyOr(st.firstlineno, i))
    requires Ascending(rest, NextNumber(adv.0, i + 1), hi)
    ensures Ascending(Emitted(adv.1) + rest, NextNumber(st, i), hi)
  {
    var p := PyOr(st.firstlineno, i);
    if adv.1.Some? {
      AscendingWeaken(rest, p + 1, i + 1, hi);
      assert ([adv.1.value] + rest)[1..] == rest;
    } else {
      assert Emitted(adv.1) + rest == rest;
      AscendingWeaken(rest, p, NextNumber(adv.0, i + 1), hi);
    }
  }

  lemma AscendingWeaken(items: seq<LogicalLine>, lo: nat, lo': nat, hi: nat)
    requires lo <= lo' && Ascending(items, lo', hi)
    ensures Ascending(items, lo, hi)
  {
  }

  /** Line numbers that ascend one by one are increasing throughout. */
  lemma {:induction false} AscendingIncreasing(items: seq<LogicalLine>, lo: nat, hi: nat)
    requires Ascending(items, lo, hi)
    ensures IncreasingLines(items, lo, hi)
    decreases |items|
  {
    if items != [] {
      AscendingIncreasing(items[1..], items[0].lineno + 1, hi);
      IncreasingCons(items[0], items[1..], lo, hi);
      assert [items[0]] + items[1..] == items;
    }
  }

  lemma IncreasingCons(x: LogicalLine, rest: seq<LogicalLine>, lo: nat, hi: nat)
    requires lo <= x.lineno < hi
    requires IncreasingLines(rest, x.lineno + 1, hi)
    ensures IncreasingLines([x] + rest, lo, hi)
  {
    var items := [x] + rest;
    forall k | 0 <= k < |items|
      ensures lo <= items[k].lineno < hi
    {
      if k > 0 {
        assert items[k] == rest[k - 1];
      }
    }
    forall k, m | 0 <= k < m < |items|
      ensures items[k].lineno < items[m].lineno
    {
      assert items[m] == rest[m - 1];
      if k > 0 {
        assert items[k] == rest[k - 1];
      }
    }
  }

  // ---------------------------------------------------------------------
  // LINE_PATTERN

  /** A command name: `[A-Za-z]+(-[A-Za-z]+)*`. */
  predicate IsCmdName(s: string) {
    && |s| > 0
    && IsLetter(s[0])
    && IsLetter(s[|s| - 1])
    && (forall k :: 0 <= k < |s| ==> IsLetter(s[k]) || s[k] == '-')
    && (forall k :: 0 <= k < |s| - 1 && s[k] == '-' ==> IsLetter(s[k + 1]))
  }

  /** End of the run of letters starting at `i`. */
  function LetterRunEnd(s: string, i: nat): (j: nat)
    requires i <= |s|
    ensures i <= j <= |s|
    ensures forall k :: i <= k < j ==> IsLetter(s[k])
    ensures j == |s| || !IsLetter(s[j])
    decreases |s| - i
  {
    if i < |s| && IsLetter(s[i]) then LetterRunEnd(s, i + 1) else i
  }

  /**
   * End of the longest command name starting at `i`: the greedy match of
   * `[A-Za-z]+(?:-[A-Za-z]+)*`.
   */
  function CmdEnd(s: string, i: nat): (j: nat)
    requires i < |s| && IsLetter(s[i])
    ensures i < j <= |s|
    ensures IsLetter(s[j - 1])
    ensures forall k :: i <= k < j ==> IsLetter(s[k]) || s[k] == '-'
    ensures forall k :: i <= k < j - 1 && s[k] == '-' ==> IsLetter(s[k + 1])
    ensures j == |s| || (!IsLetter(s[j]) && !(s[j] == '-' && j + 1 < |s| && IsLetter(s[j + 1])))
    decreases |s| - i
  {
    var k := LetterRunEnd(s, i);
    if k + 1 < |s| && s[k] == '-' && IsLetter(s[k + 1]) then CmdEnd(s, k + 1) else k
  }

  /** A slice with the shape `CmdEnd` ensures is a command name. */
  lemma CmdNameSlice(s: string, i: nat, j: nat)
    requires i < j <= |s| && IsLetter(s[i]) && IsLetter(s[j - 1])
    requires forall k :: i <= k < j ==> IsLetter(s[k]) || s[k] == '-'
    requires forall k :: i <= k < j - 1 && s[k] == '-' ==> IsLetter(s[k + 1])
    ensures IsCmdName(s[i..j])
  {
    var cmd := s[i..j];
    forall k | 0 <= k < |cmd|
      ensures IsLetter(cmd[k]) || cmd[k] == '-'
    {
      assert cmd[k] == s[i + k];
    }
    forall k | 0 <= k < |cmd| - 1 && cmd[k] == '-'
      ensures IsLetter(cmd[k + 1])
    {
      assert cmd[k] == s[i + k] && cmd[k + 1] == s[i + k + 1];
    }
    assert cmd[0] == s[i] && cmd[|cmd| - 1] == s[j - 1];
  }

  /**
   * LINE_PATTERN matches starting at `p`: `p` follows an `@` that starts the
   * line or follows whitespace, and a command name starts at `p`, or at
   * `p + 1` after a `!`.
   */
  predicate MatchesAt(line: string, p: nat) {
    && 0 < p < |line|
    && line[p - 1] == '@'
    && (p == 1 || IsSpace(line[p - 2]))
    && (IsLetter(line[p]) || (line[p] == '!' && p + 1 < |line| && IsLetter(line[p + 1])))
  }

  /** Text after a command name that the greedy name pattern could not have consumed. */
  predicate CannotExtendName(rest: string) {
    rest == [] || (!IsLetter(rest[0]) && !(rest[0] == '-' && |rest| > 1 && IsLetter(rest[1])))
  }

  /** `"!"` for a negated directive, nothing otherwise. */
  function Bang(negated: bool): string {
    if negated then "!" else ""
  }

  /** The groups of a LINE_PATTERN match starting at `pos`. */
  datatype DirectiveMatch = DirectiveMatch(pos: nat, negated: bool, cmd: string, args: string)

  /** The groups of the match at `p`. */
  function MatchAt(line: string, p: nat): (m: DirectiveMatch)
    requires MatchesAt(line, p)
    ensures m.pos == p
    ensures m.negated <==> line[p] == '!'
    ensures IsCmdName(m.cmd)
    ensures line[p..] == Bang(m.negated) + (m.cmd + m.args)
    ensures CannotExtendName(m.args)
  {
    var negated := line[p] == '!';
    var start := if negated then p + 1 else p;
    var end := CmdEnd(line, start);
    var cmd := line[start..end];
    CmdNameSlice(line, start, end);
    assert line[p..start] == Bang(negated);
    SliceSplit(line, p, start, end);
    DirectiveMatch(p, negated, cmd, line[end..])
  }

  /** `LINE_PATTERN.search` from position `p` on: the leftmost match. */
  function SearchFrom(line: string, p: nat): (r: Option<DirectiveMatch>)
    ensures r.Some? ==> p <= r.value.pos && MatchesAt(line, r.value.pos) && r.value == MatchAt(line, r.value.pos)
    ensures r.Some? ==> forall q: nat :: p <= q < r.value.pos ==> !MatchesAt(line, q)
    ensures r.None? ==> forall q: nat :: p <= q ==> !MatchesAt(line, q)
    decreases |line| - p
  {
    if p >= |line| then None
    else if MatchesAt(line, p) then Some(MatchAt(line, p))
    else SearchFrom(line, p + 1)
  }

  /** `LINE_PATTERN.search(line)`. */
  function Search(line: string): Option<DirectiveMatch> {
    SearchFrom(line, 0)
  }

  /** The greedy name pattern stops exactly at the end of a command name. */
  lemma {:induction false} CmdEndFinds(c: string, a: string, i: nat)
    requires IsCmdName(c) && CannotExtendName(a)
    requires i < |c| && IsLetter(c[i])
    ensures CmdEnd(c + a, i) == |c|
    decreases |c| - i
  {
    var s := c + a;
    var k := LetterRunEnd(s, i);
    assert |c| < |s| ==> s[|c|] == a[0];
    assert |c| + 1 < |s| ==> s[|c| + 1] == a[1];
    assert k <= |c|;
    if k < |c| {
      assert s[k] == c[k];
      assert k + 1 < |c|;
      assert s[k + 1] == c[k + 1];
      CmdEndFinds(c, a, k + 1);
    }
  }

  /** A command name and the text after it are determined by their concatenation. */
  lemma CmdSplitUnique(c1: string, a1: string, c2: string, a2: string)
    requires IsCmdName(c1) && IsCmdName(c2) && c1 + a1 == c2 + a2
    requires CannotExtendName(a1) && CannotExtendName(a2)
    ensures c1 == c2 && a1 == a2
  {
    CmdEndFinds(c1, a1, 0);
    CmdEndFinds(c2, a2, 0);
    var s := c1 + a1;
    assert c1 == s[..|c1|] == c2;
  }

  // ---------------------------------------------------------------------
  // get_commands

  /** The per-line step of `get_commands`. */
  function ParseDirective(l: LogicalLine, split: string -> Option<seq<string>>): (r: Result<Option<Command>>)
    ensures Search(l.text).None? ==> r == Ok(None)
    ensures r.Ok? && r.value.Some? ==>
      var m := Search(l.text).value;
      && r.value.value.negated == m.negated
      && r.value.value.cmd == m.cmd
      && IsCmdName(r.value.value.cmd)
      && split(m.args) == Some(r.value.value.args)
      && r.value.value.lineno == l.lineno + 1
    ensures r == Err(InvalidTemplateSyntax(l.lineno + 1)) <==>
      Search(l.text).Some? && Search(l.text).value.args != [] && !IsSpace(Search(l.text).value.args[0])
    ensures Search(l.text).Some? && (Search(l.text).value.args == [] || IsSpace(Search(l.text).value.args[0])) ==>
      var m := Search(l.text).value;
      && (split(m.args).Some? ==> r == Ok(Some(Command(m.negated, m.cmd, split(m.args).value, l.lineno + 1))))
      && (split(m.args).None? ==> r == Err(ArgumentQuoting))
  {
    match Search(l.text)
    case None => Ok(None)
    case Some(m) =>
      if m.args != [] && !IsSpace(m.args[0]) then Err(InvalidTemplateSyntax(l.lineno + 1))
      else match split(m.args)
        case None => Err(ArgumentQuoting)
        case Some(argv) => Ok(Some(Command(m.negated, m.cmd, argv, l.lineno + 1)))
  }

  lemma BangCancels(negated: bool, x: string, y: string)
    requires Bang(negated) + x == Bang(negated) + y
    ensures x == y
  {
    var b := Bang(negated);
    assert x == (b + x)[|b|..];
    assert y == (b + y)[|b|..];
  }

  /** The search returns the first position where the pattern matches. */
  lemma SearchFindsFirst(line: string, p: nat)
    requires MatchesAt(line, p)
    requires forall q: nat :: q < p ==> !MatchesAt(line, q)
    ensures Search(line) == Some(MatchAt(line, p))
  {
  }

  /**
   * Rendering a directive after text free of `@` and ending in whitespace,
   * then searching the line, finds exactly that directive.
   */
  lemma SearchFindsDirective(prefix: string, negated: bool, cmd: string, args: string)
    requires forall k :: 0 <= k < |prefix| ==> prefix[k] != '@'
    requires prefix == [] || IsSpace(prefix[|prefix| - 1])
    requires IsCmdName(cmd)
    requires args == [] || IsSpace(args[0])
    ensures Search(prefix + "@" + Bang(negated) + cmd + args) == Some(DirectiveMatch(|prefix| + 1, negated, cmd, args))
  {
    var line := prefix + "@" + Bang(negated) + cmd + args;
    var p := |prefix| + 1;
    RenderedDirectiveMatches(prefix, negated, cmd, args);
    SearchFindsFirst(line, p);
    var m := MatchAt(line, p);
    assert m.negated == negated;
    BangCancels(negated, cmd + args, m.cmd + m.args);
    CmdSplitUnique(cmd, args, m.cmd, m.args);
  }

  /** The pattern first matches a rendered directive just after its `@`. */
  lemma RenderedDirectiveMatches(prefix: string, negated: bool, cmd: string, args: string)
    requires forall k :: 0 <= k < |prefix| ==> prefix[k] != '@'
    requires prefix == [] || IsSpace(prefix[|prefix| - 1])
    requires IsCmdName(cmd)
    ensures var line := prefix + "@" + Bang(negated) + cmd + args;
      && |prefix| + 1 < |line|
      && line[|prefix| + 1..] == Bang(negated) + (cmd + args)
      && line[|prefix| + 1] == (if negated then '!' else cmd[0])
      && MatchesAt(line, |prefix| + 1)
      && forall q: nat :: q < |prefix| + 1 ==> !MatchesAt(line, q)
  {
    var rest := Bang(negated) + (cmd + args);
    var line := prefix + "@" + Bang(negated) + cmd + args;
    var p := |prefix| + 1;
    assert line == prefix + ("@" + rest);
    assert line[p..] == rest;
    assert line[p - 1] == '@';
    assert negated ==> rest[0] == '!' && rest[1] == cmd[0];
    assert !negated ==> rest[0] == cmd[0];
    forall q: nat | q < p
      ensures !MatchesAt(line, q)
    {
      if 0 < q {
        assert line[q - 1] == prefix[q - 1];
      }
    }
  }

  /**
   * A rendered directive is parsed back into the command it renders, with
   * its argument text split by the splitter, numbered from 1.
   */
  lemma ParseDirectiveRoundTrip(prefix: string, negated: bool, cmd: string, args: string, lineno: nat, split: string -> Option<seq<string>>)
    requires forall k :: 0 <= k < |prefix| ==> prefix[k] != '@'
    requires prefix == [] || IsSpace(prefix[|prefix| - 1])
    requires IsCmdName(cmd)
    requires args == [] || IsSpace(args[0])
    ensures ParseDirective(LogicalLine(lineno, prefix + "@" + Bang(negated) + cmd + args), split)
      == if split(args).Some? then Ok(Some(Command(negated, cmd, split(args).value, lineno + 1))) else Err(ArgumentQuoting)
  {
    SearchFindsDirective(prefix, negated, cmd, args);
    ParseMatched(lineno, prefix + "@" + Bang(negated) + cmd + args, DirectiveMatch(|prefix| + 1, negated, cmd, args), split);
  }

  /** A line whose directive match has well-spaced arguments parses to its command. */
  lemma ParseMatched(lineno: nat, text: string, m: DirectiveMatch, split: string -> Option<seq<string>>)
    requires Search(text) == Some(m)
    requires m.args == [] || IsSpace(m.args[0])
    ensures ParseDirective(LogicalLine(lineno, text), split)
      == if split(m.args).Some? then Ok(Some(Command(m.negated, m.cmd, split(m.args).value, lineno + 1))) else Err(ArgumentQuoting)
  {
  }

  /**
   * The directives of a stream of logical lines, stopping at the first error.
   * At most one command per line; the stream's own error is raised unless a
   * directive raised first; and a stream that ends cleanly had every line
   * parse.
   */
  function Commands(lines: seq<LogicalLine>, end: Option<Error>, split: string -> Option<seq<string>>): (r: Stream<Command>)
    ensures |r.items| <= |lines|
    ensures end.Some? ==> r.end.Some?
    ensures r.end.None? ==> forall k :: 0 <= k < |lines| ==> ParseDirective(lines[k], split).Ok?
    decreases |lines|
  {
    if lines == [] then Stream([], end)
    else match ParseDirective(lines[0], split)
      case Err(e) => Stream([], Some(e))
      case Ok(None) => Commands(lines[1..], end, split)
      case Ok(Some(c)) => Prepend([c], Commands(lines[1..], end, split))
  }

  /**
   * `get_commands` over a template given as physical lines: well-formed
   * command names with strictly increasing line numbers within `1..N`, and
   * a template that fails to join always raises.
   */
  function GetCommands(template: seq<string>, split: string -> Option<seq<string>>): (r: Stream<Command>)
    ensures OrderedCommands(r.items, 1, |template|)
    ensures JoinLines(template).end.Some? ==> r.end.Some?
  {
    var joined := JoinLines(template);
    LineNumbersIncrease(template, 0, Fresh);
    assert NextNumber(Fresh, 0) == 0;
    CommandsOrdered(joined.items, joined.end, split, 0, |template|);
    Commands(joined.items, joined.end, split)
  }

  /** Lines without a directive yield nothing. */
  lemma {:induction false} NoDirectiveNoCommands(lines: seq<LogicalLine>, end: Option<Error>, split: string -> Option<seq<string>>)
    requires forall k :: 0 <= k < |lines| ==> Search(lines[k].text).None?
    ensures Commands(lines, end, split) == Stream([], end)
  {
    if lines != [] {
      NoDirectiveNoCommands(lines[1..], end, split);
    }
  }

  /** Well-formed command names, line numbers in `lo..hi`, strictly increasing. */
  predicate OrderedCommands(cs: seq<Command>, lo: nat, hi: nat) {
    && (forall k :: 0 <= k < |cs| ==> IsCmdName(cs[k].cmd) && lo <= cs[k].lineno <= hi)
    && (forall k, m :: 0 <= k < m < |cs| ==> cs[k].lineno < cs[m].lineno)
  }

  /**
   * Directives carry well-formed command names and strictly increasing line
   * numbers within `1..N` when the logical lines are numbered increasingly
   * below `N`.
   */
  lemma {:induction false} CommandsOrdered(lines: seq<LogicalLine>, end: Option<Error>, split: string -> Option<seq<string>>, lo: nat, n: nat)
    requires forall k :: 0 <= k < |lines| ==> lo <= lines[k].lineno < n
    requires forall k, m :: 0 <= k < m < |lines| ==> lines[k].lineno < lines[m].lineno
    ensures OrderedCommands(Commands(lines, end, split).items, lo + 1, n)
  {
    if lines != [] {
      var r := ParseDirective(lines[0], split);
      var rest := lines[1..];
      if r.Ok? {
        LinesTail(lines, lo, n);
        CommandsOrdered(rest, end, split, lines[0].lineno + 1, n);
        var tail := Commands(rest, end, split).items;
        if r.value.Some? {
          assert Commands(lines, end, split).items == [r.value.value] + tail;
          OrderedCons(r.value.value, tail, lo + 1, n);
        } else {
          assert Commands(lines, end, split).items == tail;
          OrderedWeaken(tail, lo + 1, lines[0].lineno + 2, n);
        }
      }
    }
  }

  /** The logical lines after the first are numbered above it. */
  lemma LinesTail(lines: seq<LogicalLine>, lo: nat, n: nat)
    requires lines != []
    requires forall k :: 0 <= k < |lines| ==> lo <= lines[k].lineno < n
    requires forall k, m :: 0 <= k < m < |lines| ==> lines[k].lineno < lines[m].lineno
    ensures forall k :: 0 <= k < |lines[1..]| ==> lines[0].lineno + 1 <= lines[1..][k].lineno < n
    ensures forall k, m :: 0 <= k < m < |lines[1..]| ==> lines[1..][k].lineno < lines[1..][m].lineno
  {
    var rest := lines[1..];
    forall k | 0 <= k < |rest|
      ensures lines[0].lineno + 1 <= rest[k].lineno < n
    {
      assert rest[k] == lines[k + 1];
    }
    forall k, m | 0 <= k < m < |rest|
      ensures rest[k].lineno < rest[m].lineno
    {
      assert rest[k] == lines[k + 1] && rest[m] == lines[m + 1];
    }
  }

  lemma OrderedCons(c: Command, tail: seq<Command>, lo: nat, hi: nat)
    requires IsCmdName(c.cmd) && lo <= c.lineno <= hi
    requires OrderedCommands(tail, c.lineno + 1, hi)
    ensures OrderedCommands([c] + tail, lo, hi)
  {
    var cs := [c] + tail;
    forall k | 0 <= k < |cs|
      ensures IsCmdName(cs[k].cmd) && lo <= cs[k].lineno <= hi
    {
      if k > 0 {
        assert cs[k] == tail[k - 1];
      }
    }
    forall k, m | 0 <= k < m < |cs|
      ensures cs[k].lineno < cs[m].lineno
    {
      assert cs[m] == tail[m - 1];
      if k > 0 {
        assert cs[k] == tail[k - 1];
      }
    }
  }

  lemma OrderedWeaken(cs: seq<Command>, lo: nat, lo': nat, hi: nat)
    requires lo <= lo' && OrderedCommands(cs, lo', hi)
    ensures OrderedCommands(cs, lo, hi)
  {
  }
}
