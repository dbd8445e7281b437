/**
 * The flow texts: market_stats.py prints signed, comma-grouped amounts on labelled lines,
 * flow_filter.py finds the labels at line starts, reads the amounts back and scores them.
 */
module FlowText {
  import opened Numerals
  import opened Options

  // ---------- reading: the patterns `(?m)^caption\s*([+-]?[\d,]+)suffix` ----------

  /** What `\s` accepts in a text. */
  predicate IsSpace(c: char) {
    || '\t' <= c <= '\r' || '\U{1c}' <= c <= ' ' || c == '\U{85}' || c == '\U{a0}' || c == '\U{1680}'
    || '\U{2000}' <= c <= '\U{200a}' || c == '\U{2028}' || c == '\U{2029}' || c == '\U{202f}'
    || c == '\U{205f}' || c == '\U{3000}'
  }

  predicate IsSign(c: char) {
    c == '+' || c == '-'
  }

  function SkipSpace(s: string): string {
    if s != [] && IsSpace(s[0]) then SkipSpace(s[1..]) else s
  }

  function SignLength(s: string): nat {
    if s != [] && IsSign(s[0]) then 1 else 0
  }

  /** Length of the longest prefix made of digits and commas. */
  function RunLength(s: string): (n: nat)
    ensures n <= |s| && (forall k :: 0 <= k < n ==> IsNumeralChar(s[k]))
    ensures n < |s| ==> !IsNumeralChar(s[n])
  {
    if s != [] && IsNumeralChar(s[0]) then 1 + RunLength(s[1..]) else 0
  }

  /** The captured group, once the blanks are skipped. */
  function Capture(suffix: string, rest: string): Option<string> {
    var signed := SignLength(rest);
    var run := RunLength(rest[signed..]);
    if run > 0 && suffix <= rest[signed + run..] then Some(rest[..signed + run]) else None
  }

  /** The group captured when the pattern is matched at the start of `text`. */
  function MatchHere(caption: string, suffix: string, text: string): Option<string> {
    if caption <= text then Capture(suffix, SkipSpace(text[|caption|..])) else None
  }

  /** Leftmost match, at the beginning of `text` or after a newline. */
  function Search(caption: string, suffix: string, text: string, atLineStart: bool): Option<string> {
    var here := MatchHere(caption, suffix, text);
    if atLineStart && here.Some? then here
    else if text == [] then None
    else Search(caption, suffix, text[1..], text[0] == '\n')
  }

  datatype Reading = Missing | Number(value: int) | Invalid

  /** `_find_int`; Invalid stands for the ValueError of `int`. */
  function FindInt(caption: string, suffix: string, text: string): Reading {
    match Search(caption, suffix, text, true)
    case None => Missing
    case Some(group) =>
      match ToInt(group)
      case None => Invalid
      case Some(v) => Number(v)
  }

  lemma FoundNumber(caption: string, suffix: string, text: string, num: string, n: int)
    requires Search(caption, suffix, text, true) == Some(num) && ToInt(num) == Some(n)
    ensures FindInt(caption, suffix, text) == Number(n)
  {
  }

  // ---------- the scan is the regular expression ----------

  ghost predicate Blank(s: string) {
    forall k :: 0 <= k < |s| ==> IsSpace(s[k])
  }

  /** `[+-]?[\d,]+` */
  predicate IsGroup(s: string) {
    var d := s[SignLength(s)..];
    d != [] && forall k :: 0 <= k < |d| ==> IsNumeralChar(d[k])
  }

  /** One way of reading `text` as an instance of the pattern followed by anything. */
  ghost predicate Splits(caption: string, suffix: string, text: string, space: string, group: string, tail: string) {
    text == caption + space + group + suffix + tail && Blank(space) && IsGroup(group)
  }

  lemma {:induction false} SkipSpaceDrops(space: string, rest: string)
    requires Blank(space) && (rest == [] || !IsSpace(rest[0]))
    ensures SkipSpace(space + rest) == rest
  {
    if space == [] {
      assert space + rest == rest;
    } else {
      assert (space + rest)[1..] == space[1..] + rest;
      SkipSpaceDrops(space[1..], rest);
    }
  }

  lemma {:induction false} SkipSpaceSplits(s: string) returns (space: string)
    ensures s == space + SkipSpace(s) && Blank(space)
  {
    if s != [] && IsSpace(s[0]) {
      var more := SkipSpaceSplits(s[1..]);
      space := [s[0]] + more;
    } else {
      space := [];
    }
  }

  lemma {:induction false} RunOfPrefix(run: string, tail: string)
    requires forall k :: 0 <= k < |run| ==> IsNumeralChar(run[k])
    ensures RunLength(run + tail) == |run| + RunLength(tail)
  {
    if run == [] {
      assert run + tail == tail;
    } else {
      assert (run + tail)[1..] == run[1..] + tail;
      RunOfPrefix(run[1..], tail);
    }
  }

  lemma CutAfter(a: string, b: string, k: nat)
    requires k <= |b|
    ensures (a + b)[|a| + k..] == b[k..] && (a + b)[..|a| + k] == a + b[..k]
  {
  }

  lemma CutWithin(a: string, b: string, k: nat)
    requires k <= |a|
    ensures (a + b)[k..] == a[k..] + b && (a + b)[..k] == a[..k]
  {
  }

  lemma CaptureSplits(suffix: string, rest: string) returns (tail: string)
    requires Capture(suffix, rest).Some?
    ensures rest == Capture(suffix, rest).value + (suffix + tail) && IsGroup(Capture(suffix, rest).value)
  {
    var signed := SignLength(rest);
    var run := RunLength(rest[signed..]);
    var group, end := rest[..signed + run], rest[signed + run..];
    assert rest == group + end;
    assert group[signed..] == rest[signed..][..run];
    assert SignLength(group) == signed;
    tail := end[|suffix|..];
    assert end == suffix + tail;
  }

  /** Whatever the scan captures is one way the pattern matches. */
  lemma ScanSplits(caption: string, suffix: string, text: string) returns (space: string, tail: string)
    requires MatchHere(caption, suffix, text).Some?
    ensures Splits(caption, suffix, text, space, MatchHere(caption, suffix, text).value, tail)
  {
    var after := text[|caption|..];
    space := SkipSpaceSplits(after);
    tail := CaptureSplits(suffix, SkipSpace(after));
    var group := MatchHere(caption, suffix, text).value;
    assert text == caption + (space + (group + (suffix + tail)));
    Regroup(caption, space, group, suffix, tail);
  }

  lemma Regroup(a: string, b: string, c: string, d: string, e: string)
    ensures a + (b + (c + (d + e))) == a + b + c + d + e
  {
  }

  /** A sign and a run of digits go on with the rest of the run. */
  lemma SignedRun(group: string, end: string)
    requires IsGroup(group)
    ensures SignLength(group + end) == SignLength(group)
    ensures RunLength((group + end)[SignLength(group)..]) == |group| - SignLength(group) + RunLength(end)
  {
    var signed := SignLength(group);
    CutWithin(group, end, signed);
    RunOfPrefix(group[signed..], end);
  }

  lemma CaptureIs(suffix: string, rest: string, signed: nat, run: nat)
    requires signed == SignLength(rest) && run == RunLength(rest[signed..])
    ensures Capture(suffix, rest)
            == if run > 0 && suffix <= rest[signed + run..] then Some(rest[..signed + run]) else None
  {
  }

  lemma CaptureOf(suffix: string, group: string, tail: string, signed: nat, run: nat)
    requires signed == SignLength(group + tail) && signed + run == |group|
    requires run == RunLength((group + tail)[signed..]) && run > 0 && suffix <= tail
    ensures Capture(suffix, group + tail) == Some(group)
  {
    CutAfter(group, tail, 0);
    CaptureIs(suffix, group + tail, signed, run);
  }

  lemma Resplit(a: string, b: string, k: nat)
    requires k <= |b|
    ensures a + b == (a + b[..k]) + b[k..]
  {
  }

  lemma CaptureExtends(suffix: string, group: string, end: string)
    requires IsGroup(group)
    requires RunLength(end) > 0 ==> suffix == []
    requires suffix <= end
    ensures Capture(suffix, group + end) == Some(group + end[..RunLength(end)])
  {
    var signed, more := SignLength(group), RunLength(end);
    SignedRun(group, end);
    SuffixAfterRun(suffix, end);
    Resplit(group, end, more);
    CaptureOf(suffix, group + end[..more], end[more..], signed, |group| - signed + more);
  }

  lemma SuffixAfterRun(suffix: string, end: string)
    requires suffix <= end && (RunLength(end) > 0 ==> suffix == [])
    ensures suffix <= end[RunLength(end)..]
  {
    assert end[0..] == end;
  }

  lemma BlanksThen(caption: string, suffix: string, space: string, rest: string)
    requires Blank(space) && (rest == [] || !IsSpace(rest[0]))
    ensures MatchHere(caption, suffix, caption + (space + rest)) == Capture(suffix, rest)
  {
    assert (caption + (space + rest))[|caption|..] == space + rest;
    SkipSpaceDrops(space, rest);
  }

  /** The scan misses no match and captures the longest group, as the greedy pattern does. */
  lemma ScanIsGreedy(caption: string, suffix: string, text: string, space: string, group: string, tail: string)
    requires suffix == [] || !IsNumeralChar(suffix[0])
    requires Splits(caption, suffix, text, space, group, tail)
    ensures MatchHere(caption, suffix, text).Some?
    ensures group <= MatchHere(caption, suffix, text).value
    ensures suffix != [] ==> group == MatchHere(caption, suffix, text).value
  {
    var end := suffix + tail;
    assert text == caption + (space + (group + end));
    BlanksThen(caption, suffix, space, group + end);
    CaptureExtends(suffix, group, end);
  }

  // ---------- lines ----------

  function Join(lines: seq<string>): string {
    if |lines| == 0 then ""
    else if |lines| == 1 then lines[0]
    else lines[0] + "\n" + Join(lines[1..])
  }

  predicate OneLine(s: string) {
    '\n' !in s
  }

  lemma {:induction false} SearchLeavesLine(caption: string, suffix: string, line: string, rest: string)
    requires OneLine(line)
    ensures Search(caption, suffix, line + "\n" + rest, false) == Search(caption, suffix, rest, true)
    ensures Search(caption, suffix, line, false) == None
  {
    var text := line + "\n" + rest;
    if line == [] {
      assert text == "\n" + rest && text[1..] == rest;
    } else {
      assert text[1..] == line[1..] + "\n" + rest;
      SearchLeavesLine(caption, suffix, line[1..], rest);
    }
  }

  /** What the pattern captures at the start of this line, whatever follows the line. */
  ghost predicate Reads(caption: string, suffix: string, line: string, group: Option<string>) {
    && MatchHere(caption, suffix, line) == group
    && forall rest: string :: MatchHere(caption, suffix, line + "\n" + rest) == group
  }

  lemma SearchSkipsLine(caption: string, suffix: string, line: string, rest: string)
    requires OneLine(line) && Reads(caption, suffix, line, None)
    ensures Search(caption, suffix, line + "\n" + rest, true) == Search(caption, suffix, rest, true)
    ensures Search(caption, suffix, line, true) == None
  {
    SearchLeavesLine(caption, suffix, line, rest);
    assert MatchHere(caption, suffix, line + "\n" + rest) == None;
  }

  /** A line that does not begin with the caption is not read. */
  lemma OtherLine(caption: string, suffix: string, line: string)
    requires OneLine(line) && OneLine(caption) && !(caption <= line)
    ensures Reads(caption, suffix, line, None)
  {
    forall rest: string
      ensures MatchHere(caption, suffix, line + "\n" + rest) == None
    {
      PrefixWithinLine(caption, line, rest);
    }
  }

  lemma PrefixWithinLine(caption: string, line: string, rest: string)
    requires OneLine(caption)
    ensures caption <= line + "\n" + rest ==> caption <= line
  {
    var text := line + "\n" + rest;
    assert text[|line|] == '\n';
    assert |caption| <= |line| ==> text[..|caption|] == line[..|caption|];
  }

  /** A line that a pattern reads: the caption, a blank, a numeral, then a tail that begins with the suffix. */
  ghost predicate Labelled(line: string, caption: string, suffix: string, num: string, tail: string) {
    && line == caption + " " + num + tail && IsNumeral(num)
    && suffix <= tail && (tail == [] || !IsNumeralChar(tail[0]))
  }

  lemma NumeralIsGroup(num: string)
    requires IsNumeral(num)
    ensures IsGroup(num) && num != [] && (IsSign(num[0]) || IsNumeralChar(num[0]))
  {
    var d := num[SignLength(num)..];
    var e := if num[0] == '+' || num[0] == '-' then num[1..] else num;
    assert d == e;
  }

  lemma NumberIsNotSpace(c: char)
    requires IsSign(c) || IsNumeralChar(c)
    ensures !IsSpace(c)
  {
  }

  lemma Nest(a: string, b: string, c: string, d: string)
    ensures a + b + c + d == a + (b + (c + d))
  {
  }

  lemma LabelledMatches(caption: string, suffix: string, line: string, num: string, tail: string)
    requires Labelled(line, caption, suffix, num, tail)
    ensures MatchHere(caption, suffix, line) == Some(num)
  {
    Nest(caption, " ", num, tail);
    NumeralIsGroup(num);
    NumberIsNotSpace(num[0]);
    assert (num + tail)[0] == num[0];
    BlanksThen(caption, suffix, " ", num + tail);
    CaptureExtends(suffix, num, tail);
  }

  lemma LabelledReads(caption: string, suffix: string, line: string, num: string, tail: string)
    requires Labelled(line, caption, suffix, num, tail)
    ensures Reads(caption, suffix, line, Some(num))
  {
    LabelledMatches(caption, suffix, line, num, tail);
    forall rest: string
      ensures MatchHere(caption, suffix, line + "\n" + rest) == Some(num)
    {
      LabelledGoesOn(caption, suffix, line, num, tail, "\n" + rest);
      assert line + "\n" + rest == line + ("\n" + rest);
      LabelledMatches(caption, suffix, line + ("\n" + rest), num, tail + ("\n" + rest));
    }
  }

  lemma LabelledGoesOn(caption: string, suffix: string, line: string, num: string, tail: string, more: string)
    requires Labelled(line, caption, suffix, num, tail) && more != [] && more[0] == '\n'
    ensures Labelled(line + more, caption, suffix, num, tail + more)
  {
    assert caption + " " + num + tail + more == caption + " " + num + (tail + more);
  }

  // ---------- a caption at the start of a name ----------

  /** Text that ends any capture: a blank, then neither a blank nor part of a number. */
  predicate Ends(more: string) {
    |more| > 1 && more[0] == ' ' && !IsSpace(more[1]) && !IsSign(more[1]) && !IsNumeralChar(more[1])
  }

  lemma {:induction false} RunStops(s: string, more: string)
    requires more == [] || !IsNumeralChar(more[0])
    ensures RunLength(s + more) == RunLength(s)
  {
    if s == [] {
      assert s + more == more;
    } else {
      assert (s + more)[1..] == s[1..] + more;
      RunStops(s[1..], more);
    }
  }

  lemma SuffixStops(suffix: string, s: string, more: string)
    requires Ends(more) && |suffix| <= 1 && ' ' !in suffix
    ensures suffix <= s + more <==> suffix <= s
  {
    if suffix != [] {
      assert suffix[0] != ' ';
      assert s == [] ==> (s + more)[0] == ' ';
    }
  }

  lemma RunOfName(s: string, more: string)
    requires s != [] && Ends(more)
    ensures SignLength(s + more) == SignLength(s)
    ensures RunLength((s + more)[SignLength(s)..]) == RunLength(s[SignLength(s)..])
  {
    CutWithin(s, more, SignLength(s));
    RunStops(s[SignLength(s)..], more);
  }

  lemma CaptureStops(suffix: string, s: string, more: string)
    requires s != [] && Ends(more) && |suffix| <= 1 && ' ' !in suffix
    ensures Capture(suffix, s + more) == Capture(suffix, s)
  {
    var signed, run := SignLength(s), RunLength(s[SignLength(s)..]);
    RunOfName(s, more);
    CutWithin(s, more, signed + run);
    SuffixStops(suffix, s[signed + run..], more);
    CaptureIs(suffix, s, signed, run);
    CaptureIs(suffix, s + more, signed, run);
  }

  lemma {:induction false} SkipThenStops(suffix: string, s: string, more: string)
    requires Ends(more) && |suffix| <= 1 && ' ' !in suffix
    ensures Capture(suffix, SkipSpace(s + more)) == Capture(suffix, SkipSpace(s))
  {
    if s == [] {
      assert s + more == more;
      assert SkipSpace(more[1..]) == more[1..];
    } else if IsSpace(s[0]) {
      assert (s + more)[1..] == s[1..] + more;
      SkipThenStops(suffix, s[1..], more);
    } else {
      assert (s + more)[0] == s[0];
      CaptureStops(suffix, s, more);
    }
  }

  /** What follows a name has no part in what is captured from it. */
  lemma NameDecides(caption: string, suffix: string, name: string, more: string)
    requires caption <= name && Ends(more) && |suffix| <= 1 && ' ' !in suffix
    ensures MatchHere(caption, suffix, name + more) == MatchHere(caption, suffix, name)
  {
    assert (name + more)[..|caption|] == name[..|caption|] == caption;
    CutWithin(name, more, |caption|);
    SkipThenStops(suffix, name[|caption|..], more);
  }

  lemma NameReadsAlone(caption: string, suffix: string, name: string, more: string)
    requires caption <= name && Ends(more) && |suffix| <= 1 && ' ' !in suffix
    ensures Reads(caption, suffix, name + more, MatchHere(caption, suffix, name))
  {
    NameDecides(caption, suffix, name, more);
    forall rest: string
      ensures MatchHere(caption, suffix, name + more + "\n" + rest) == MatchHere(caption, suffix, name)
    {
      assert name + more + "\n" + rest == name + (more + "\n" + rest);
      NameDecides(caption, suffix, name, more + "\n" + rest);
    }
  }

  // ---------- searching a text of lines ----------

  ghost predicate AllSingle(lines: seq<string>) {
    forall i :: 0 <= i < |lines| ==> OneLine(lines[i])
  }

  ghost predicate NoneReads(caption: string, suffix: string, lines: seq<string>) {
    forall i :: 0 <= i < |lines| ==> Reads(caption, suffix, lines[i], None)
  }

  /** No line is read: nothing is found. */
  lemma {:induction false} NothingFound(caption: string, suffix: string, lines: seq<string>)
    requires caption != [] && AllSingle(lines) && NoneReads(caption, suffix, lines)
    ensures Search(caption, suffix, Join(lines), true) == None
    decreases |lines|
  {
    if |lines| > 0 {
      assert OneLine(lines[0]) && Reads(caption, suffix, lines[0], None);
      SearchSkipsLine(caption, suffix, lines[0], if |lines| == 1 then "" else Join(lines[1..]));
      if |lines| > 1 {
        NothingFound(caption, suffix, lines[1..]);
      }
    }
  }

  /** The first line that is read decides. */
  lemma {:induction false} FoundAt(caption: string, suffix: string, lines: seq<string>, k: nat, group: string)
    requires k < |lines| && AllSingle(lines[..k]) && NoneReads(caption, suffix, lines[..k])
    requires Reads(caption, suffix, lines[k], Some(group))
    ensures Search(caption, suffix, Join(lines), true) == Some(group)
    decreases k
  {
    if k == 0 {
      FoundFirst(caption, suffix, lines, group);
    } else {
      var before := lines[..k];
      assert before[0] == lines[0] && before[1..] == lines[1..][..k - 1];
      assert OneLine(before[0]) && Reads(caption, suffix, before[0], None);
      SearchSkipsLine(caption, suffix, lines[0], Join(lines[1..]));
      FoundAt(caption, suffix, lines[1..], k - 1, group);
    }
  }

  lemma FoundFirst(caption: string, suffix: string, lines: seq<string>, group: string)
    requires lines != [] && Reads(caption, suffix, lines[0], Some(group))
    ensures Search(caption, suffix, Join(lines), true) == Some(group)
  {
    if |lines| > 1 {
      assert MatchHere(caption, suffix, lines[0] + "\n" + Join(lines[1..])) == Some(group);
    }
  }
}
