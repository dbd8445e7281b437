/**
 * rag/ticker_matcher.py: stock names found in a text. Of the overlapping occurrences the leftmost,
 * and at one start the longest, is kept; the codes are returned once each, in order of discovery.
 */
module TickerMatcher {
  import opened Sorting

  datatype Stock = Stock(code: string, name: string)

  /** What the automaton yields: the position of a name's last character, and its payload. */
  datatype Hit = Hit(end: nat, code: string, name: string)

  datatype Match = Match(start: int, end: int, code: string, length: int)

  // ---------- occurrences ----------

  predicate IsHit(words: map<string, string>, text: string, h: Hit) {
    && h.end < |text| && 0 < |h.name| <= h.end + 1
    && text[h.end + 1 - |h.name|..h.end + 1] == h.name
    && h.name in words && words[h.name] == h.code
  }

  function AsMatch(h: Hit): Match {
    Match(h.end - |h.name| + 1, h.end, h.code, |h.name|)
  }

  ghost predicate Occurs(words: map<string, string>, text: string, m: Match) {
    && 0 <= m.start <= m.end < |text| && m.length == m.end + 1 - m.start
    && text[m.start..m.end + 1] in words && words[text[m.start..m.end + 1]] == m.code
  }

  /** The automaton reports every occurrence of every word once, in some order. */
  ghost predicate Lists(words: map<string, string>, text: string, found: seq<Hit>) {
    && (forall h :: h in found <==> IsHit(words, text, h))
    && (forall i, j :: 0 <= i < j < |found| ==> found[i] != found[j])
  }

  lemma HitsAreOccurrences(words: map<string, string>, text: string, h: Hit)
    requires IsHit(words, text, h)
    ensures Occurs(words, text, AsMatch(h))
  {
  }

  lemma OccurrenceIsHit(words: map<string, string>, text: string, m: Match) returns (h: Hit)
    requires Occurs(words, text, m)
    ensures IsHit(words, text, h) && AsMatch(h) == m
  {
    h := Hit(m.end, m.code, text[m.start..m.end + 1]);
  }

  // ---------- sorting: by start, the longer first ----------

  predicate KeyLeq(a: Match, b: Match) {
    a.start < b.start || (a.start == b.start && -a.length <= -b.length)
  }

  predicate KeyLess(a: Match, b: Match) {
    a.start < b.start || (a.start == b.start && a.length > b.length)
  }

  /** All occurrences, sorted. */
  ghost predicate Ranked(words: map<string, string>, text: string, ms: seq<Match>) {
    && StrictlySorted(ms, KeyLess)
    && forall m :: m in ms <==> Occurs(words, text, m)
  }

  ghost predicate Converted(found: seq<Hit>, matches: seq<Match>) {
    && |matches| == |found|
    && forall i :: 0 <= i < |found| ==> matches[i] == AsMatch(found[i])
  }

  lemma {:induction false} MatchesAreOccurrences(words: map<string, string>, text: string, found: seq<Hit>, matches: seq<Match>, m: Match)
    requires Lists(words, text, found) && Converted(found, matches)
    ensures m in matches <==> Occurs(words, text, m)
  {
    if m in matches {
      var i :| 0 <= i < |matches| && matches[i] == m;
      assert found[i] in found;
      HitsAreOccurrences(words, text, found[i]);
    }
    if Occurs(words, text, m) {
      var h := OccurrenceIsHit(words, text, m);
      assert h in found;
      var i :| 0 <= i < |found| && found[i] == h;
      assert matches[i] == m;
    }
  }

  lemma {:induction false} KeysDiffer(words: map<string, string>, text: string, found: seq<Hit>, matches: seq<Match>, i: nat, j: nat)
    requires Lists(words, text, found) && Converted(found, matches)
    requires i < |found| && j < |found| && i != j && Before(matches, KeyLeq, i, j)
    ensures KeyLess(matches[i], matches[j])
  {
    assert found[i] in found && found[j] in found && found[i] != found[j];
    if !KeyLess(matches[i], matches[j]) {
      SameKeySameHit(words, text, found[i], found[j]);
    }
  }

  lemma KeyLeqIsTotalPreorder()
    ensures TotalPreorder(KeyLeq)
  {
  }

  lemma {:induction false} SortingRanks(words: map<string, string>, text: string, found: seq<Hit>, matches: seq<Match>)
    requires Lists(words, text, found) && Converted(found, matches)
    ensures TotalPreorder(KeyLeq)
    ensures Ranked(words, text, Rearranged(matches, StableOrder(matches, KeyLeq)))
  {
    KeyLeqIsTotalPreorder();
    var order := StableOrder(matches, KeyLeq);
    var ms := Rearranged(matches, order);
    forall m
      ensures m in ms <==> Occurs(words, text, m)
    {
      MatchesAreOccurrences(words, text, found, matches, m);
    }
    forall j, k | 0 <= j < k < |ms|
      ensures KeyLess(ms[j], ms[k])
    {
      assert Before(matches, KeyLeq, order[j], order[k]);
      KeysDiffer(words, text, found, matches, order[j], order[k]);
    }
  }

  lemma SameKeySameHit(words: map<string, string>, text: string, g: Hit, h: Hit)
    requires IsHit(words, text, g) && IsHit(words, text, h)
    requires AsMatch(g).start == AsMatch(h).start && AsMatch(g).length == AsMatch(h).length
    ensures g == h
  {
  }

  // ---------- the selection ----------

  /** c begins no later than m does and reaches its start. */
  predicate Covers(c: Match, m: Match) {
    c.start <= m.start <= c.end
  }

  /** In text order and pairwise disjoint. */
  ghost predicate Apart(chosen: seq<Match>) {
    forall j, k :: 0 <= j < k < |chosen| ==> chosen[j].end < chosen[k].start
  }

  ghost predicate LongestHere(words: map<string, string>, text: string, c: Match) {
    forall m :: Occurs(words, text, m) && m.start == c.start ==> m.length <= c.length
  }

  ghost predicate KeptOrCovered(chosen: seq<Match>, m: Match) {
    m in chosen || exists c :: c in chosen && Covers(c, m)
  }

  /** The leftmost-longest selection: disjoint, each the longest at its start, every other occurrence covered. */
  ghost predicate LeftmostLongest(words: map<string, string>, text: string, chosen: seq<Match>) {
    && Apart(chosen)
    && (forall c :: c in chosen ==> Occurs(words, text, c) && LongestHere(words, text, c))
    && (forall m :: Occurs(words, text, m) ==> KeptOrCovered(chosen, m))
  }

  /** What the loop keeps of the sorted matches that are still to come. */
  function Selected(ms: seq<Match>, lastEnd: int): seq<Match> {
    if ms == [] then []
    else if ms[0].start <= lastEnd then Selected(ms[1..], lastEnd)
    else [ms[0]] + Selected(ms[1..], ms[0].end)
  }

  ghost predicate Spans(ms: seq<Match>) {
    forall m :: m in ms ==> m.start <= m.end
  }

  function Resume(ms: seq<Match>, lastEnd: int): int
    requires ms != []
  {
    if ms[0].start <= lastEnd then lastEnd else ms[0].end
  }

  lemma {:induction false} SelectedLater(ms: seq<Match>, lastEnd: int)
    requires Spans(ms)
    ensures forall c :: c in Selected(ms, lastEnd) ==> c in ms && c.start > lastEnd
  {
    if ms != [] {
      assert ms[0] in ms && forall m :: m in ms[1..] ==> m in ms;
      SelectedLater(ms[1..], Resume(ms, lastEnd));
    }
  }

  lemma {:induction false} SelectedApart(ms: seq<Match>, lastEnd: int)
    requires Spans(ms)
    ensures Apart(Selected(ms, lastEnd))
  {
    if ms != [] {
      assert forall m :: m in ms[1..] ==> m in ms;
      SelectedApart(ms[1..], Resume(ms, lastEnd));
      SelectedLater(ms[1..], Resume(ms, lastEnd));
      var rest := Selected(ms[1..], Resume(ms, lastEnd));
      assert forall k :: 0 <= k < |rest| ==> rest[k] in rest;
    }
  }

  lemma {:induction false} SelectedCovers(ms: seq<Match>, lastEnd: int, m: Match)
    requires Spans(ms) && m in ms && m.start > lastEnd
    requires StrictlySorted(ms, KeyLess)
    ensures KeptOrCovered(Selected(ms, lastEnd), m)
  {
    var first, rest := ms[0], ms[1..];
    assert first in ms && forall x :: x in rest ==> x in ms;
    if first.start <= lastEnd {
      SelectedCovers(rest, lastEnd, m);
    } else if m == first {
      assert m in Selected(ms, lastEnd);
    } else {
      assert m in rest && first.start <= m.start;
      assert Selected(ms, lastEnd)[0] == first;
      if m.start > first.end {
        SelectedCovers(rest, first.end, m);
        assert forall c :: c in Selected(rest, first.end) ==> c in Selected(ms, lastEnd);
      } else {
        assert Covers(first, m);
      }
    }
  }

  lemma {:induction false} SelectedLongest(ms: seq<Match>, lastEnd: int, c: Match, m: Match)
    requires Spans(ms) && StrictlySorted(ms, KeyLess)
    requires c in Selected(ms, lastEnd) && m in ms && m.start == c.start
    ensures m.length <= c.length
  {
    var first, rest := ms[0], ms[1..];
    assert first in ms && forall x :: x in rest ==> x in ms;
    SelectedLater(ms, lastEnd);
    if first.start <= lastEnd {
      SelectedLongest(rest, lastEnd, c, m);
    } else if c == first {
      if m != first {
        var k :| 0 < k < |ms| && ms[k] == m;
        assert KeyLess(ms[0], ms[k]);
      }
    } else {
      assert c in Selected(rest, first.end);
      SelectedLater(rest, first.end);
      SelectedLongest(rest, first.end, c, m);
    }
  }

  /** The greedy pass over the sorted matches makes the leftmost-longest selection. */
  lemma SelectionIsLeftmostLongest(words: map<string, string>, text: string, ms: seq<Match>)
    requires Ranked(words, text, ms)
    ensures LeftmostLongest(words, text, Selected(ms, -1))
  {
    var chosen := Selected(ms, -1);
    SelectedApart(ms, -1);
    SelectedLater(ms, -1);
    forall c | c in chosen
      ensures Occurs(words, text, c) && LongestHere(words, text, c)
    {
      forall m | Occurs(words, text, m) && m.start == c.start
        ensures m.length <= c.length
      {
        SelectedLongest(ms, -1, c, m);
      }
    }
    forall m | Occurs(words, text, m)
      ensures KeptOrCovered(chosen, m)
    {
      SelectedCovers(ms, -1, m);
    }
  }

  /** There is only one such selection. */
  lemma {:induction false} SelectionIsUnique(words: map<string, string>, text: string, a: seq<Match>, b: seq<Match>)
    requires LeftmostLongest(words, text, a) && LeftmostLongest(words, text, b)
    ensures a == b
  {
    PrefixesAgree(words, text, a, b, |a|);
    PrefixesAgree(words, text, b, a, |b|);
  }

  lemma {:induction false} PrefixesAgree(words: map<string, string>, text: string, a: seq<Match>, b: seq<Match>, n: nat)
    requires LeftmostLongest(words, text, a) && LeftmostLongest(words, text, b) && n <= |a|
    ensures n <= |b| && a[..n] == b[..n]
    decreases n
  {
    if n > 0 {
      PrefixesAgree(words, text, a, b, n - 1);
      NextIsSame(words, text, a, b, n - 1);
      assert a[..n] == a[..n - 1] + [a[n - 1]] && b[..n] == b[..n - 1] + [b[n - 1]];
    }
  }

  lemma NextIsSame(words: map<string, string>, text: string, a: seq<Match>, b: seq<Match>, n: nat)
    requires LeftmostLongest(words, text, a) && LeftmostLongest(words, text, b)
    requires n < |a| && n <= |b| && a[..n] == b[..n]
    ensures n < |b| && a[n] == b[n]
  {
    NextIsNoEarlier(words, text, a, b, n);
    NextIsNoEarlier(words, text, b, a, n);
    assert a[n] in a && b[n] in b;
    SameStartSameMatch(words, text, a[n], b[n]);
  }

  lemma SameStartSameMatch(words: map<string, string>, text: string, c: Match, d: Match)
    requires Occurs(words, text, c) && Occurs(words, text, d) && c.start == d.start
    requires LongestHere(words, text, c) && LongestHere(words, text, d)
    ensures c == d
  {
  }

  /** Given the same first n choices, the next one of a is taken, or overtaken, by b. */
  lemma NextIsNoEarlier(words: map<string, string>, text: string, a: seq<Match>, b: seq<Match>, n: nat)
    requires LeftmostLongest(words, text, a) && LeftmostLongest(words, text, b)
    requires n < |a| && n <= |b| && a[..n] == b[..n]
    ensures n < |b| && b[n].start <= a[n].start
  {
    assert a[n] in a && Occurs(words, text, a[n]);
    assert KeptOrCovered(b, a[n]);
    var c: Match := if a[n] in b then a[n] else var x :| x in b && Covers(x, a[n]); x;
    var k :| 0 <= k < |b| && b[k] == c;
    forall j | 0 <= j < n
      ensures b[j].end < a[n].start
    {
      assert a[..n][j] == b[..n][j];
    }
    assert n < k ==> b[n].end < b[k].start;
    assert b[n] in b && Occurs(words, text, b[n]);
  }

  // ---------- codes ----------

  /** Each code once, in order of its first match. */
  function FirstCodes(chosen: seq<Match>): seq<string> {
    if chosen == [] then []
    else
      var n := |chosen| - 1;
      var before := FirstCodes(chosen[..n]);
      if chosen[n].code in before then before else before + [chosen[n].code]
  }

  ghost predicate FirstAt(chosen: seq<Match>, i: nat, code: string) {
    && i < |chosen| && chosen[i].code == code
    && forall j :: 0 <= j < i ==> chosen[j].code != code
  }

  ghost predicate FirstsAt(chosen: seq<Match>, codes: seq<string>, at: seq<nat>) {
    && |at| == |codes|
    && (forall k :: 0 <= k < |at| ==> FirstAt(chosen, at[k], codes[k]))
    && (forall j, k :: 0 <= j < k < |at| ==> at[j] < at[k])
    && (forall i :: 0 <= i < |chosen| ==> chosen[i].code in codes)
  }

  /** The codes are those of the first matches at strictly increasing positions, and none is missing. */
  lemma {:induction false} CodesInOrderOfDiscovery(chosen: seq<Match>) returns (at: seq<nat>)
    ensures FirstsAt(chosen, FirstCodes(chosen), at)
  {
    if chosen == [] {
      at := [];
    } else {
      var n := |chosen| - 1;
      var before := FirstCodes(chosen[..n]);
      at := CodesInOrderOfDiscovery(chosen[..n]);
      OneMoreMatch(chosen, before, at);
      if chosen[n].code !in before {
        at := at + [n];
      }
    }
  }

  lemma OneMoreMatch(chosen: seq<Match>, codes: seq<string>, at: seq<nat>)
    requires chosen != [] && FirstsAt(chosen[..|chosen| - 1], codes, at)
    ensures
      var n := |chosen| - 1;
      if chosen[n].code in codes then FirstsAt(chosen, codes, at)
      else FirstsAt(chosen, codes + [chosen[n].code], at + [n])
  {
    var n := |chosen| - 1;
    assert forall i :: 0 <= i < n ==> chosen[..n][i] == chosen[i];
    forall k | 0 <= k < |at|
      ensures FirstAt(chosen, at[k], codes[k])
    {
      assert FirstAt(chosen[..n], at[k], codes[k]);
    }
    assert chosen[n].code !in codes ==> FirstAt(chosen, n, chosen[n].code);
  }

  lemma CodesAreDistinct(chosen: seq<Match>, j: nat, k: nat)
    requires j < k < |FirstCodes(chosen)|
    ensures FirstCodes(chosen)[j] != FirstCodes(chosen)[k]
  {
    var at := CodesInOrderOfDiscovery(chosen);
    assert FirstAt(chosen, at[j], FirstCodes(chosen)[j]) && FirstAt(chosen, at[k], FirstCodes(chosen)[k]);
  }

  // ---------- the matcher ----------

  /** The words of the automaton: names long enough, the last code given for a name. */
  function KeptWords(stocks: seq<Stock>, minLength: int): map<string, string> {
    if stocks == [] then map[]
    else
      var n := |stocks| - 1;
      var before := KeptWords(stocks[..n], minLength);
      if !Usable(stocks[n].name, minLength) then before
      else before[stocks[n].name := stocks[n].code]
  }

  predicate Usable(name: string, minLength: int) {
    name != [] && |name| >= minLength
  }

  ghost predicate LastOf(stocks: seq<Stock>, name: string, code: string) {
    exists i {:trigger stocks[i]} :: 0 <= i < |stocks| && stocks[i] == Stock(code, name) && NoneAfter(stocks, i, name)
  }

  ghost predicate NoneAfter(stocks: seq<Stock>, i: int, name: string) {
    forall j :: 0 <= j < |stocks| && i < j ==> stocks[j].name != name
  }

  ghost predicate Named(stocks: seq<Stock>, name: string) {
    exists i :: 0 <= i < |stocks| && stocks[i].name == name
  }

  lemma OneMoreStock(stocks: seq<Stock>, name: string, code: string)
    requires stocks != []
    ensures
      var n := |stocks| - 1;
      && (Named(stocks, name) <==> stocks[n].name == name || Named(stocks[..n], name))
      && (stocks[n].name == name ==> LastOf(stocks, name, stocks[n].code))
      && (stocks[n].name != name && LastOf(stocks[..n], name, code) ==> LastOf(stocks, name, code))
  {
    var n := |stocks| - 1;
    assert forall i :: 0 <= i < n ==> stocks[..n][i] == stocks[i];
    if stocks[n].name == name {
      assert stocks[n] == Stock(stocks[n].code, name) && NoneAfter(stocks, n, name);
    } else if LastOf(stocks[..n], name, code) {
      var i :| 0 <= i < n && stocks[..n][i] == Stock(code, name) && NoneAfter(stocks[..n], i, name);
      assert stocks[i] == Stock(code, name) && NoneAfter(stocks, i, name);
    }
  }

  /** Exactly the usable names are words, each with the code of its last stock. */
  lemma {:induction false} LastStockWins(stocks: seq<Stock>, minLength: int, name: string)
    ensures name in KeptWords(stocks, minLength) <==>
            name != [] && |name| >= minLength && exists i :: 0 <= i < |stocks| && stocks[i].name == name
    ensures name in KeptWords(stocks, minLength) ==> LastOf(stocks, name, KeptWords(stocks, minLength)[name])
  {
    assert Named(stocks, name) <==> exists i :: 0 <= i < |stocks| && stocks[i].name == name;
    if stocks != [] {
      var n := |stocks| - 1;
      var before := KeptWords(stocks[..n], minLength);
      LastStockWins(stocks[..n], minLength, name);
      assert Named(stocks[..n], name) <==> exists i :: 0 <= i < n && stocks[..n][i].name == name;
      OneMoreStock(stocks, name, if name in before then before[name] else "");
    }
  }

  class TickerMatcher {
    var words: map<string, string>

    constructor (stocks: seq<Stock>, minLength: int)
      ensures words == KeptWords(stocks, minLength)
    {
      words := map[];
      new;
      for i := 0 to |stocks|
        invariant words == KeptWords(stocks[..i], minLength)
      {
        assert stocks[..i + 1][..i] == stocks[..i];
        if Usable(stocks[i].name, minLength) {
          words := words[stocks[i].name := stocks[i].code];
        }
      }
      assert stocks[..|stocks|] == stocks;
    }

    /** `found` is what iterating the automaton over the text yields. */
    method Match(text: string, found: seq<Hit>) returns (codes: seq<string>)
      requires Lists(words, text, found)
      ensures exists chosen :: LeftmostLongest(words, text, chosen) && codes == FirstCodes(chosen)
    {
      if text == [] || |words| == 0 {
        assert forall m :: !Occurs(words, text, m);
        assert LeftmostLongest(words, text, []);
        return [];
      }
      var matches: seq<Match> := [];
      for i := 0 to |found|
        invariant Converted(found[..i], matches)
      {
        matches := matches + [AsMatch(found[i])];
      }
      assert found[..|found|] == found;
      SortingRanks(words, text, found, matches);
      matches := Rearranged(matches, StableOrder(matches, KeyLeq));
      SelectionIsLeftmostLongest(words, text, matches);
      codes := Select(matches);
    }

    /** One step of the loop, either way. */
    static lemma SelectedStep(chosen: seq<Match>, ms: seq<Match>, i: nat, lastEnd: int)
      requires i < |ms|
      ensures ms[i].start <= lastEnd ==> Selected(ms[i..], lastEnd) == Selected(ms[i + 1..], lastEnd)
      ensures ms[i].start > lastEnd ==>
                chosen + Selected(ms[i..], lastEnd) == chosen + [ms[i]] + Selected(ms[i + 1..], ms[i].end)
    {
      assert ms[i..][0] == ms[i] && ms[i..][1..] == ms[i + 1..];
    }

    static lemma NextCode(chosen: seq<Match>, m: Match)
      ensures FirstCodes(chosen + [m])
              == if m.code in FirstCodes(chosen) then FirstCodes(chosen) else FirstCodes(chosen) + [m.code]
    {
      assert (chosen + [m])[..|chosen|] == chosen;
    }

    /** The selection loop over the sorted matches. */
    static method Select(matches: seq<Match>) returns (codes: seq<string>)
      ensures codes == FirstCodes(Selected(matches, -1))
    {
      codes := [];
      ghost var chosen: seq<Match> := [];
      var seen: set<string> := {};
      var lastEnd := -1;
      for i := 0 to |matches|
        invariant chosen + Selected(matches[i..], lastEnd) == Selected(matches, -1)
        invariant codes == FirstCodes(chosen)
        invariant forall c :: c in seen <==> c in codes
      {
        var m := matches[i];
        SelectedStep(chosen, matches, i, lastEnd);
        NextCode(chosen, m);
        if m.start <= lastEnd {
          continue;
        }
        lastEnd := m.end;
        chosen := chosen + [m];
        if m.code !in seen {
          codes := codes + [m.code];
          seen := seen + {m.code};
        }
      }
      assert matches[|matches|..] == [] && chosen + [] == chosen;
    }
  }

  /** The codes depend on the text and the words alone, not on the order in which the automaton reports. */
  lemma ReportingOrderIsIrrelevant(words: map<string, string>, text: string, a: seq<Match>, b: seq<Match>)
    requires LeftmostLongest(words, text, a) && LeftmostLongest(words, text, b)
    ensures FirstCodes(a) == FirstCodes(b)
  {
    SelectionIsUnique(words, text, a, b);
  }
}
