/** The rotating screening universe of src/engine.py (`_screen_stocks`). */
module ScreeningUniverse {

  /** A screening result; a query returns them by ascending rank. */
  datatype Result = Result(code: string, converted: bool, screenedAt: int)

  /** The newest screening of a code. */
  ghost predicate IsLatest(results: seq<Result>, code: string, at: int) {
    && (exists k :: 0 <= k < |results| && results[k].code == code && results[k].screenedAt == at)
    && (forall k :: 0 <= k < |results| && results[k].code == code ==> results[k].screenedAt <= at)
  }

  /** Row k is the best-ranked row of its code. */
  ghost predicate FirstOfCode(results: seq<Result>, k: int)
    requires 0 <= k < |results|
  {
    forall j :: 0 <= j < k ==> results[j].code != results[k].code
  }

  /** Row k makes its code fresh: best rank of the code, converted, not watched, screened since the cutoff. */
  ghost predicate MakesFresh(results: seq<Result>, watchlist: set<string>, cutoff: int, k: int)
    requires 0 <= k < |results|
  {
    var code := results[k].code;
    && FirstOfCode(results, k) && results[k].converted && code !in watchlist
    && exists j :: 0 <= j < |results| && results[j].code == code && results[j].screenedAt >= cutoff
  }

  /** `rows` are the positions of the fresh codes among the first n results, best rank first. */
  ghost predicate FreshRows(results: seq<Result>, watchlist: set<string>, cutoff: int, rows: seq<int>, n: int) {
    && 0 <= n <= |results|
    && (forall i :: 0 <= i < |rows| ==> 0 <= rows[i] < n && MakesFresh(results, watchlist, cutoff, rows[i]))
    && (forall i, j :: 0 <= i < j < |rows| ==> rows[i] < rows[j])
    && (forall k :: 0 <= k < n && MakesFresh(results, watchlist, cutoff, k) ==> k in rows)
  }

  ghost predicate CodesAt(results: seq<Result>, rows: seq<int>, codes: seq<string>) {
    |codes| == |rows| && forall i :: 0 <= i < |rows| ==> 0 <= rows[i] < |results| && codes[i] == results[rows[i]].code
  }

  /** The fresh codes, each once, in rank order. */
  ghost predicate FreshCodes(results: seq<Result>, watchlist: set<string>, cutoff: int, codes: seq<string>) {
    exists rows :: FreshRows(results, watchlist, cutoff, rows, |results|) && CodesAt(results, rows, codes)
  }

  ghost predicate DistinctCodes(codes: seq<string>) {
    forall i, j :: 0 <= i < j < |codes| ==> codes[i] != codes[j]
  }

  lemma FreshRowsNext(results: seq<Result>, watchlist: set<string>, cutoff: int, rows: seq<int>, k: int)
    requires FreshRows(results, watchlist, cutoff, rows, k) && k < |results|
    ensures FreshRows(results, watchlist, cutoff,
      if MakesFresh(results, watchlist, cutoff, k) then rows + [k] else rows, k + 1)
  {
    var next := if MakesFresh(results, watchlist, cutoff, k) then rows + [k] else rows;
    forall i | 0 <= i <= k && MakesFresh(results, watchlist, cutoff, i) ensures i in next {
      if i == k { assert next[|rows|] == k; } else { assert i in rows; }
    }
  }

  lemma CodesAtNext(results: seq<Result>, rows: seq<int>, codes: seq<string>, k: int)
    requires CodesAt(results, rows, codes) && 0 <= k < |results|
    ensures CodesAt(results, rows + [k], codes + [results[k].code])
  {
  }

  ghost predicate AppearsBefore(results: seq<Result>, k: int, code: string) {
    0 <= k <= |results| && exists j :: 0 <= j < k && results[j].code == code
  }

  ghost predicate SeenAre(results: seq<Result>, seen: set<string>, k: int) {
    forall c :: c in seen <==> AppearsBefore(results, k, c)
  }

  lemma SeenNext(results: seq<Result>, seen: set<string>, k: int)
    requires 0 <= k < |results| && SeenAre(results, seen, k)
    ensures SeenAre(results, seen + {results[k].code}, k + 1)
  {
    forall c ensures AppearsBefore(results, k + 1, c) <==> AppearsBefore(results, k, c) || c == results[k].code {
      if AppearsBefore(results, k, c) {
        var j :| 0 <= j < k && results[j].code == c;
      }
    }
  }

  function Cap(maxScreened: int): nat {
    if maxScreened > 0 then maxScreened else 0
  }

  /** The refreshed universe: within the cap and as large as the cap allows, only fresh codes, every
      member that is still fresh kept, newcomers admitted strictly in rank order. */
  ghost predicate Rotated(before: set<string>, after: set<string>, ranked: seq<string>, cap: nat) {
    && (forall c :: c in after ==> c in ranked)
    && |after| == (if |ranked| < cap then |ranked| else cap)
    && (forall c :: c in before && c in ranked ==> c in after)
    && (forall i, j :: 0 <= i < j < |ranked| && ranked[j] in after && ranked[j] !in before ==> ranked[i] in after)
  }

  lemma {:induction false} DistinctCount(codes: seq<string>)
    requires DistinctCodes(codes)
    ensures |set c | c in codes| == |codes|
  {
    if codes != [] {
      var front, last := codes[..|codes| - 1], codes[|codes| - 1];
      DistinctCount(front);
      assert (set c | c in codes) == (set c | c in front) + {last};
    }
  }

  lemma SubsetCount(a: set<string>, b: set<string>)
    requires a <= b
    ensures |a| <= |b| && (|a| == |b| ==> a == b)
  {
    assert b == a + (b - a) && |b| == |a| + |b - a|;
  }

  lemma FreshCodesDistinct(results: seq<Result>, watchlist: set<string>, cutoff: int, rows: seq<int>, codes: seq<string>)
    requires FreshRows(results, watchlist, cutoff, rows, |results|) && CodesAt(results, rows, codes)
    ensures DistinctCodes(codes)
  {
    forall i, j | 0 <= i < j < |codes| ensures codes[i] != codes[j] {
      assert FirstOfCode(results, rows[j]);
    }
  }

  /** The contract leaves no choice: the refreshed universe is determined by the old one and the fresh codes. */
  lemma RotationIsDetermined(before: set<string>, a: set<string>, b: set<string>, ranked: seq<string>, cap: nat)
    requires DistinctCodes(ranked) && Rotated(before, a, ranked, cap) && Rotated(before, b, ranked, cap)
    ensures a == b
  {
    if exists c :: c in a && c !in b {
      var c :| c in a && c !in b;
      var j :| 0 <= j < |ranked| && ranked[j] == c;
      forall d | d in b ensures d in a {
        var i :| 0 <= i < |ranked| && ranked[i] == d;
        if d !in before {
          assert i < j;
        }
      }
      SubsetCount(b, a);
    } else {
      SubsetCount(a, b);
    }
  }

  /** What the loop over the first k results has gathered. */
  ghost predicate Gathered(results: seq<Result>, watchlist: set<string>, cutoff: int,
      rows: seq<int>, codes: seq<string>, seen: set<string>, k: int)
  {
    FreshRows(results, watchlist, cutoff, rows, k) && CodesAt(results, rows, codes) && SeenAre(results, seen, k)
  }

  /** The test the program makes on row k. */
  predicate Admits(r: Result, watchlist: set<string>, cutoff: int, seen: set<string>, latest: int) {
    r.code !in seen && r.converted && r.code !in watchlist && latest >= cutoff
  }

  lemma AdmitsFresh(results: seq<Result>, watchlist: set<string>, cutoff: int, k: int, seen: set<string>, latest: int)
    requires 0 <= k < |results| && IsLatest(results, results[k].code, latest) && SeenAre(results, seen, k)
    ensures MakesFresh(results, watchlist, cutoff, k) <==> Admits(results[k], watchlist, cutoff, seen, latest)
  {
    assert AppearsBefore(results, k, results[k].code) <==> !FirstOfCode(results, k);
  }

  lemma GatheredNext(results: seq<Result>, watchlist: set<string>, cutoff: int,
      rows: seq<int>, codes: seq<string>, seen: set<string>, k: int, latest: int)
    requires 0 <= k < |results| && IsLatest(results, results[k].code, latest)
    requires Gathered(results, watchlist, cutoff, rows, codes, seen, k)
    ensures var r := results[k];
      if Admits(r, watchlist, cutoff, seen, latest)
      then Gathered(results, watchlist, cutoff, rows + [k], codes + [r.code], seen + {r.code}, k + 1)
      else Gathered(results, watchlist, cutoff, rows, codes, seen + {r.code}, k + 1)
  {
    FreshRowsNext(results, watchlist, cutoff, rows, k);
    CodesAtNext(results, rows, codes, k);
    SeenNext(results, seen, k);
    AdmitsFresh(results, watchlist, cutoff, k, seen, latest);
  }

  lemma LatestNext(results: seq<Result>, k: int, latestAt: map<string, int>)
    requires 0 <= k < |results|
    requires forall c :: c in latestAt ==> IsLatest(results[..k], c, latestAt[c])
    requires forall j :: 0 <= j < k ==> results[j].code in latestAt
    ensures var r := results[k];
      var next := if r.code !in latestAt || r.screenedAt > latestAt[r.code]
                  then latestAt[r.code := r.screenedAt] else latestAt;
      forall c :: c in next ==> IsLatest(results[..k + 1], c, next[c])
  {
    var r := results[k];
    var next := if r.code !in latestAt || r.screenedAt > latestAt[r.code]
                then latestAt[r.code := r.screenedAt] else latestAt;
    var longer := results[..k + 1];
    assert longer[k] == r;
    forall c | c in next ensures IsLatest(longer, c, next[c]) {
      if c in latestAt && next[c] == latestAt[c] {
        assert IsLatest(results[..k], c, latestAt[c]);
        var j :| 0 <= j < k && results[..k][j].code == c && results[..k][j].screenedAt == latestAt[c];
        assert longer[j] == results[j];
      }
      forall j | 0 <= j < |longer| && longer[j].code == c ensures longer[j].screenedAt <= next[c] {
        if j < k { assert longer[j] == results[..k][j]; }
      }
    }
  }

  class Universe {
    const maxScreened: int
    var screenedCodes: set<string>

    ghost predicate Valid()
      reads this
    {
      |screenedCodes| <= Cap(maxScreened)
    }

    constructor (maxScreened: int)
      ensures Valid() && screenedCodes == {} && this.maxScreened == maxScreened
    {
      this.maxScreened, screenedCodes := maxScreened, {};
    }

    /** `_screen_stocks` on the rows of today's query; `cutoff` is now minus the fresh window. */
    method ScreenStocks(results: seq<Result>, watchlist: set<string>, cutoff: int) returns (freshCodes: seq<string>)
      requires Valid()
      modifies this
      ensures Valid() && FreshCodes(results, watchlist, cutoff, freshCodes) && DistinctCodes(freshCodes)
      ensures freshCodes == [] ==> screenedCodes == old(screenedCodes)
      ensures freshCodes != [] ==> Rotated(old(screenedCodes), screenedCodes, freshCodes, Cap(maxScreened))
    {
      var latestAt := Latest(results);
      freshCodes := Fresh(results, watchlist, cutoff, latestAt);
      Rotate(freshCodes);
    }

    /** The newest `screened_at` of every code. */
    static method Latest(results: seq<Result>) returns (latestAt: map<string, int>)
      ensures forall c :: c in latestAt ==> IsLatest(results, c, latestAt[c])
      ensures forall k :: 0 <= k < |results| ==> results[k].code in latestAt
    {
      latestAt := map[];
      for k := 0 to |results|
        invariant forall c :: c in latestAt ==> IsLatest(results[..k], c, latestAt[c])
        invariant forall j :: 0 <= j < k ==> results[j].code in latestAt
      {
        var r := results[k];
        LatestNext(results, k, latestAt);
        if r.code !in latestAt || r.screenedAt > latestAt[r.code] {
          latestAt := latestAt[r.code := r.screenedAt];
        }
      }
      assert results[..|results|] == results;
    }

    method Fresh(results: seq<Result>, watchlist: set<string>, cutoff: int, latestAt: map<string, int>)
      returns (freshCodes: seq<string>)
      requires forall c :: c in latestAt ==> IsLatest(results, c, latestAt[c])
      requires forall k :: 0 <= k < |results| ==> results[k].code in latestAt
      ensures FreshCodes(results, watchlist, cutoff, freshCodes) && DistinctCodes(freshCodes)
    {
      freshCodes := [];
      var seen: set<string> := {};
      ghost var rows: seq<int> := [];
      for k := 0 to |results|
        invariant Gathered(results, watchlist, cutoff, rows, freshCodes, seen, k)
      {
        var r := results[k];
        GatheredNext(results, watchlist, cutoff, rows, freshCodes, seen, k, latestAt[r.code]);
        if r.code in seen {
          assert seen + {r.code} == seen;
          continue;
        }
        seen := seen + {r.code};
        if r.converted && r.code !in watchlist && latestAt[r.code] >= cutoff {
          freshCodes, rows := freshCodes + [r.code], rows + [k];
        }
      }
      FreshCodesDistinct(results, watchlist, cutoff, rows, freshCodes);
    }

    /** Rotation (1) drops what is no longer fresh, unless nothing is; rotation (2) fills up in rank order. */
    method Rotate(freshCodes: seq<string>)
      requires Valid() && DistinctCodes(freshCodes)
      modifies this
      ensures Valid()
      ensures freshCodes == [] ==> screenedCodes == old(screenedCodes)
      ensures freshCodes != [] ==> Rotated(old(screenedCodes), screenedCodes, freshCodes, Cap(maxScreened))
    {
      if freshCodes == [] {
        return;
      }
      ghost var all := set c | c in freshCodes;
      DistinctCount(freshCodes);
      var stale := set c | c in screenedCodes && c !in freshCodes;
      SubsetCount(screenedCodes - stale, screenedCodes);
      screenedCodes := screenedCodes - stale;
      ghost var kept := screenedCodes;
      var i := 0;
      while i < |freshCodes|
        invariant 0 <= i <= |freshCodes| && Valid() && kept <= screenedCodes <= all
        invariant forall j :: 0 <= j < i ==> freshCodes[j] in screenedCodes
        invariant forall j :: i <= j < |freshCodes| && freshCodes[j] in screenedCodes ==> freshCodes[j] in kept
      {
        if |screenedCodes| >= maxScreened {
          break;
        }
        screenedCodes := screenedCodes + {freshCodes[i]};
        i := i + 1;
      }
      SubsetCount(screenedCodes, all);
      if i == |freshCodes| {
        assert screenedCodes == all;
      }
    }
  }
}
