/** src/harness/dependency.py: proposals that may run in parallel.  Two proposals belong
    together when a chain of pairwise file-sharing proposals links them, or when neither
    names any file. */
module DependencyGroups {
  import opened Sorting
  import opened UnionFind

  /** A missing "files" key is the empty list, as both uses of `p.get("files")` treat it. */
  datatype Proposal = Proposal(path: string, files: seq<string>)

  // ---------- what the groups should be ----------

  ghost predicate ShareFile(ps: seq<Proposal>, i: nat, j: nat) {
    i < |ps| && j < |ps| && exists f :: f in ps[i].files && f in ps[j].files
  }

  ghost predicate BothEmpty(ps: seq<Proposal>, i: nat, j: nat) {
    i < |ps| && j < |ps| && ps[i].files == [] == ps[j].files
  }

  ghost predicate Linked(ps: seq<Proposal>, i: nat, j: nat) {
    ShareFile(ps, i, j) || BothEmpty(ps, i, j)
  }

  ghost predicate Chain(ps: seq<Proposal>, c: seq<nat>) {
    && c != []
    && (forall k :: 0 <= k < |c| ==> c[k] < |ps|)
    && (forall k :: 0 < k < |c| ==> Linked(ps, c[k - 1], c[k]))
  }

  ghost predicate ChainBetween(ps: seq<Proposal>, c: seq<nat>, i: nat, j: nat) {
    Chain(ps, c) && c[0] == i && c[|c| - 1] == j
  }

  ghost predicate Connected(ps: seq<Proposal>, i: nat, j: nat) {
    exists c :: ChainBetween(ps, c, i, j)
  }

  lemma ConnectedReflexive(ps: seq<Proposal>, i: nat)
    requires i < |ps|
    ensures Connected(ps, i, i)
  {
    assert ChainBetween(ps, [i], i, i);
  }

  lemma ConnectedSymmetric(ps: seq<Proposal>, i: nat, j: nat)
    requires Connected(ps, i, j)
    ensures Connected(ps, j, i)
  {
    var c :| ChainBetween(ps, c, i, j);
    var back := seq(|c|, k requires 0 <= k < |c| => c[|c| - 1 - k]);
    forall k | 0 < k < |back| ensures Linked(ps, back[k - 1], back[k]) {
      assert Linked(ps, c[|c| - 1 - k], c[|c| - k]);
    }
    assert ChainBetween(ps, back, j, i);
  }

  lemma ConnectedTransitive(ps: seq<Proposal>, i: nat, j: nat, k: nat)
    requires Connected(ps, i, j) && Connected(ps, j, k)
    ensures Connected(ps, i, k)
  {
    var c :| ChainBetween(ps, c, i, j);
    var d :| ChainBetween(ps, d, j, k);
    assert ChainBetween(ps, c + d[1..], i, k);
  }

  lemma LinkedConnects(ps: seq<Proposal>, i: nat, j: nat)
    requires Linked(ps, i, j)
    ensures Connected(ps, i, j)
  {
    assert ChainBetween(ps, [i, j], i, j);
  }

  ghost predicate SharingChain(ps: seq<Proposal>, c: seq<nat>, i: nat, j: nat) {
    ChainBetween(ps, c, i, j) && forall k :: 0 < k < |c| ==> ShareFile(ps, c[k - 1], c[k])
  }

  lemma {:induction false} ChainSharesOrIsEmpty(ps: seq<Proposal>, c: seq<nat>, i: nat, j: nat)
    requires ChainBetween(ps, c, i, j)
    ensures BothEmpty(ps, i, j) || SharingChain(ps, c, i, j)
  {
    if |c| > 1 {
      assert Linked(ps, c[0], c[1]);
      ChainSharesOrIsEmpty(ps, c[1..], c[1], j);
      if ShareFile(ps, c[0], c[1]) {
        forall k | 1 < k < |c| && SharingChain(ps, c[1..], c[1], j) ensures ShareFile(ps, c[k - 1], c[k]) {
          assert ShareFile(ps, c[1..][k - 2], c[1..][k - 1]);
        }
      } else if |c| > 2 {
        assert !ShareFile(ps, c[1..][0], c[1..][1]);
      }
    }
  }

  /** The rule in the module's own words: neither has files, or shared files link the two. */
  lemma ConnectedMeans(ps: seq<Proposal>, i: nat, j: nat)
    ensures Connected(ps, i, j) <==> BothEmpty(ps, i, j) || exists c :: SharingChain(ps, c, i, j)
  {
    if Connected(ps, i, j) {
      var c :| ChainBetween(ps, c, i, j);
      ChainSharesOrIsEmpty(ps, c, i, j);
    }
    if BothEmpty(ps, i, j) { LinkedConnects(ps, i, j); }
  }

  // ---------- the classes of the union-find against the links ----------

  ghost predicate Same(classes: map<nat, nat>, i: nat, j: nat) {
    i in classes && j in classes && classes[i] == classes[j]
  }

  ghost predicate Sound(ps: seq<Proposal>, classes: map<nat, nat>) {
    && (forall i :: i in classes <==> 0 <= i < |ps|)
    && (forall i, j :: Same(classes, i, j) ==> Connected(ps, i, j))
  }

  lemma MergingIsSound(ps: seq<Proposal>, classes: map<nat, nat>, a: nat, b: nat)
    requires Sound(ps, classes) && Linked(ps, a, b)
    ensures Sound(ps, Merged(classes, a, b))
  {
    var merged := Merged(classes, a, b);
    LinkedConnects(ps, a, b);
    ConnectedSymmetric(ps, a, b);
    forall i, j | Same(merged, i, j) ensures Connected(ps, i, j) {
      if !Same(classes, i, j) {
        var (x, y) := if Same(classes, i, a) then (a, b) else (b, a);
        assert Same(classes, i, x) && Same(classes, y, j);
        ConnectedTransitive(ps, i, x, y);
        ConnectedTransitive(ps, i, y, j);
      }
    }
  }

  lemma MergingKeepsSame(classes: map<nat, nat>, a: nat, b: nat)
    requires a in classes && b in classes
    ensures forall i, j :: Same(classes, i, j) ==> Same(Merged(classes, a, b), i, j)
    ensures Same(Merged(classes, a, b), a, b)
  {
  }

  ghost predicate Complete(ps: seq<Proposal>, classes: map<nat, nat>) {
    forall i, j :: Linked(ps, i, j) ==> Same(classes, i, j)
  }

  lemma {:induction false} CompleteAlongChain(ps: seq<Proposal>, classes: map<nat, nat>, c: seq<nat>)
    requires Sound(ps, classes) && Complete(ps, classes) && Chain(ps, c)
    ensures Same(classes, c[0], c[|c| - 1])
  {
    if |c| > 1 {
      assert Linked(ps, c[0], c[1]);
      CompleteAlongChain(ps, classes, c[1..]);
    }
  }

  lemma ClassesAreConnection(ps: seq<Proposal>, classes: map<nat, nat>)
    requires Sound(ps, classes) && Complete(ps, classes)
    ensures forall i, j :: Same(classes, i, j) <==> Connected(ps, i, j)
  {
    forall i, j | Connected(ps, i, j) ensures Same(classes, i, j) {
      var c :| ChainBetween(ps, c, i, j);
      CompleteAlongChain(ps, classes, c);
    }
  }

  /** File k of proposal i is known, and its first owner is in i's class. */
  ghost predicate Filed(ps: seq<Proposal>, owner: map<string, nat>, classes: map<nat, nat>, i: nat, k: nat) {
    i < |ps| && k < |ps[i].files| ==>
      ps[i].files[k] in owner && Same(classes, owner[ps[i].files[k]], i)
  }

  ghost predicate Owners(ps: seq<Proposal>, owner: map<string, nat>) {
    forall f :: f in owner ==> owner[f] < |ps| && f in ps[owner[f]].files
  }

  lemma FiledIsComplete(ps: seq<Proposal>, owner: map<string, nat>, classes: map<nat, nat>)
    requires forall i: nat, k: nat :: i < |ps| ==> Filed(ps, owner, classes, i, k)
    requires forall i, j :: BothEmpty(ps, i, j) ==> Same(classes, i, j)
    ensures Complete(ps, classes)
  {
    forall i: nat, j: nat | ShareFile(ps, i, j) ensures Same(classes, i, j) {
      var f :| f in ps[i].files && f in ps[j].files;
      var k :| 0 <= k < |ps[i].files| && ps[i].files[k] == f;
      var l :| 0 <= l < |ps[j].files| && ps[j].files[l] == f;
      assert Filed(ps, owner, classes, i, k) && Filed(ps, owner, classes, j, l);
    }
  }

  // ---------- the output ----------

  /** Order inside a group: by path, equal paths by position in the input. */
  ghost predicate PathBefore(ps: seq<Proposal>, i: nat, j: nat)
    requires i < |ps| && j < |ps|
  {
    TextLess(ps[i].path, ps[j].path) || (ps[i].path == ps[j].path && i < j)
  }

  ghost predicate InRange(ps: seq<Proposal>, ix: seq<seq<nat>>) {
    forall g :: 0 <= g < |ix| ==> ix[g] != [] && forall k :: 0 <= k < |ix[g]| ==> ix[g][k] < |ps|
  }

  ghost predicate Placed(ix: seq<seq<nat>>, i: nat) {
    exists g :: 0 <= g < |ix| && i in ix[g]
  }

  /** The groups cover the input, and are the classes of Connected. */
  ghost predicate Partitions(ps: seq<Proposal>, ix: seq<seq<nat>>) {
    && InRange(ps, ix)
    && (forall i :: 0 <= i < |ps| ==> Placed(ix, i))
    && (forall g, h, i: nat, j: nat :: 0 <= g < |ix| && 0 <= h < |ix| && i in ix[g] && j in ix[h] ==>
          (g == h <==> Connected(ps, i, j)))
  }

  ghost predicate MembersOrdered(ps: seq<Proposal>, group: seq<nat>)
    requires forall k :: 0 <= k < |group| ==> group[k] < |ps|
  {
    forall k, l :: 0 <= k < l < |group| ==> PathBefore(ps, group[k], group[l])
  }

  /** Some member of a comes before all of b in the input. */
  ghost predicate StartsEarlier(a: seq<nat>, b: seq<nat>) {
    exists k :: 0 <= k < |a| && forall l :: 0 <= l < |b| ==> a[k] < b[l]
  }

  ghost predicate GroupBefore(ps: seq<Proposal>, a: seq<nat>, b: seq<nat>)
    requires a != [] && b != [] && a[0] < |ps| && b[0] < |ps|
  {
    TextLess(ps[a[0]].path, ps[b[0]].path) || (ps[a[0]].path == ps[b[0]].path && StartsEarlier(a, b))
  }

  ghost predicate IndexGrouping(ps: seq<Proposal>, ix: seq<seq<nat>>) {
    && Partitions(ps, ix)
    && (forall g :: 0 <= g < |ix| ==> MembersOrdered(ps, ix[g]))
    && (forall g, h :: 0 <= g < h < |ix| ==> GroupBefore(ps, ix[g], ix[h]))
  }

  function Pick(ps: seq<Proposal>, group: seq<nat>): seq<Proposal>
    requires forall k :: 0 <= k < |group| ==> group[k] < |ps|
  {
    seq(|group|, k requires 0 <= k < |group| => ps[group[k]])
  }

  function PickAll(ps: seq<Proposal>, ix: seq<seq<nat>>): seq<seq<Proposal>>
    requires InRange(ps, ix)
  {
    seq(|ix|, g requires 0 <= g < |ix| => Pick(ps, ix[g]))
  }

  /** What compute_independent_groups promises to return. */
  ghost predicate IndependentGroups(ps: seq<Proposal>, groups: seq<seq<Proposal>>) {
    exists ix :: IndexGrouping(ps, ix) && groups == PickAll(ps, ix)
  }

  // ---------- the program ----------

  /** `[i for i, p in enumerate(proposals) if not p.get("files")]` */
  function EmptyIndices(ps: seq<Proposal>, n: nat): (es: seq<nat>)
    requires n <= |ps|
    ensures forall i :: i in es <==> 0 <= i < n && ps[i].files == []
  {
    if n == 0 then []
    else if ps[n - 1].files == [] then EmptyIndices(ps, n - 1) + [n - 1]
    else EmptyIndices(ps, n - 1)
  }

  ghost predicate EmptiesJoined(ps: seq<Proposal>, classes: map<nat, nat>) {
    forall i: nat, j: nat :: BothEmpty(ps, i, j) ==> Same(classes, i, j)
  }

  /** Everything before file k of proposal i is filed. */
  ghost predicate FiledBefore(ps: seq<Proposal>, owner: map<string, nat>, classes: map<nat, nat>, i: nat, k: nat) {
    forall x: nat, l: nat :: x < i || (x == i && l < k) ==> Filed(ps, owner, classes, x, l)
  }

  lemma FilingByUnion(ps: seq<Proposal>, owner: map<string, nat>, classes: map<nat, nat>, i: nat, k: nat)
    requires Sound(ps, classes) && Owners(ps, owner) && EmptiesJoined(ps, classes)
    requires FiledBefore(ps, owner, classes, i, k)
    requires i < |ps| && k < |ps[i].files| && ps[i].files[k] in owner
    ensures var a := owner[ps[i].files[k]];
      a in classes && i in classes && var merged := Merged(classes, a, i);
      Sound(ps, merged) && EmptiesJoined(ps, merged) && FiledBefore(ps, owner, merged, i, k + 1)
  {
    var a := owner[ps[i].files[k]];
    assert ShareFile(ps, a, i);
    MergingIsSound(ps, classes, a, i);
    MergingKeepsSame(classes, a, i);
    forall x: nat, l: nat | x < i || (x == i && l <= k) ensures Filed(ps, owner, Merged(classes, a, i), x, l) {
      if x < i || l < k { assert Filed(ps, owner, classes, x, l); }
    }
  }

  lemma FilingByOwning(ps: seq<Proposal>, owner: map<string, nat>, classes: map<nat, nat>, i: nat, k: nat)
    requires Sound(ps, classes) && Owners(ps, owner) && FiledBefore(ps, owner, classes, i, k)
    requires i < |ps| && k < |ps[i].files| && ps[i].files[k] !in owner
    ensures var owning := owner[ps[i].files[k] := i];
      Owners(ps, owning) && FiledBefore(ps, owning, classes, i, k + 1)
  {
    var owning := owner[ps[i].files[k] := i];
    forall x: nat, l: nat | x < i || (x == i && l <= k) ensures Filed(ps, owning, classes, x, l) {
      if x < i || l < k { assert Filed(ps, owner, classes, x, l); }
    }
  }

  method JoinEmpties(ps: seq<Proposal>, sets: DisjointSets)
    requires sets.Valid() && Sound(ps, sets.Classes())
    modifies sets
    ensures sets.Valid() && Sound(ps, sets.Classes()) && EmptiesJoined(ps, sets.Classes())
  {
    var empties := EmptyIndices(ps, |ps|);
    var e := 1;
    assert empties != [] ==> empties[0] in empties;
    while e < |empties|
      invariant 1 <= e && sets.Valid() && Sound(ps, sets.Classes())
      invariant forall d :: 0 <= d < e && d < |empties| ==> Same(sets.Classes(), empties[0], empties[d])
    {
      assert empties[0] in empties && empties[e] in empties;
      assert BothEmpty(ps, empties[0], empties[e]);
      MergingIsSound(ps, sets.Classes(), empties[0], empties[e]);
      MergingKeepsSame(sets.Classes(), empties[0], empties[e]);
      sets.Union(empties[0], empties[e]);
      e := e + 1;
    }
    forall i: nat, j: nat | BothEmpty(ps, i, j) ensures Same(sets.Classes(), i, j) {
      assert i in empties && j in empties;
    }
  }

  method JoinSharers(ps: seq<Proposal>, sets: DisjointSets)
    requires sets.Valid() && Sound(ps, sets.Classes()) && EmptiesJoined(ps, sets.Classes())
    modifies sets
    ensures sets.Valid() && Sound(ps, sets.Classes()) && Complete(ps, sets.Classes())
  {
    var owner: map<string, nat> := map[];
    for i := 0 to |ps|
      invariant sets.Valid() && Sound(ps, sets.Classes()) && EmptiesJoined(ps, sets.Classes())
      invariant Owners(ps, owner) && FiledBefore(ps, owner, sets.Classes(), i, 0)
    {
      for k := 0 to |ps[i].files|
        invariant sets.Valid() && Sound(ps, sets.Classes()) && EmptiesJoined(ps, sets.Classes())
        invariant Owners(ps, owner) && FiledBefore(ps, owner, sets.Classes(), i, k)
      {
        var f := ps[i].files[k];
        if f in owner {
          FilingByUnion(ps, owner, sets.Classes(), i, k);
          sets.Union(owner[f], i);
        } else {
          FilingByOwning(ps, owner, sets.Classes(), i, k);
          owner := owner[f := i];
        }
      }
      forall x: nat, l: nat | x < i + 1 ensures Filed(ps, owner, sets.Classes(), x, l) {}
    }
    FiledIsComplete(ps, owner, sets.Classes());
  }

  /** The ascending list `group` holds positions below n of class r only. */
  ghost predicate GroupOf(classes: map<nat, nat>, group: seq<nat>, r: nat, n: nat) {
    && group != []
    && (forall k :: 0 <= k < |group| ==> group[k] < n && group[k] in classes && classes[group[k]] == r)
    && (forall k, l :: 0 <= k < l < |group| ==> group[k] < group[l])
  }

  /** Position i is in the list kept for its root. */
  ghost predicate Listed(classes: map<nat, nat>, members: map<nat, seq<nat>>, i: nat) {
    i in classes && classes[i] in members && i in members[classes[i]]
  }

  /** Input positions grouped by root, in order of first appearance. */
  ghost predicate Collected(classes: map<nat, nat>, roots: seq<nat>, members: map<nat, seq<nat>>, n: nat) {
    && (forall r :: r in roots <==> r in members)
    && (forall r :: r in members ==> GroupOf(classes, members[r], r, n))
    && (forall i: nat :: i < n ==> Listed(classes, members, i))
    && (forall g, h :: 0 <= g < h < |roots| ==> members[roots[g]][0] < members[roots[h]][0])
  }

  /** The ascending index lists that `groups.values()` holds before sorting. */
  ghost predicate RawGroups(ps: seq<Proposal>, raw: seq<seq<nat>>) {
    && Partitions(ps, raw)
    && (forall g, k, l :: 0 <= g < |raw| && 0 <= k < l < |raw[g]| ==> raw[g][k] < raw[g][l])
    && (forall g, h :: 0 <= g < h < |raw| ==> raw[g][0] < raw[h][0])
  }

  /** `groups.setdefault(root, []).append(p)` on the members. */
  function Appended(members: map<nat, seq<nat>>, r: nat, i: nat): map<nat, seq<nat>> {
    members[r := (if r in members then members[r] else []) + [i]]
  }

  lemma AppendingKeepsMembers(classes: map<nat, nat>, members: map<nat, seq<nat>>, i: nat)
    requires i in classes
    requires forall r :: r in members ==> GroupOf(classes, members[r], r, i)
    requires forall x: nat :: x < i ==> Listed(classes, members, x)
    ensures var members' := Appended(members, classes[i], i);
      && (forall r :: r in members' ==> GroupOf(classes, members'[r], r, i + 1))
      && (forall x: nat :: x < i + 1 ==> Listed(classes, members', x))
  {
    var members' := Appended(members, classes[i], i);
    forall r | r in members' ensures GroupOf(classes, members'[r], r, i + 1) {
      if r in members { assert GroupOf(classes, members[r], r, i); }
    }
    forall x: nat | x < i + 1 ensures Listed(classes, members', x) {
      if x < i { assert Listed(classes, members, x); }
    }
  }

  lemma AppendingKeepsCollected(classes: map<nat, nat>, roots: seq<nat>, members: map<nat, seq<nat>>, i: nat)
    requires Collected(classes, roots, members, i) && i in classes
    ensures var r := classes[i];
      Collected(classes, if r in members then roots else roots + [r], Appended(members, r, i), i + 1)
  {
    var members' := Appended(members, classes[i], i);
    AppendingKeepsMembers(classes, members, i);
    forall g | 0 <= g < |roots| ensures members'[roots[g]][0] == members[roots[g]][0] < i {
      assert roots[g] in members && GroupOf(classes, members[roots[g]], roots[g], i);
    }
  }

  lemma CollectedIsRaw(ps: seq<Proposal>, classes: map<nat, nat>, roots: seq<nat>, members: map<nat, seq<nat>>,
      raw: seq<seq<nat>>)
    requires Collected(classes, roots, members, |ps|)
    requires forall i, j :: Same(classes, i, j) <==> Connected(ps, i, j)
    requires |raw| == |roots| && forall g :: 0 <= g < |raw| ==> raw[g] == members[roots[g]]
    ensures RawGroups(ps, raw)
  {
    forall i: nat | i < |ps| ensures Placed(raw, i) {
      assert Listed(classes, members, i);
      var g :| 0 <= g < |roots| && roots[g] == classes[i];
      assert i in raw[g];
    }
    forall g, h, i: nat, j: nat | 0 <= g < |raw| && 0 <= h < |raw| && i in raw[g] && j in raw[h]
      ensures g == h <==> Connected(ps, i, j)
    {
      assert GroupOf(classes, raw[g], roots[g], |ps|) && GroupOf(classes, raw[h], roots[h], |ps|);
      assert classes[i] == roots[g] && classes[j] == roots[h];
      assert Same(classes, i, j) <==> roots[g] == roots[h];
      if g < h { assert members[roots[g]][0] < members[roots[h]][0]; }
      if h < g { assert members[roots[h]][0] < members[roots[g]][0]; }
    }
  }

  method CollectGroups(ps: seq<Proposal>, sets: DisjointSets) returns (raw: seq<seq<nat>>)
    requires sets.Valid() && forall i :: i in sets.parent <==> 0 <= i < |ps|
    requires forall i, j :: Same(sets.Classes(), i, j) <==> Connected(ps, i, j)
    modifies sets
    ensures RawGroups(ps, raw)
  {
    var roots: seq<nat>, members: map<nat, seq<nat>> := [], map[];
    for i := 0 to |ps|
      invariant sets.Valid() && (forall i :: i in sets.parent <==> 0 <= i < |ps|)
      invariant sets.Classes() == old(sets.Classes())
      invariant Collected(sets.Classes(), roots, members, i)
    {
      AppendingKeepsCollected(sets.Classes(), roots, members, i);
      var r := sets.Find(i);
      if r !in members {
        roots := roots + [r];
      }
      members := Appended(members, r, i);
    }
    raw := seq(|roots|, g requires 0 <= g < |roots| => members[roots[g]]);
    CollectedIsRaw(ps, sets.Classes(), roots, members, raw);
  }

  // ---------- canonical order ----------

  function Paths(ps: seq<Proposal>, group: seq<nat>): seq<string>
    requires forall k :: 0 <= k < |group| ==> group[k] < |ps|
  {
    seq(|group|, k requires 0 <= k < |group| => ps[group[k]].path)
  }

  /** `sorted(g, key=lambda x: x["path"])` on input positions. */
  function SortedByPath(ps: seq<Proposal>, group: seq<nat>): (sorted: seq<nat>)
    requires forall k :: 0 <= k < |group| ==> group[k] < |ps|
    ensures |sorted| == |group| && forall i :: i in sorted <==> i in group
    ensures forall k :: 0 <= k < |sorted| ==> sorted[k] < |ps|
  {
    TextLeqIsTotalPreorder();
    var sorted := Rearranged(group, StableOrder(Paths(ps, group), TextLeq));
    assert forall k :: 0 <= k < |sorted| ==> sorted[k] in group;
    sorted
  }

  lemma SortedByPathIsOrdered(ps: seq<Proposal>, group: seq<nat>)
    requires forall k :: 0 <= k < |group| ==> group[k] < |ps|
    requires forall k, l :: 0 <= k < l < |group| ==> group[k] < group[l]
    ensures MembersOrdered(ps, SortedByPath(ps, group))
  {
    TextLeqIsTotalPreorder();
    var keys := Paths(ps, group);
    var order := StableOrder(keys, TextLeq);
    var sorted := SortedByPath(ps, group);
    forall k, l | 0 <= k < l < |sorted| ensures PathBefore(ps, sorted[k], sorted[l]) {
      assert Before(keys, TextLeq, order[k], order[l]);
      if keys[order[k]] == keys[order[l]] {
        TextLeqTotal(keys[order[k]], keys[order[k]]);
      }
    }
  }

  function SortedEach(ps: seq<Proposal>, raw: seq<seq<nat>>): (each: seq<seq<nat>>)
    requires InRange(ps, raw)
    ensures |each| == |raw| && forall g :: 0 <= g < |raw| ==> each[g] == SortedByPath(ps, raw[g])
  {
    seq(|raw|, g requires 0 <= g < |raw| => SortedByPath(ps, raw[g]))
  }

  function FirstPaths(ps: seq<Proposal>, ix: seq<seq<nat>>): seq<string>
    requires InRange(ps, ix)
  {
    seq(|ix|, g requires 0 <= g < |ix| => ps[ix[g][0]].path)
  }

  /** `ordered.sort(key=lambda g: g[0]["path"])` on lists of input positions. */
  function SortedByFirst(ps: seq<Proposal>, ix: seq<seq<nat>>): seq<seq<nat>>
    requires InRange(ps, ix)
  {
    TextLeqIsTotalPreorder();
    Rearranged(ix, StableOrder(FirstPaths(ps, ix), TextLeq))
  }

  lemma SortedEachPartitions(ps: seq<Proposal>, raw: seq<seq<nat>>)
    requires RawGroups(ps, raw)
    ensures Partitions(ps, SortedEach(ps, raw))
  {
    var each := SortedEach(ps, raw);
    forall i: nat | i < |ps| ensures Placed(each, i) {
      assert Placed(raw, i);
      var g :| 0 <= g < |raw| && i in raw[g];
      assert i in each[g];
    }
  }

  /** Rearranging the groups keeps the partition. */
  lemma RearrangedPartitions(ps: seq<Proposal>, each: seq<seq<nat>>, order: seq<nat>)
    requires Partitions(ps, each) && IsPermutation(order, |each|)
    ensures Partitions(ps, Rearranged(each, order))
  {
    var ix := Rearranged(each, order);
    forall g | 0 <= g < |ix| ensures ix[g] != [] && forall k :: 0 <= k < |ix[g]| ==> ix[g][k] < |ps| {
      assert ix[g] == each[order[g]];
    }
    forall i: nat | i < |ps| ensures Placed(ix, i) {
      assert Placed(each, i);
      var g :| 0 <= g < |each| && i in each[g];
      assert each[g] in ix;
    }
    forall g, h, i: nat, j: nat | 0 <= g < |ix| && 0 <= h < |ix| && i in ix[g] && j in ix[h]
      ensures g == h <==> Connected(ps, i, j)
    {
      assert i in each[order[g]] && j in each[order[h]];
      assert order[g] == order[h] <==> Connected(ps, i, j);
      if g < h { assert order[g] != order[h]; }
      if h < g { assert order[h] != order[g]; }
    }
  }

  lemma FirstRootStartsEarlier(ps: seq<Proposal>, raw: seq<seq<nat>>, g: nat, h: nat)
    requires RawGroups(ps, raw) && g < h < |raw|
    ensures StartsEarlier(SortedByPath(ps, raw[g]), SortedByPath(ps, raw[h]))
  {
    var a, b := SortedByPath(ps, raw[g]), SortedByPath(ps, raw[h]);
    assert raw[g][0] in a;
    var k :| 0 <= k < |a| && a[k] == raw[g][0];
    forall l | 0 <= l < |b| ensures a[k] < b[l] {
      assert b[l] in raw[h];
    }
  }

  lemma SortingIsCanonical(ps: seq<Proposal>, raw: seq<seq<nat>>)
    requires RawGroups(ps, raw)
    ensures IndexGrouping(ps, SortedByFirst(ps, SortedEach(ps, raw)))
  {
    TextLeqIsTotalPreorder();
    var each := SortedEach(ps, raw);
    SortedEachPartitions(ps, raw);
    var keys := FirstPaths(ps, each);
    var order := StableOrder(keys, TextLeq);
    var ix := Rearranged(each, order);
    RearrangedPartitions(ps, each, order);
    forall g | 0 <= g < |ix| ensures MembersOrdered(ps, ix[g]) {
      SortedByPathIsOrdered(ps, raw[order[g]]);
    }
    forall g, h | 0 <= g < h < |ix| ensures GroupBefore(ps, ix[g], ix[h]) {
      assert Before(keys, TextLeq, order[g], order[h]);
      if keys[order[g]] == keys[order[h]] {
        TextLeqTotal(keys[order[g]], keys[order[g]]);
        FirstRootStartsEarlier(ps, raw, order[g], order[h]);
      }
    }
  }

  method ComputeIndependentGroups(ps: seq<Proposal>) returns (groups: seq<seq<Proposal>>)
    ensures IndependentGroups(ps, groups)
  {
    if |ps| == 0 {
      assert IndexGrouping(ps, []) && PickAll(ps, []) == [];
      return [];
    }
    var sets := new DisjointSets(|ps|);
    forall i | 0 <= i < |ps| ensures Connected(ps, i, i) { ConnectedReflexive(ps, i); }
    JoinEmpties(ps, sets);
    JoinSharers(ps, sets);
    ClassesAreConnection(ps, sets.Classes());
    assert forall i :: i in sets.parent <==> i in sets.Classes();
    var raw := CollectGroups(ps, sets);
    SortingIsCanonical(ps, raw);
    groups := PickAll(ps, SortedByFirst(ps, SortedEach(ps, raw)));
  }
}
