/** The output of compute_independent_groups does not depend on the order of its input:
    with distinct paths, any reordering of the proposals, and any reordering or repetition
    inside a file list, gives the same groups in the same order. */
module DependencyOrder {
  import opened Sorting
  import opened DependencyGroups

  ghost predicate DistinctPaths(ps: seq<Proposal>) {
    forall i, j :: 0 <= i < j < |ps| ==> ps[i].path != ps[j].path
  }

  ghost predicate SameProposal(p: Proposal, q: Proposal) {
    p.path == q.path && forall f :: f in p.files <==> f in q.files
  }

  ghost predicate Has(qs: seq<Proposal>, p: Proposal) {
    exists j :: 0 <= j < |qs| && SameProposal(p, qs[j])
  }

  ghost predicate Includes(qs: seq<Proposal>, ps: seq<Proposal>) {
    forall i :: 0 <= i < |ps| ==> Has(qs, ps[i])
  }

  ghost function Match(qs: seq<Proposal>, p: Proposal): (j: nat)
    requires Has(qs, p)
    ensures j < |qs| && SameProposal(p, qs[j])
  {
    var j: nat :| j < |qs| && SameProposal(p, qs[j]);
    j
  }

  lemma LinkedTransfers(ps: seq<Proposal>, qs: seq<Proposal>, i: nat, j: nat, i': nat, j': nat)
    requires Linked(ps, i, j) && i' < |qs| && j' < |qs|
    requires SameProposal(ps[i], qs[i']) && SameProposal(ps[j], qs[j'])
    ensures Linked(qs, i', j')
  {
    var f1, f2 := qs[i'].files, qs[j'].files;
    assert (f1 != [] ==> f1[0] in f1) && (f2 != [] ==> f2[0] in f2);
    if ShareFile(ps, i, j) {
      var f :| f in ps[i].files && f in ps[j].files;
      assert f in qs[i'].files && f in qs[j'].files;
    }
  }

  /** A chain in one input has a counterpart in any input that includes it. */
  lemma ConnectedTransfers(ps: seq<Proposal>, qs: seq<Proposal>, i: nat, j: nat) returns (i': nat, j': nat)
    requires Includes(qs, ps) && Connected(ps, i, j)
    ensures i < |ps| && j < |ps| && i' < |qs| && j' < |qs|
    ensures SameProposal(ps[i], qs[i']) && SameProposal(ps[j], qs[j']) && Connected(qs, i', j')
  {
    var c :| ChainBetween(ps, c, i, j);
    var d := seq(|c|, k requires 0 <= k < |c| => Match(qs, ps[c[k]]));
    forall k | 0 < k < |d| ensures Linked(qs, d[k - 1], d[k]) {
      LinkedTransfers(ps, qs, c[k - 1], c[k], d[k - 1], d[k]);
    }
    i', j' := d[0], d[|d| - 1];
    assert ChainBetween(qs, d, i', j');
  }

  // ---------- the order on groups ----------

  lemma TextLessAsymmetric()
    ensures Asymmetric(TextLess)
  {
    forall x, y | TextLess(x, y) ensures !TextLess(y, x) {
      if TextLeq(y, x) { TextLeqAntisymmetric(x, y); }
    }
  }

  predicate FirstLess(a: seq<string>, b: seq<string>) {
    a != [] && b != [] && TextLess(a[0], b[0])
  }

  // ---------- the groups as paths ----------

  function PathsOf(group: seq<Proposal>): (paths: seq<string>)
    ensures |paths| == |group| && forall k :: 0 <= k < |group| ==> paths[k] == group[k].path
  {
    seq(|group|, k requires 0 <= k < |group| => group[k].path)
  }

  function GroupPaths(groups: seq<seq<Proposal>>): (paths: seq<seq<string>>)
    ensures |paths| == |groups| && forall g :: 0 <= g < |groups| ==> paths[g] == PathsOf(groups[g])
  {
    seq(|groups|, g requires 0 <= g < |groups| => PathsOf(groups[g]))
  }

  lemma GroupPathsSorted(ps: seq<Proposal>, ix: seq<seq<nat>>)
    requires DistinctPaths(ps) && IndexGrouping(ps, ix)
    ensures var paths := GroupPaths(PickAll(ps, ix));
      && (forall g :: 0 <= g < |ix| ==> StrictlySorted(paths[g], TextLess))
      && StrictlySorted(paths, FirstLess)
  {
    var paths := GroupPaths(PickAll(ps, ix));
    forall g, k, l | 0 <= g < |ix| && 0 <= k < l < |paths[g]| ensures TextLess(paths[g][k], paths[g][l]) {
      assert MembersOrdered(ps, ix[g]);
      assert PathBefore(ps, ix[g][k], ix[g][l]);
    }
    forall g, h | 0 <= g < h < |ix| ensures FirstLess(paths[g], paths[h]) {
      assert GroupBefore(ps, ix[g], ix[h]);
      var i, j := ix[g][0], ix[h][0];
      if ps[i].path == ps[j].path {
        assert i in ix[g] && j in ix[h] && i == j;
        ConnectedReflexive(ps, i);
        assert false;
      }
    }
  }

  /** The members of group g, carried over to qs, all lie in the group holding g's first member. */
  lemma MembersTransfer(ps: seq<Proposal>, qs: seq<Proposal>, ix: seq<seq<nat>>, jx: seq<seq<nat>>,
      g: nat, h: nat, i0: nat, j0: nat, s: string)
    requires DistinctPaths(qs) && Includes(qs, ps) && Partitions(ps, ix) && Partitions(qs, jx)
    requires g < |ix| && h < |jx| && i0 in ix[g] && j0 in jx[h]
    requires i0 < |ps| && j0 < |qs| && SameProposal(ps[i0], qs[j0])
    requires s in PathsOf(Pick(ps, ix[g]))
    ensures s in PathsOf(Pick(qs, jx[h]))
  {
    var k :| 0 <= k < |ix[g]| && ps[ix[g][k]].path == s;
    assert Connected(ps, i0, ix[g][k]);
    var i', j' := ConnectedTransfers(ps, qs, i0, ix[g][k]);
    assert i' == j0;
    assert Placed(jx, j');
    var h' :| 0 <= h' < |jx| && j' in jx[h'];
    assert h' == h;
    var l :| 0 <= l < |jx[h]| && jx[h][l] == j';
    assert PathsOf(Pick(qs, jx[h]))[l] == s;
  }

  /** Every group of ps appears, as a list of paths, among the groups of qs. */
  lemma GroupAppears(ps: seq<Proposal>, qs: seq<Proposal>, ix: seq<seq<nat>>, jx: seq<seq<nat>>, g: nat)
    requires DistinctPaths(ps) && DistinctPaths(qs) && Includes(qs, ps) && Includes(ps, qs)
    requires IndexGrouping(ps, ix) && IndexGrouping(qs, jx) && g < |ix|
    ensures GroupPaths(PickAll(ps, ix))[g] in GroupPaths(PickAll(qs, jx))
  {
    var i0 := ix[g][0];
    var j0 := Match(qs, ps[i0]);
    assert Placed(jx, j0);
    var h: nat :| h < |jx| && j0 in jx[h];
    var a, b := PathsOf(Pick(ps, ix[g])), PathsOf(Pick(qs, jx[h]));
    forall s ensures s in a <==> s in b {
      if s in a { MembersTransfer(ps, qs, ix, jx, g, h, i0, j0, s); }
      if s in b { MembersTransfer(qs, ps, jx, ix, h, g, j0, i0, s); }
    }
    GroupPathsSorted(ps, ix);
    GroupPathsSorted(qs, jx);
    TextLessAsymmetric();
    assert a == GroupPaths(PickAll(ps, ix))[g] && b == GroupPaths(PickAll(qs, jx))[h];
    SortedFromElements(a, b, TextLess);
  }

  /** Two inputs that hold the same proposals up to order give the same groups of paths. */
  lemma OutputIgnoresOrder(ps: seq<Proposal>, qs: seq<Proposal>, gs: seq<seq<Proposal>>, hs: seq<seq<Proposal>>)
    requires DistinctPaths(ps) && DistinctPaths(qs) && Includes(qs, ps) && Includes(ps, qs)
    requires IndependentGroups(ps, gs) && IndependentGroups(qs, hs)
    ensures GroupPaths(gs) == GroupPaths(hs)
  {
    var ix :| IndexGrouping(ps, ix) && gs == PickAll(ps, ix);
    var jx :| IndexGrouping(qs, jx) && hs == PickAll(qs, jx);
    var a, b := GroupPaths(gs), GroupPaths(hs);
    forall s ensures s in a <==> s in b {
      if s in a {
        var g :| 0 <= g < |a| && a[g] == s;
        GroupAppears(ps, qs, ix, jx, g);
      }
      if s in b {
        var h :| 0 <= h < |b| && b[h] == s;
        GroupAppears(qs, ps, jx, ix, h);
      }
    }
    GroupPathsSorted(ps, ix);
    GroupPathsSorted(qs, jx);
    TextLessAsymmetric();
    assert Asymmetric(FirstLess);
    SortedFromElements(a, b, FirstLess);
  }

  lemma PermutationIncludes(ps: seq<Proposal>, qs: seq<Proposal>)
    requires multiset(ps) == multiset(qs)
    ensures Includes(qs, ps) && forall p :: p in ps <==> p in qs
  {
    forall p ensures p in ps <==> p in qs {
      assert p in ps <==> p in multiset(ps);
      assert p in qs <==> p in multiset(qs);
    }
    forall i | 0 <= i < |ps| ensures Has(qs, ps[i]) {
      assert ps[i] in qs;
      var j :| 0 <= j < |qs| && qs[j] == ps[i];
      assert SameProposal(ps[i], qs[j]);
    }
  }

  /** The output holds only proposals of the input. */
  lemma OutputFromInput(ps: seq<Proposal>, gs: seq<seq<Proposal>>, g: nat, k: nat)
    requires IndependentGroups(ps, gs) && g < |gs| && k < |gs[g]|
    ensures gs[g][k] in ps
  {
    var ix :| IndexGrouping(ps, ix) && gs == PickAll(ps, ix);
    assert gs[g][k] == ps[ix[g][k]];
  }

  lemma PathDetermines(ps: seq<Proposal>, p: Proposal, q: Proposal)
    requires DistinctPaths(ps) && p in ps && q in ps && p.path == q.path
    ensures p == q
  {
  }

  /** A permutation of the input changes nothing at all. */
  lemma PermutedInputSameOutput(ps: seq<Proposal>, qs: seq<Proposal>,
      gs: seq<seq<Proposal>>, hs: seq<seq<Proposal>>)
    requires DistinctPaths(ps) && DistinctPaths(qs) && multiset(ps) == multiset(qs)
    requires IndependentGroups(ps, gs) && IndependentGroups(qs, hs)
    ensures gs == hs
  {
    PermutationIncludes(ps, qs);
    PermutationIncludes(qs, ps);
    OutputIgnoresOrder(ps, qs, gs, hs);
    var a, b := GroupPaths(gs), GroupPaths(hs);
    forall g | 0 <= g < |gs| ensures gs[g] == hs[g] {
      assert PathsOf(gs[g]) == a[g] == b[g] == PathsOf(hs[g]);
      forall k | 0 <= k < |gs[g]| ensures gs[g][k] == hs[g][k] {
        assert a[g][k] == gs[g][k].path == hs[g][k].path;
        OutputFromInput(ps, gs, g, k);
        OutputFromInput(qs, hs, g, k);
        PathDetermines(ps, gs[g][k], hs[g][k]);
      }
    }
  }
}
