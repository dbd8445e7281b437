/** The parent dictionary of src/harness/dependency.py with its find (path halving) and union. */
module UnionFind {

  type Forest = map<nat, nat>

  /** The forest that `{i: i for i in range(n)}` builds. */
  function Singletons(n: nat): (parent: Forest)
    ensures forall i: nat :: i in parent <==> i < n
    ensures forall i: nat :: i in parent ==> parent[i] == i
  {
    if n == 0 then map[] else Singletons(n - 1)[n - 1 := n - 1]
  }

  /** The parent of x is in the forest and, unless x is a root, has a lower rank. */
  ghost predicate Descends(parent: Forest, rank: map<nat, nat>, x: nat)
    requires rank.Keys == parent.Keys && x in parent
  {
    parent[x] in parent && (parent[x] != x ==> rank[parent[x]] < rank[x])
  }

  /** No cycles other than the roots' own. */
  ghost predicate Ranked(parent: Forest, rank: map<nat, nat>) {
    && rank.Keys == parent.Keys
    && forall x {:trigger Descends(parent, rank, x)} :: x in parent ==> Descends(parent, rank, x)
  }

  /** The element at the end of the parent chain of x. */
  ghost function RootOf(parent: Forest, rank: map<nat, nat>, x: nat): (r: nat)
    requires Ranked(parent, rank) && x in parent
    ensures r in parent && parent[r] == r
    decreases rank[x]
  {
    assert Descends(parent, rank, x);
    if parent[x] == x then x else RootOf(parent, rank, parent[x])
  }

  /** The root of every element. */
  ghost function Roots(parent: Forest, rank: map<nat, nat>): (roots: map<nat, nat>)
    requires Ranked(parent, rank)
  {
    map x | x in parent :: RootOf(parent, rank, x)
  }

  /** The classes of `roots` with those of a and b made one. */
  ghost function Merged(roots: map<nat, nat>, a: nat, b: nat): (merged: map<nat, nat>)
    requires a in roots && b in roots
  {
    map x | x in roots :: if roots[x] == roots[a] then roots[b] else roots[x]
  }

  /** The ranks after root ra is hung under root rb: ra's whole tree is lifted above rb. */
  ghost function LiftedRank(parent: Forest, rank: map<nat, nat>, ra: nat, rb: nat): map<nat, nat>
    requires Ranked(parent, rank) && rb in parent
  {
    map x | x in parent :: if RootOf(parent, rank, x) == ra then rank[x] + rank[rb] + 1 else rank[x]
  }

  /** `parent` after x's pointer skips one element. */
  function Halved(parent: Forest, x: nat): Forest
    requires x in parent && parent[x] in parent
  {
    parent[x := parent[parent[x]]]
  }

  lemma {:induction false} HalvingKeepsRootOf(parent: Forest, rank: map<nat, nat>, y: nat, x: nat)
    requires Ranked(parent, rank) && y in parent && parent[y] in parent && x in parent
    requires Ranked(Halved(parent, y), rank)
    ensures RootOf(Halved(parent, y), rank, x) == RootOf(parent, rank, x)
    decreases rank[x]
  {
    var halved := Halved(parent, y);
    assert Descends(parent, rank, x) && Descends(halved, rank, x) && Descends(parent, rank, parent[x]);
    if parent[x] != x {
      HalvingKeepsRootOf(parent, rank, y, halved[x]);
    }
  }

  /** Path halving at any element changes no element's root. */
  lemma HalvingKeepsRoots(parent: Forest, rank: map<nat, nat>, y: nat)
    requires Ranked(parent, rank) && y in parent && parent[y] in parent
    ensures var halved := Halved(parent, y);
      Ranked(halved, rank) && Roots(halved, rank) == Roots(parent, rank)
  {
    var halved := Halved(parent, y);
    assert Descends(parent, rank, y) && Descends(parent, rank, parent[y]);
    forall x | x in halved ensures Descends(halved, rank, x) {
      assert Descends(parent, rank, x);
    }
    forall x | x in parent ensures RootOf(halved, rank, x) == RootOf(parent, rank, x) {
      HalvingKeepsRootOf(parent, rank, y, x);
    }
  }

  lemma {:induction false} LinkingRootOf(parent: Forest, rank: map<nat, nat>, ra: nat, rb: nat, x: nat)
    requires Ranked(parent, rank) && x in parent
    requires ra in parent && rb in parent && parent[ra] == ra && parent[rb] == rb && ra != rb
    requires Ranked(parent[ra := rb], LiftedRank(parent, rank, ra, rb))
    ensures RootOf(parent[ra := rb], LiftedRank(parent, rank, ra, rb), x)
         == (if RootOf(parent, rank, x) == ra then rb else RootOf(parent, rank, x))
    decreases rank[x]
  {
    assert Descends(parent, rank, x);
    if parent[x] != x {
      LinkingRootOf(parent, rank, ra, rb, parent[x]);
    }
  }

  lemma LinkingDescends(parent: Forest, rank: map<nat, nat>, ra: nat, rb: nat, x: nat)
    requires Ranked(parent, rank) && x in parent
    requires ra in parent && rb in parent && parent[ra] == ra && parent[rb] == rb && ra != rb
    ensures LiftedRank(parent, rank, ra, rb).Keys == parent[ra := rb].Keys
    ensures Descends(parent[ra := rb], LiftedRank(parent, rank, ra, rb), x)
  {
    assert Descends(parent, rank, x);
    assert RootOf(parent, rank, x) == RootOf(parent, rank, parent[x]);
    assert RootOf(parent, rank, rb) == rb;
  }

  lemma LinkingRanked(parent: Forest, rank: map<nat, nat>, ra: nat, rb: nat)
    requires Ranked(parent, rank)
    requires ra in parent && rb in parent && parent[ra] == ra && parent[rb] == rb && ra != rb
    ensures Ranked(parent[ra := rb], LiftedRank(parent, rank, ra, rb))
  {
    var linked, lifted := parent[ra := rb], LiftedRank(parent, rank, ra, rb);
    forall x | x in linked ensures Descends(linked, lifted, x) {
      LinkingDescends(parent, rank, ra, rb, x);
    }
  }

  /** Hanging root ra under root rb merges exactly their two classes. */
  lemma LinkingMergesRoots(parent: Forest, rank: map<nat, nat>, ra: nat, rb: nat)
    requires Ranked(parent, rank)
    requires ra in parent && rb in parent && parent[ra] == ra && parent[rb] == rb && ra != rb
    ensures var lifted := LiftedRank(parent, rank, ra, rb);
      Ranked(parent[ra := rb], lifted)
      && Roots(parent[ra := rb], lifted) == Merged(Roots(parent, rank), ra, rb)
  {
    var linked, lifted := parent[ra := rb], LiftedRank(parent, rank, ra, rb);
    LinkingRanked(parent, rank, ra, rb);
    forall x {:trigger RootOf(linked, lifted, x)} | x in linked
      ensures RootOf(linked, lifted, x) == (if RootOf(parent, rank, x) == ra then rb else RootOf(parent, rank, x))
    {
      LinkingRootOf(parent, rank, ra, rb, x);
    }
  }

  class DisjointSets {
    var parent: Forest
    ghost var rank: map<nat, nat>

    ghost predicate Valid()
      reads this
    {
      Ranked(parent, rank)
    }

    ghost function Classes(): map<nat, nat>
      reads this
      requires Valid()
    {
      Roots(parent, rank)
    }

    constructor (n: nat)
      ensures Valid()
      ensures Classes() == parent == Singletons(n)
    {
      parent := Singletons(n);
      rank := Singletons(n);
    }

    method Find(x: nat) returns (r: nat)
      requires Valid() && x in parent
      modifies this
      ensures Valid() && parent.Keys == old(parent.Keys)
      ensures Classes() == old(Classes()) && r == Classes()[x]
    {
      r := x;
      assert Descends(parent, rank, x);
      while parent[r] != r
        invariant Valid() && parent.Keys == old(parent.Keys) && r in parent
        invariant Classes() == old(Classes()) && RootOf(parent, rank, r) == Classes()[x]
        decreases rank[r]
      {
        assert Descends(parent, rank, r) && Descends(parent, rank, parent[r]);
        HalvingKeepsRoots(parent, rank, r);
        ghost var before := Classes();
        parent := parent[r := parent[parent[r]]];
        assert Classes()[r] == before[r];
        r := parent[r];
      }
    }

    method Union(a: nat, b: nat)
      requires Valid() && a in parent && b in parent
      modifies this
      ensures Valid() && parent.Keys == old(parent.Keys)
      ensures Classes() == Merged(old(Classes()), a, b)
    {
      var ra := Find(a);
      var rb := Find(b);
      if ra != rb {
        LinkingMergesRoots(parent, rank, ra, rb);
        rank := LiftedRank(parent, rank, ra, rb);
        parent := parent[ra := rb];
      }
    }
  }
}
