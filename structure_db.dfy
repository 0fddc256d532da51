/**
  The structure database of structure-db.h/.cpp: every atom gets a signature,
  the tree of elements reachable over its bonds, cut off at a fixed depth and
  never stepping back onto the path that led to it; a molecule's signature is
  the sorted list of its atoms' signatures; the database maps molecule
  signatures to identifiers.
 */
module StructureDb {
  import opened Molecules

  /** `STACK_SZ`: how many atoms the path of a neighbour signature remembers, and so how deep it goes. */
  const StackSz: nat := 3

  /** `AtomSignature`: an element and the signatures of the neighbours below it, in order. */
  datatype AtomSignature = AtomSignature(elt: Element, neighbors: seq<AtomSignature>)

  /** `MoleculeSignature`: one signature per atom. */
  type MoleculeSignature = seq<AtomSignature>

  // ---------------------------------------------------------------------------
  // AtomSignature::operator<
  // ---------------------------------------------------------------------------

  /** The height of a signature tree; it measures the recursion of `Less`. */
  function Depth(a: AtomSignature): (d: nat)
    ensures forall i :: 0 <= i < |a.neighbors| ==> Depth(a.neighbors[i]) < d
    decreases a
  {
    1 + SeqDepth(a.neighbors)
  }

  function SeqDepth(xs: seq<AtomSignature>): (d: nat)
    ensures forall i :: 0 <= i < |xs| ==> Depth(xs[i]) <= d
    decreases xs
  {
    if xs == [] then 0
    else
      var h, t := Depth(xs[0]), SeqDepth(xs[1..]);
      if h < t then t else h
  }

  /**
    `a < b`: the smaller element first; for equal elements, fewer neighbours
    first; for equally many, the first neighbour pair that differs decides.
   */
  predicate Less(a: AtomSignature, b: AtomSignature)
    decreases Depth(a) + Depth(b), 0, 0
  {
    a.elt < b.elt
    || (a.elt == b.elt
        && (|a.neighbors| < |b.neighbors|
            || (|a.neighbors| == |b.neighbors| && NeighborsLess(a.neighbors, b.neighbors))))
  }

  /** The loop over the neighbour pairs: `xs[i] < ys[i]` gives true, `ys[i] < xs[i]` false, otherwise the next pair. */
  predicate NeighborsLess(xs: seq<AtomSignature>, ys: seq<AtomSignature>)
    requires |xs| == |ys|
    decreases SeqDepth(xs) + SeqDepth(ys), 1, |xs|
  {
    xs != [] && (Less(xs[0], ys[0]) || (!Less(ys[0], xs[0]) && NeighborsLess(xs[1..], ys[1..])))
  }

  /** No signature is smaller than itself, so `find` can match a key equal to the one `add` stored. */
  lemma {:induction false} LessIrreflexive(a: AtomSignature)
    ensures !Less(a, a)
    decreases a
  {
    forall i | 0 <= i < |a.neighbors| ensures !Less(a.neighbors[i], a.neighbors[i]) {
      LessIrreflexive(a.neighbors[i]);
    }
    NeighborsIrreflexive(a.neighbors);
  }

  lemma {:induction false} NeighborsIrreflexive(xs: seq<AtomSignature>)
    requires forall i :: 0 <= i < |xs| ==> !Less(xs[i], xs[i])
    ensures !NeighborsLess(xs, xs)
  {
    if xs != [] {
      NeighborsIrreflexive(xs[1..]);
    }
  }

  /** Of two different signatures, one is smaller: the order is total. */
  lemma {:induction false} LessTotal(a: AtomSignature, b: AtomSignature)
    ensures a == b || Less(a, b) || Less(b, a)
    decreases a
  {
    if a.elt == b.elt && |a.neighbors| == |b.neighbors| {
      forall i | 0 <= i < |a.neighbors|
        ensures a.neighbors[i] == b.neighbors[i] || Less(a.neighbors[i], b.neighbors[i]) || Less(b.neighbors[i], a.neighbors[i])
      {
        LessTotal(a.neighbors[i], b.neighbors[i]);
      }
      NeighborsTotal(a.neighbors, b.neighbors);
    }
  }

  lemma {:induction false} NeighborsTotal(xs: seq<AtomSignature>, ys: seq<AtomSignature>)
    requires |xs| == |ys|
    requires forall i :: 0 <= i < |xs| ==> xs[i] == ys[i] || Less(xs[i], ys[i]) || Less(ys[i], xs[i])
    ensures xs == ys || NeighborsLess(xs, ys) || NeighborsLess(ys, xs)
  {
    if xs != [] && xs[0] == ys[0] {
      NeighborsTotal(xs[1..], ys[1..]);
      assert xs == [xs[0]] + xs[1..] && ys == [ys[0]] + ys[1..];
    }
  }

  /** Two signatures neither of which is smaller are equal: `operator<`'s equivalence is equality. */
  lemma Equivalent(a: AtomSignature, b: AtomSignature)
    requires !Less(a, b) && !Less(b, a)
    ensures a == b
  {
    LessTotal(a, b);
  }

  /** `operator<` is transitive, so `std::sort` may use it. */
  lemma {:induction false} LessTransitive(a: AtomSignature, b: AtomSignature, c: AtomSignature)
    requires Less(a, b) && Less(b, c)
    ensures Less(a, c)
    decreases a
  {
    if a.elt == c.elt && |a.neighbors| == |c.neighbors| {
      assert a.elt == b.elt && |a.neighbors| == |b.neighbors|;
      forall i | 0 <= i < |a.neighbors|
        ensures Less(a.neighbors[i], b.neighbors[i]) && Less(b.neighbors[i], c.neighbors[i]) ==> Less(a.neighbors[i], c.neighbors[i])
      {
        if Less(a.neighbors[i], b.neighbors[i]) && Less(b.neighbors[i], c.neighbors[i]) {
          LessTransitive(a.neighbors[i], b.neighbors[i], c.neighbors[i]);
        }
      }
      NeighborsTransitive(a.neighbors, b.neighbors, c.neighbors);
    }
  }

  lemma {:induction false} NeighborsTransitive(xs: seq<AtomSignature>, ys: seq<AtomSignature>, zs: seq<AtomSignature>)
    requires |xs| == |ys| == |zs|
    requires forall i :: 0 <= i < |xs| ==> Less(xs[i], ys[i]) && Less(ys[i], zs[i]) ==> Less(xs[i], zs[i])
    requires NeighborsLess(xs, ys) && NeighborsLess(ys, zs)
    ensures NeighborsLess(xs, zs)
  {
    var x, y, z := xs[0], ys[0], zs[0];
    if !Less(x, y) {
      Equivalent(x, y);
    }
    if !Less(y, z) {
      Equivalent(y, z);
    }
    if x == y && y == z {
      LessIrreflexive(x);
      NeighborsTransitive(xs[1..], ys[1..], zs[1..]);
    } else if !Less(x, z) {
      // x < z follows from the pair that is ordered and the one that is equal
      assert false;
    }
  }

  // ---------------------------------------------------------------------------
  // std::sort with operator<
  // ---------------------------------------------------------------------------

  /** No element is smaller than one before it. */
  predicate Sorted(s: seq<AtomSignature>)
  {
    forall i, j :: 0 <= i < j < |s| ==> !Less(s[j], s[i])
  }

  lemma ConsSorted(h: AtomSignature, t: seq<AtomSignature>)
    requires Sorted(t) && forall i :: 0 <= i < |t| ==> !Less(t[i], h)
    ensures Sorted([h] + t)
  {
    var s := [h] + t;
    forall i, j | 0 <= i < j < |s| ensures !Less(s[j], s[i]) {
      assert s[j] == t[j - 1];
      if i > 0 {
        assert s[i] == t[i - 1];
      }
    }
  }

  /** An element smaller than the head of a sorted list can go in front of it. */
  lemma InsertFront(x: AtomSignature, s: seq<AtomSignature>)
    requires Sorted(s) && s != [] && Less(x, s[0])
    ensures Sorted([x] + s)
  {
    forall i | 0 <= i < |s| ensures !Less(s[i], x) {
      if Less(s[i], x) {
        LessTransitive(s[i], x, s[0]);
        if i == 0 {
          LessIrreflexive(s[0]);
        }
      }
    }
    ConsSorted(x, s);
  }

  /** The head of a sorted list, no larger than `x`, goes before `x` inserted into the rest. */
  lemma ConsInsert(s: seq<AtomSignature>, x: AtomSignature, t: seq<AtomSignature>)
    requires Sorted(s) && s != [] && !Less(x, s[0])
    requires Sorted(t) && multiset(t) == multiset(s[1..]) + multiset{x}
    ensures Sorted([s[0]] + t) && multiset([s[0]] + t) == multiset(s) + multiset{x}
  {
    forall i | 0 <= i < |t| ensures !Less(t[i], s[0]) {
      assert t[i] in multiset(t);
      if t[i] != x {
        assert t[i] in multiset(s[1..]);
        var k :| 0 <= k < |s[1..]| && s[1..][k] == t[i];
        assert s[k + 1] == t[i];
      }
    }
    ConsSorted(s[0], t);
    assert s == [s[0]] + s[1..];
  }

  /** `x` put into a sorted list before the first element larger than it: sorted again, with one `x` more. */
  function Insert(s: seq<AtomSignature>, x: AtomSignature): (r: seq<AtomSignature>)
    requires Sorted(s)
    ensures Sorted(r) && multiset(r) == multiset(s) + multiset{x}
  {
    if s == [] then [x]
    else if Less(x, s[0]) then
      InsertFront(x, s);
      [x] + s
    else
      var t := Insert(s[1..], x);
      ConsInsert(s, x, t);
      [s[0]] + t
  }

  /** Insertion sort: the sorted arrangement of `s` that `SortedUnique` shows is the only one. */
  function SortSeq(s: seq<AtomSignature>): (r: seq<AtomSignature>)
    ensures Sorted(r) && multiset(r) == multiset(s)
  {
    if s == [] then [] else
      assert s == s[..|s| - 1] + [s[|s| - 1]];
      Insert(SortSeq(s[..|s| - 1]), s[|s| - 1])
  }

  /** The first of a sorted list is no larger than anything in it. */
  lemma HeadLeast(s: seq<AtomSignature>, y: AtomSignature)
    requires Sorted(s) && y in s
    ensures !Less(y, s[0])
  {
    var k :| 0 <= k < |s| && s[k] == y;
    if k == 0 {
      LessIrreflexive(y);
    }
  }

  /** Sorting is determined: two sorted lists with the same elements are the same list. */
  lemma {:induction false} SortedUnique(a: seq<AtomSignature>, b: seq<AtomSignature>)
    requires Sorted(a) && Sorted(b) && multiset(a) == multiset(b)
    ensures a == b
    decreases |a|
  {
    assert |a| == |multiset(a)| == |b|;
    if a != [] {
      SortedHeads(a, b);
      SameTails(a, b);
      SortedTail(a);
      SortedTail(b);
      SortedUnique(a[1..], b[1..]);
      assert a == [a[0]] + a[1..] && b == [b[0]] + b[1..];
    }
  }

  /** Two non-empty sorted lists with the same elements start with the same element. */
  lemma SortedHeads(a: seq<AtomSignature>, b: seq<AtomSignature>)
    requires Sorted(a) && Sorted(b) && multiset(a) == multiset(b) && a != []
    ensures b != [] && a[0] == b[0]
  {
    assert a[0] in multiset(b);
    assert b != [] && b[0] in multiset(a);
    HeadLeast(b, a[0]);
    HeadLeast(a, b[0]);
    Equivalent(a[0], b[0]);
  }

  lemma SameTails<T>(a: seq<T>, b: seq<T>)
    requires multiset(a) == multiset(b) && a != [] && b != [] && a[0] == b[0]
    ensures multiset(a[1..]) == multiset(b[1..])
  {
    assert a == [a[0]] + a[1..] && b == [b[0]] + b[1..];
    assert multiset(a[1..]) == multiset(a) - multiset{a[0]};
    assert multiset(b[1..]) == multiset(b) - multiset{b[0]};
  }

  lemma SortedTail(a: seq<AtomSignature>)
    requires Sorted(a) && a != []
    ensures Sorted(a[1..])
  {
    forall i, j | 0 <= i < j < |a[1..]| ensures !Less(a[1..][j], a[1..][i]) {
      assert a[1..][j] == a[j + 1] && a[1..][i] == a[i + 1];
    }
  }

  /** `std::sort(begin, end)`: the elements rearranged so that none is smaller than one before it. */
  method Sort(s: seq<AtomSignature>) returns (r: seq<AtomSignature>)
    ensures |r| == |s| && Sorted(r) && multiset(r) == multiset(s)
  {
    r := [];
    for i := 0 to |s|
      invariant Sorted(r) && multiset(r) == multiset(s[..i])
    {
      r := Insert(r, s[i]);
      assert s[..i + 1] == s[..i] + [s[i]];
    }
    assert s[..|s|] == s;
    assert |r| == |multiset(r)| == |multiset(s)| == |s|;
  }

  /** `AtomSignature::sort`: the immediate neighbours sorted; the signatures inside them stay as they are. */
  method SortNeighbors(a: AtomSignature) returns (r: AtomSignature)
    ensures r.elt == a.elt && Sorted(r.neighbors) && multiset(r.neighbors) == multiset(a.neighbors)
    ensures r == Canonical(a)
  {
    var ns := Sort(a.neighbors);
    SortedUnique(ns, SortSeq(a.neighbors));
    r := AtomSignature(a.elt, ns);
  }

  /** A signature with its neighbour list sorted. */
  function Canonical(a: AtomSignature): AtomSignature
  {
    AtomSignature(a.elt, SortSeq(a.neighbors))
  }

  // ---------------------------------------------------------------------------
  // Signatures of the atoms of a molecule
  // ---------------------------------------------------------------------------

  /** Every atom with a bond list has an element, and every bond list entry has a bond list. */
  predicate GraphOk(elt: map<AtomId, Element>, bonds: map<AtomId, seq<AtomId>>)
  {
    forall x :: x in bonds ==> x in elt && forall k :: 0 <= k < |bonds[x]| ==> bonds[x][k] in bonds
  }

  /** The tables of a consistent molecule are such a graph. */
  lemma ConsistentGraph(m: Molecule)
    requires m.Valid()
    ensures GraphOk(m.elt, m.bonds) && forall i :: 0 <= i < |m.atoms| ==> m.atoms[i] in m.bonds
  {
    forall x | x in m.bonds ensures forall k :: 0 <= k < |m.bonds[x]| ==> m.bonds[x][k] in m.bonds {
      Neighbours(m.bonds, x);
    }
  }

  /**
    `computeAtomNeighborSignature(a, stack, depth, maxDepth)` with the path
    `anc` = `stack[0..depth)`: below the maximal depth, one child for each
    entry of `a`'s bond list that is not on the path, with `a` pushed onto
    the path; at the maximal depth, no children.
   */
  function NeighborSig(elt: map<AtomId, Element>, bonds: map<AtomId, seq<AtomId>>, a: AtomId,
                       anc: seq<AtomId>, maxDepth: nat): AtomSignature
    requires GraphOk(elt, bonds) && a in bonds && maxDepth <= StackSz
    decreases StackSz - |anc|, 1, 0
  {
    AtomSignature(elt[a], if |anc| < maxDepth then ChildSigs(elt, bonds, bonds[a], anc + [a]) else [])
  }

  /** The children for the neighbours `ns` of the last atom of the path `st`: those not earlier on the path. */
  function ChildSigs(elt: map<AtomId, Element>, bonds: map<AtomId, seq<AtomId>>, ns: seq<AtomId>,
                     st: seq<AtomId>): seq<AtomSignature>
    requires GraphOk(elt, bonds) && (forall k :: 0 <= k < |ns| ==> ns[k] in bonds)
    requires 1 <= |st| <= StackSz
    decreases StackSz - (|st| - 1), 0, |ns|
  {
    if ns == [] then []
    else
      var n := ns[|ns| - 1];
      ChildSigs(elt, bonds, ns[..|ns| - 1], st)
      + (if n in st[..|st| - 1] then [] else [NeighborSig(elt, bonds, n, st, StackSz)])
  }

  /** `computeAtomSignature(a)`: the root, with the path holding only `a`. */
  function AtomSig(elt: map<AtomId, Element>, bonds: map<AtomId, seq<AtomId>>, a: AtomId): AtomSignature
    requires GraphOk(elt, bonds) && a in bonds
  {
    AtomSignature(elt[a], ChildSigs(elt, bonds, bonds[a], [a]))
  }

  /** The entries of `ns` that are not on the path `anc`, in order. */
  function Unseen(ns: seq<AtomId>, anc: seq<AtomId>): (r: seq<AtomId>)
    ensures forall k :: 0 <= k < |r| ==> r[k] in ns && r[k] !in anc
  {
    if ns == [] then []
    else Unseen(ns[..|ns| - 1], anc) + (if ns[|ns| - 1] in anc then [] else [ns[|ns| - 1]])
  }

  /**
    The children are exactly the neighbour signatures of the bond entries
    not on the path, one each, in bond-list order.
   */
  lemma {:induction false} ChildSigsUnseen(elt: map<AtomId, Element>, bonds: map<AtomId, seq<AtomId>>,
                                           ns: seq<AtomId>, st: seq<AtomId>)
    requires GraphOk(elt, bonds) && (forall k :: 0 <= k < |ns| ==> ns[k] in bonds)
    requires 1 <= |st| <= StackSz
    ensures var u := Unseen(ns, st[..|st| - 1]); var c := ChildSigs(elt, bonds, ns, st);
      |c| == |u| && forall i :: 0 <= i < |u| ==> c[i] == NeighborSig(elt, bonds, u[i], st, StackSz)
  {
    if ns != [] {
      ChildSigsUnseen(elt, bonds, ns[..|ns| - 1], st);
    }
  }

  /** Nothing is on an empty path. */
  lemma {:induction false} UnseenNothing(ns: seq<AtomId>)
    ensures Unseen(ns, []) == ns
  {
    if ns != [] {
      UnseenNothing(ns[..|ns| - 1]);
      assert ns == ns[..|ns| - 1] + [ns[|ns| - 1]];
    }
  }

  /** A root signature has one child per bond list entry, the neighbour's signature at depth 1. */
  lemma RootChildren(elt: map<AtomId, Element>, bonds: map<AtomId, seq<AtomId>>, a: AtomId)
    requires GraphOk(elt, bonds) && a in bonds
    ensures var r := AtomSig(elt, bonds, a);
      r.elt == elt[a] && |r.neighbors| == |bonds[a]|
      && forall i :: 0 <= i < |bonds[a]| ==> r.neighbors[i] == NeighborSig(elt, bonds, bonds[a][i], [a], StackSz)
  {
    ChildSigsUnseen(elt, bonds, bonds[a], [a]);
    UnseenNothing(bonds[a]);
  }

  /**
    A neighbour signature reached over a path of `|anc|` atoms is at most
    `STACK_SZ - |anc| + 1` levels high, whatever `maxDepth` was: the
    recursive calls pass `STACK_SZ`, and the recursion stops there.
   */
  lemma {:induction false} NeighborSigDepth(elt: map<AtomId, Element>, bonds: map<AtomId, seq<AtomId>>, a: AtomId,
                                            anc: seq<AtomId>, maxDepth: nat)
    requires GraphOk(elt, bonds) && a in bonds && maxDepth <= StackSz
    ensures |anc| >= maxDepth ==> NeighborSig(elt, bonds, a, anc, maxDepth).neighbors == []
    ensures |anc| < maxDepth ==> Depth(NeighborSig(elt, bonds, a, anc, maxDepth)) <= StackSz - |anc| + 1
    decreases StackSz - |anc|, 1, 0
  {
    if |anc| < maxDepth {
      var st := anc + [a];
      var c := ChildSigs(elt, bonds, bonds[a], st);
      ChildSigsUnseen(elt, bonds, bonds[a], st);
      var u := Unseen(bonds[a], st[..|st| - 1]);
      forall i | 0 <= i < |c| ensures Depth(c[i]) <= StackSz - |st| + 1 {
        assert c[i] == NeighborSig(elt, bonds, u[i], st, StackSz);
        assert u[i] in bonds[a];
        NeighborSigDepth(elt, bonds, u[i], st, StackSz);
      }
      SeqDepthBound(c, StackSz - |st| + 1);
      assert NeighborSig(elt, bonds, a, anc, maxDepth).neighbors == c;
    }
  }

  lemma {:induction false} SeqDepthBound(xs: seq<AtomSignature>, h: nat)
    requires forall i :: 0 <= i < |xs| ==> Depth(xs[i]) <= h
    ensures SeqDepth(xs) <= h
  {
    if xs != [] {
      SeqDepthBound(xs[1..], h);
    }
  }

  /** A root signature is at most `STACK_SZ + 1` levels high. */
  lemma AtomSigDepth(elt: map<AtomId, Element>, bonds: map<AtomId, seq<AtomId>>, a: AtomId)
    requires GraphOk(elt, bonds) && a in bonds
    ensures Depth(AtomSig(elt, bonds, a)) <= StackSz + 1
  {
    var c := ChildSigs(elt, bonds, bonds[a], [a]);
    RootChildren(elt, bonds, a);
    forall i | 0 <= i < |c| ensures Depth(c[i]) <= StackSz {
      NeighborSigDepth(elt, bonds, bonds[a][i], [a], StackSz);
    }
    SeqDepthBound(c, StackSz);
  }

  /**
    `computeAtomNeighborSignature`: writes `a` into `stack[depth]` and
    recurses into the neighbours that are not in `stack[0..depth)`; the
    slots below `depth` are left as they were.
   */
  method ComputeAtomNeighborSignature(m: Molecule, a: AtomId, stack: array<AtomId>, depth: nat, maxDepth: nat)
    returns (sig: AtomSignature)
    requires GraphOk(m.elt, m.bonds) && a in m.bonds
    requires stack.Length == StackSz && depth <= StackSz && maxDepth <= StackSz
    modifies stack
    ensures stack[..depth] == old(stack[..depth])
    ensures sig == NeighborSig(m.elt, m.bonds, a, old(stack[..depth]), maxDepth)
    decreases StackSz - depth
  {
    sig := AtomSignature(m.elt[a], []);
    if depth < maxDepth {
      ghost var anc := stack[..depth];
      stack[depth] := a;
      ghost var st := stack[..depth + 1];
      assert st == anc + [a] && st[..depth] == anc;
      var ns := m.bonds[a];
      for i := 0 to |ns|
        invariant stack[..depth + 1] == st
        invariant sig == AtomSignature(m.elt[a], ChildSigs(m.elt, m.bonds, ns[..i], st))
      {
        var neighbor := ns[i];
        var d := 0;
        while d < depth && neighbor != stack[d]
          invariant d <= depth && neighbor !in stack[..d]
        {
          assert stack[..d + 1] == stack[..d] + [stack[d]];
          d := d + 1;
        }
        assert stack[..depth] == anc;
        assert ns[..i + 1][..i] == ns[..i];
        if d == depth {
          var child := ComputeAtomNeighborSignature(m, neighbor, stack, depth + 1, StackSz);
          sig := AtomSignature(sig.elt, sig.neighbors + [child]);
        } else {
          assert neighbor in anc;
        }
      }
      assert ns[..|ns|] == ns;
    }
  }

  /** `computeAtomSignature`: a fresh path holding `a`, then one neighbour signature per bond entry. */
  method ComputeAtomSignature(m: Molecule, a: AtomId) returns (sig: AtomSignature)
    requires GraphOk(m.elt, m.bonds) && a in m.bonds
    ensures sig == AtomSig(m.elt, m.bonds, a)
  {
    var stack := new AtomId[StackSz];
    stack[0] := a;
    ghost var st := stack[..1];
    assert st == [a];
    sig := AtomSignature(m.elt[a], []);
    var ns := m.bonds[a];
    for i := 0 to |ns|
      invariant stack[..1] == st
      invariant sig == AtomSignature(m.elt[a], ChildSigs(m.elt, m.bonds, ns[..i], st))
    {
      var child := ComputeAtomNeighborSignature(m, ns[i], stack, 1, StackSz);
      assert ns[..i + 1][..i] == ns[..i];
      sig := AtomSignature(sig.elt, sig.neighbors + [child]);
    }
    assert ns[..|ns|] == ns;
  }

  /** The atom signatures of `atoms`, each with its neighbours sorted, in atom order. */
  function AtomSigs(elt: map<AtomId, Element>, bonds: map<AtomId, seq<AtomId>>, atoms: seq<AtomId>): (r: seq<AtomSignature>)
    requires GraphOk(elt, bonds) && forall i :: 0 <= i < |atoms| ==> atoms[i] in bonds
    ensures |r| == |atoms|
  {
    if atoms == [] then []
    else AtomSigs(elt, bonds, atoms[..|atoms| - 1]) + [Canonical(AtomSig(elt, bonds, atoms[|atoms| - 1]))]
  }

  /**
    `computeMoleculeSignature`: one signature per atom, each with its
    neighbours sorted, and then the list sorted by `operator<`.
   */
  method ComputeMoleculeSignature(m: Molecule) returns (ms: MoleculeSignature)
    requires m.Valid()
    ensures GraphOk(m.elt, m.bonds) && forall i :: 0 <= i < |m.atoms| ==> m.atoms[i] in m.bonds
    ensures |ms| == |m.atoms| && Sorted(ms)
    ensures multiset(ms) == multiset(AtomSigs(m.elt, m.bonds, m.atoms))
  {
    ConsistentGraph(m);
    var sigs := SortedAtomSignatures(m);
    ms := Sort(sigs);
  }

  /** The loop of `computeMoleculeSignature` and the first half of `MoleculeSignature::sort`. */
  method SortedAtomSignatures(m: Molecule) returns (sigs: seq<AtomSignature>)
    requires GraphOk(m.elt, m.bonds) && forall i :: 0 <= i < |m.atoms| ==> m.atoms[i] in m.bonds
    ensures sigs == AtomSigs(m.elt, m.bonds, m.atoms)
  {
    var atoms := m.atoms;
    sigs := [];
    for i := 0 to |atoms|
      invariant sigs == AtomSigs(m.elt, m.bonds, atoms[..i])
    {
      var s := ComputeAtomSignature(m, atoms[i]);
      s := SortNeighbors(s);
      assert atoms[..i + 1][..i] == atoms[..i];
      sigs := sigs + [s];
    }
    assert atoms[..|atoms|] == atoms;
  }

  /**
    The molecule signature depends only on which atom signatures occur, not
    on the order of the atom list: molecules whose atoms give the same
    signatures get the same key.
   */
  lemma SignatureOrderFree(ms1: MoleculeSignature, ms2: MoleculeSignature, s1: seq<AtomSignature>, s2: seq<AtomSignature>)
    requires Sorted(ms1) && multiset(ms1) == multiset(s1)
    requires Sorted(ms2) && multiset(ms2) == multiset(s2)
    requires multiset(s1) == multiset(s2)
    ensures ms1 == ms2
  {
    SortedUnique(ms1, ms2);
  }

  // ---------------------------------------------------------------------------
  // The database
  // ---------------------------------------------------------------------------

  /** `MoleculeSignature::operator<`: only the sizes are compared. */
  predicate MoleculeLess(a: MoleculeSignature, b: MoleculeSignature)
  {
    |a| < |b|
  }

  /** Two keys are the same `std::map` key when neither is smaller: exactly when they are equally long. */
  lemma SameKey(a: MoleculeSignature, b: MoleculeSignature)
    ensures (!MoleculeLess(a, b) && !MoleculeLess(b, a)) <==> |a| == |b|
  {
  }

  /**
    A hydrogen alone and a carbon alone have different signatures but the
    same key: as written, `find` for one returns the identifier added for
    the other.
   */
  lemma DifferentMoleculesShareKey()
    ensures [AtomSignature(1, [])] != [AtomSignature(C, [])]
    ensures !MoleculeLess([AtomSignature(1, [])], [AtomSignature(C, [])])
    ensures !MoleculeLess([AtomSignature(C, [])], [AtomSignature(1, [])])
  {
    assert [AtomSignature(1, [])][0] != [AtomSignature(C, [])][0];
  }

  /**
    The order `MoleculeSignature::operator<` evidently means: fewer atoms
    first, and for equally many, the first atom signatures that differ
    decide, as `AtomSignature::operator<` does for neighbours.
   */
  predicate SignatureLess(a: MoleculeSignature, b: MoleculeSignature)
  {
    |a| < |b| || (|a| == |b| && NeighborsLess(a, b))
  }

  /** Under that order two signatures are the same `std::map` key exactly when they are equal. */
  lemma SignatureSameKey(a: MoleculeSignature, b: MoleculeSignature)
    ensures (!SignatureLess(a, b) && !SignatureLess(b, a)) <==> a == b
  {
    if a == b {
      forall i | 0 <= i < |a| ensures !Less(a[i], a[i]) {
        LessIrreflexive(a[i]);
      }
      NeighborsIrreflexive(a);
    } else if |a| == |b| {
      forall i | 0 <= i < |a| ensures a[i] == b[i] || Less(a[i], b[i]) || Less(b[i], a[i]) {
        LessTotal(a[i], b[i]);
      }
      NeighborsTotal(a, b);
    }
  }

  /** That order is transitive, so `std::map` may use it. */
  lemma SignatureLessTransitive(a: MoleculeSignature, b: MoleculeSignature, c: MoleculeSignature)
    requires SignatureLess(a, b) && SignatureLess(b, c)
    ensures SignatureLess(a, c)
  {
    if |a| == |b| == |c| {
      forall i | 0 <= i < |a| ensures Less(a[i], b[i]) && Less(b[i], c[i]) ==> Less(a[i], c[i]) {
        if Less(a[i], b[i]) && Less(b[i], c[i]) {
          LessTransitive(a[i], b[i], c[i]);
        }
      }
      NeighborsTransitive(a, b, c);
    }
  }

  /** An entry of the map: the key it was first stored with, and the identifier last assigned to it. */
  datatype Entry = Entry(key: MoleculeSignature, id: string)

  /**
    `StructureDb`: the `std::map<MoleculeSignature, std::string>`. Since the
    key order compares sizes only, the map holds at most one entry per size;
    `signatures` is indexed by that size.
   */
  class Db {
    var signatures: map<nat, Entry>

    ghost predicate Valid()
      reads this
    {
      forall n :: n in signatures ==> |signatures[n].key| == n
    }

    constructor ()
      ensures Valid() && signatures == map[]
    {
      signatures := map[];
    }

    /**
      `add(m, id)`: `signatures[signature] = id`; when a key of the same size
      is there, it stays and only its identifier is replaced.
     */
    method Add(m: Molecule, id: string)
      requires Valid() && m.Valid()
      modifies this
      ensures Valid()
      ensures signatures.Keys == old(signatures).Keys + {|m.atoms|}
      ensures signatures[|m.atoms|].id == id
      ensures |m.atoms| in old(signatures) ==> signatures[|m.atoms|].key == old(signatures)[|m.atoms|].key
      ensures forall n :: n in old(signatures) && n != |m.atoms| ==> signatures[n] == old(signatures)[n]
    {
      var signature := MoleculeKey(m);
      var n := |signature|;
      if n in signatures {
        signatures := signatures[n := signatures[n].(id := id)];
      } else {
        signatures := signatures[n := Entry(signature, id)];
      }
    }

    /** `find(m)`: the identifier stored under an equivalent key, or "" when there is none. */
    method Find(m: Molecule) returns (r: string)
      requires Valid() && m.Valid()
      ensures r == (if |m.atoms| in signatures then signatures[|m.atoms|].id else "")
    {
      var signature := MoleculeKey(m);
      var n := |signature|;
      r := if n in signatures then signatures[n].id else "";
    }

    /** `size()`: the number of entries, one per atom count that was added. */
    function Size(): (n: nat)
      reads this
      ensures n == |signatures.Keys|
    {
      |signatures|
    }
  }

  /** The key `add` and `find` use: the molecule signature, one entry per atom. */
  method MoleculeKey(m: Molecule) returns (ms: MoleculeSignature)
    requires m.Valid()
    ensures |ms| == |m.atoms|
  {
    ms := ComputeMoleculeSignature(m);
  }

  /**
    `find` after `add` on the same molecule gives the identifier added, and so
    does `find` on any molecule with as many atoms: the last `add` for an atom
    count wins.
   */
  method AddThenFind(db: Db, m1: Molecule, id: string, m2: Molecule) returns (r: string)
    requires db.Valid() && m1.Valid() && m2.Valid() && |m1.atoms| == |m2.atoms|
    modifies db
    ensures r == id && db.Size() >= 1
  {
    db.Add(m1, id);
    r := db.Find(m2);
  }
}
