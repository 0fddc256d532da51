/**
  The bond-graph traversal of the JavaScript layer (modules/molecule-functions.js).

  `traverseForward` walks the molecule from the bond atom1 -> atom2 away
  from atom1: a stack of pending (atom, level) entries, seeded with the
  neighbours of atom2 at level 1; an atom is marked seen when its entry is
  popped, so an atom may be pushed, and reported, more than once.
  `findLevelsFrom` buckets what the walk reports by level.

  The molecule is its bond lists, `bonds[x]` in the order `getBonds`
  returns them; the callback is the sequence of calls it receives.
 */
module MoleculeFunctions {
  import Molecules

  type AtomId = Molecules.AtomId
  type Bonds = map<AtomId, seq<AtomId>>

  /** One call `fn(id, atom, lev)`, and one pending entry of the stack. */
  datatype Report = Report(id: AtomId, lev: nat)

  /** Every bond leads to an atom of the molecule. */
  predicate Closed(bonds: Bonds)
  {
    forall x, k :: x in bonds && 0 <= k < |bonds[x]| ==> bonds[x][k] in bonds
  }

  /** `traverseBonds`: the neighbours not yet seen, in bond order, at level `lev`. */
  function Unseen(nbrs: seq<AtomId>, seen: set<AtomId>, lev: nat): (es: seq<Report>)
    ensures forall i :: 0 <= i < |es| ==> es[i].lev == lev && es[i].id in nbrs && es[i].id !in seen
  {
    if nbrs == [] then []
    else
      var init := Unseen(nbrs[..|nbrs| - 1], seen, lev);
      var last := nbrs[|nbrs| - 1];
      init + (if last !in seen then [Report(last, lev)] else [])
  }

  /** `traverseBonds(a, lev)`: pushes each unseen neighbour, in order. */
  method TraverseBonds(nbrs: seq<AtomId>, seen: set<AtomId>, lev: nat, todo: seq<Report>) returns (todo': seq<Report>)
    ensures todo' == todo + Unseen(nbrs, seen, lev)
  {
    todo' := todo;
    for b := 0 to |nbrs|
      invariant todo' == todo + Unseen(nbrs[..b], seen, lev)
    {
      assert nbrs[..b + 1][..b] == nbrs[..b];
      if nbrs[b] !in seen {
        todo' := todo' + [Report(nbrs[b], lev)];
      }
    }
    assert nbrs[..|nbrs|] == nbrs;
  }

  /**
    Entry `e` is justified by the reports `rs`: a level-1 entry is a
    neighbour of atom2, a deeper one a neighbour of an atom reported one
    level up.
   */
  predicate JustifiedBy(bonds: Bonds, atom2: AtomId, rs: seq<Report>, e: Report)
    requires atom2 in bonds
  {
    e.lev >= 1 &&
    ((e.lev == 1 && e.id in bonds[atom2]) ||
     exists j :: 0 <= j < |rs| && rs[j].lev == e.lev - 1 && rs[j].id in bonds && e.id in bonds[rs[j].id])
  }

  /** The atoms the walk has reached: atom1, atom2 and every reported atom. */
  predicate Reached(rs: seq<Report>, atom1: AtomId, atom2: AtomId, x: AtomId)
  {
    x == atom1 || x == atom2 || exists j :: 0 <= j < |rs| && rs[j].id == x
  }

  /** Whether `x` has a pending entry. */
  predicate Pending(todo: seq<Report>, x: AtomId)
  {
    exists i :: 0 <= i < |todo| && todo[i].id == x
  }

  /** How many labels exceed `u`. */
  function Above(labels: seq<nat>, u: nat): nat
  {
    if labels == [] then 0 else Above(labels[..|labels| - 1], u) + (if labels[|labels| - 1] > u then 1 else 0)
  }

  lemma {:induction false} AboveAppendLow(labels: seq<nat>, more: seq<nat>, u: nat)
    requires forall i :: 0 <= i < |more| ==> more[i] <= u
    ensures Above(labels + more, u) == Above(labels, u)
    decreases |more|
  {
    if more != [] {
      var init := more[..|more| - 1];
      assert (labels + more)[..|labels + more| - 1] == labels + init;
      AboveAppendLow(labels, init, u);
    } else {
      assert labels + more == labels;
    }
  }

  /** `n` copies of `u`. */
  function Copies(n: nat, u: nat): (r: seq<nat>)
    ensures |r| == n && forall i :: 0 <= i < n ==> r[i] == u
  {
    if n == 0 then [] else Copies(n - 1, u) + [u]
  }

  /** atom1 and atom2 are seen from the start, and only atoms of the molecule are. */
  predicate SeenOk(bonds: Bonds, atom1: AtomId, atom2: AtomId, seen: set<AtomId>)
  {
    seen <= bonds.Keys && atom1 in seen && atom2 in seen
  }

  /**
    The termination argument: each entry is labelled with the number of
    unseen atoms when it was pushed; an entry whose atom has since been
    seen has a label above the current number.
   */
  ghost predicate LabelsOk(seen: set<AtomId>, todo: seq<Report>, labels: seq<nat>, unseen: nat)
  {
    && |labels| == |todo|
    && (forall i :: 0 <= i < |todo| ==> labels[i] >= unseen)
    && (forall i :: 0 <= i < |todo| && todo[i].id in seen ==> labels[i] > unseen)
  }

  /** Pending entries are atoms other than atom1 and atom2, each justified by the reports so far. */
  predicate PendingOk(bonds: Bonds, atom1: AtomId, atom2: AtomId, todo: seq<Report>, reports: seq<Report>)
    requires atom2 in bonds
  {
    && (forall i :: 0 <= i < |todo| ==> todo[i].id in bonds && todo[i].id != atom1 && todo[i].id != atom2)
    && (forall i :: 0 <= i < |todo| ==> JustifiedBy(bonds, atom2, reports, todo[i]))
  }

  /** Reports are seen atoms other than atom1 and atom2, each justified by the earlier ones; seen atoms are reached. */
  predicate ReportsOk(bonds: Bonds, atom1: AtomId, atom2: AtomId, seen: set<AtomId>, reports: seq<Report>)
    requires atom2 in bonds
  {
    && (forall j :: 0 <= j < |reports| ==> reports[j].id in seen && reports[j].id != atom1 && reports[j].id != atom2)
    && (forall j :: 0 <= j < |reports| ==> JustifiedBy(bonds, atom2, reports[..j], reports[j]))
    && (forall x :: x in seen ==> Reached(reports, atom1, atom2, x))
  }

  /** Every neighbour of a seen atom other than atom1 is seen or pending. */
  predicate ClosureOk(bonds: Bonds, atom1: AtomId, atom2: AtomId, seen: set<AtomId>, todo: seq<Report>)
    requires seen <= bonds.Keys
  {
    forall x, k :: x in seen && (x != atom1 || x == atom2) && 0 <= k < |bonds[x]| ==> bonds[x][k] in seen || Pending(todo, bonds[x][k])
  }

  /** What the stack keeps between iterations. */
  ghost predicate Inv(bonds: Bonds, atom1: AtomId, atom2: AtomId, seen: set<AtomId>, todo: seq<Report>,
                      labels: seq<nat>, reports: seq<Report>)
    requires atom2 in bonds
  {
    && SeenOk(bonds, atom1, atom2, seen)
    && LabelsOk(seen, todo, labels, |bonds.Keys - seen|)
    && PendingOk(bonds, atom1, atom2, todo, reports)
    && ReportsOk(bonds, atom1, atom2, seen, reports)
    && ClosureOk(bonds, atom1, atom2, seen, todo)
  }

  /** The seed: atom1 and atom2 seen, the unseen neighbours of atom2 pending at level 1. */
  lemma InvSeed(bonds: Bonds, atom1: AtomId, atom2: AtomId, todo: seq<Report>)
    requires Closed(bonds) && atom1 in bonds && atom2 in bonds
    requires todo == Unseen(bonds[atom2], {atom1, atom2}, 1)
    ensures Inv(bonds, atom1, atom2, {atom1, atom2}, todo, Copies(|todo|, |bonds.Keys - {atom1, atom2}|), [])
  {
    var seen := {atom1, atom2};
    UnseenFacts(bonds[atom2], seen, 1);
  }

  /** The measure decreases: either one more atom is seen, or a stale entry leaves for entries labelled lower. */
  lemma StepMeasure(bonds: Bonds, seen: set<AtomId>, todo: seq<Report>, labels: seq<nat>,
                    seen': set<AtomId>, n: nat, labels': seq<nat>)
    requires todo != [] && LabelsOk(seen, todo, labels, |bonds.Keys - seen|)
    requires todo[|todo| - 1].id in bonds && seen' == seen + {todo[|todo| - 1].id}
    requires labels' == labels[..|labels| - 1] + Copies(n, |bonds.Keys - seen'|)
    ensures |bonds.Keys - seen'| < |bonds.Keys - seen| ||
            (|bonds.Keys - seen'| == |bonds.Keys - seen| && Above(labels', |bonds.Keys - seen'|) < Above(labels, |bonds.Keys - seen|))
  {
    var id := todo[|todo| - 1].id;
    if id in seen {
      var u := |bonds.Keys - seen|;
      assert seen' == seen;
      assert labels[|labels| - 1] > u;
      var init := labels[..|labels| - 1];
      assert labels[..|labels| - 1] == init;
      assert Above(labels, u) == Above(init, u) + 1;
      AboveAppendLow(init, Copies(n, u), u);
    } else {
      assert bonds.Keys - seen' == (bonds.Keys - seen) - {id};
      assert id in bonds.Keys - seen;
    }
  }

  /** The labels after a step: the rest keep theirs, the new entries get the current unseen count. */
  lemma StepLabels(seen: set<AtomId>, todo: seq<Report>, labels: seq<nat>, u: nat,
                   seen': set<AtomId>, pushed: seq<Report>, todo': seq<Report>, labels': seq<nat>, u': nat)
    requires todo != [] && LabelsOk(seen, todo, labels, u)
    requires seen' == seen + {todo[|todo| - 1].id}
    requires todo[|todo| - 1].id !in seen ==> u' < u
    requires todo[|todo| - 1].id in seen ==> u' == u
    requires forall i :: 0 <= i < |pushed| ==> pushed[i].id !in seen'
    requires todo' == todo[..|todo| - 1] + pushed
    requires labels' == labels[..|labels| - 1] + Copies(|pushed|, u')
    ensures LabelsOk(seen', todo', labels', u')
  {
    var rest := todo[..|todo| - 1];
    forall i | 0 <= i < |todo'|
      ensures labels'[i] >= u' && (todo'[i].id in seen' ==> labels'[i] > u')
    {
      if i < |rest| {
        assert todo'[i] == todo[i] && labels'[i] == labels[i];
      } else {
        assert todo'[i] == pushed[i - |rest|];
        assert labels'[i] == u';
      }
    }
  }

  lemma StepSeen(bonds: Bonds, seen: set<AtomId>, id: AtomId)
    requires id in bonds && id !in seen
    ensures |bonds.Keys - (seen + {id})| < |bonds.Keys - seen|
  {
    assert bonds.Keys - (seen + {id}) == (bonds.Keys - seen) - {id};
  }

  /** The pending entries after a step: the rest, justified as before, and the new ones, justified by the popped entry. */
  lemma StepPending(bonds: Bonds, atom1: AtomId, atom2: AtomId, seen: set<AtomId>, todo: seq<Report>, reports: seq<Report>,
                    pushed: seq<Report>, todo': seq<Report>)
    requires Closed(bonds) && atom2 in bonds && todo != [] && atom1 in seen && atom2 in seen
    requires PendingOk(bonds, atom1, atom2, todo, reports)
    requires var tri := todo[|todo| - 1];
      forall i :: 0 <= i < |pushed| ==> pushed[i].id !in seen && pushed[i].lev == tri.lev + 1 && pushed[i].id in bonds[tri.id]
    requires todo' == todo[..|todo| - 1] + pushed
    ensures PendingOk(bonds, atom1, atom2, todo', reports + [todo[|todo| - 1]])
  {
    var tri := todo[|todo| - 1];
    var rest := todo[..|todo| - 1];
    var reports' := reports + [tri];
    assert reports'[|reports|] == tri;
    forall i | 0 <= i < |todo'|
      ensures todo'[i].id in bonds && todo'[i].id != atom1 && todo'[i].id != atom2
      ensures JustifiedBy(bonds, atom2, reports', todo'[i])
    {
      if i < |rest| {
        var e := todo[i];
        assert todo'[i] == e;
        assert JustifiedBy(bonds, atom2, reports, e);
        if e.lev != 1 || e.id !in bonds[atom2] {
          var j :| 0 <= j < |reports| && reports[j].lev == e.lev - 1 && reports[j].id in bonds && e.id in bonds[reports[j].id];
          assert reports'[j] == reports[j];
        }
      } else {
        assert todo'[i] == pushed[i - |rest|];
      }
    }
  }

  /** The reports after a step: the popped entry is reported and its atom seen. */
  lemma StepReports(bonds: Bonds, atom1: AtomId, atom2: AtomId, seen: set<AtomId>, todo: seq<Report>, reports: seq<Report>)
    requires atom2 in bonds && todo != []
    requires PendingOk(bonds, atom1, atom2, todo, reports) && ReportsOk(bonds, atom1, atom2, seen, reports)
    ensures ReportsOk(bonds, atom1, atom2, seen + {todo[|todo| - 1].id}, reports + [todo[|todo| - 1]])
  {
    var tri := todo[|todo| - 1];
    var seen' := seen + {tri.id};
    var reports' := reports + [tri];
    assert JustifiedBy(bonds, atom2, reports, tri);
    forall j | 0 <= j < |reports'|
      ensures reports'[j].id in seen' && reports'[j].id != atom1 && reports'[j].id != atom2
      ensures JustifiedBy(bonds, atom2, reports'[..j], reports'[j])
    {
      if j < |reports| {
        assert reports'[..j] == reports[..j] && reports'[j] == reports[j];
      } else {
        assert reports'[..j] == reports;
      }
    }
    forall x | x in seen'
      ensures Reached(reports', atom1, atom2, x)
    {
      if x != tri.id {
        assert Reached(reports, atom1, atom2, x);
        if x != atom1 && x != atom2 {
          var j :| 0 <= j < |reports| && reports[j].id == x;
          assert reports'[j].id == x;
        }
      } else {
        assert reports'[|reports|].id == x;
      }
    }
  }

  /** Closure after a step: the popped atom's unseen neighbours are now pending. */
  lemma StepClosure(bonds: Bonds, atom1: AtomId, atom2: AtomId, seen: set<AtomId>, todo: seq<Report>, pushed: seq<Report>, todo': seq<Report>)
    requires todo != [] && todo[|todo| - 1].id in bonds && seen <= bonds.Keys && ClosureOk(bonds, atom1, atom2, seen, todo)
    requires var id := todo[|todo| - 1].id;
      forall k :: 0 <= k < |bonds[id]| && bonds[id][k] !in seen + {id} ==> Pending(pushed, bonds[id][k])
    requires todo' == todo[..|todo| - 1] + pushed
    ensures ClosureOk(bonds, atom1, atom2, seen + {todo[|todo| - 1].id}, todo')
  {
    var tri := todo[|todo| - 1];
    var rest := todo[..|todo| - 1];
    var seen' := seen + {tri.id};
    forall x, k | x in seen' && (x != atom1 || x == atom2) && 0 <= k < |bonds[x]|
      ensures bonds[x][k] in seen' || Pending(todo', bonds[x][k])
    {
      var y := bonds[x][k];
      if y !in seen' {
        if x == tri.id {
          var i :| 0 <= i < |pushed| && pushed[i].id == y;
          assert todo'[|rest| + i] == pushed[i];
        } else {
          var i :| 0 <= i < |todo| && todo[i].id == y;
          assert i != |todo| - 1;
          assert todo'[i] == todo[i];
        }
      }
    }
  }

  /** Every unseen neighbour is pushed. */
  lemma {:induction false} UnseenFacts(nbrs: seq<AtomId>, seen: set<AtomId>, lev: nat)
    ensures forall k :: 0 <= k < |nbrs| && nbrs[k] !in seen ==> Pending(Unseen(nbrs, seen, lev), nbrs[k])
  {
    if nbrs != [] {
      var init := nbrs[..|nbrs| - 1];
      UnseenFacts(init, seen, lev);
      var es := Unseen(nbrs, seen, lev);
      var es0 := Unseen(init, seen, lev);
      forall k | 0 <= k < |nbrs| && nbrs[k] !in seen
        ensures Pending(es, nbrs[k])
      {
        if k < |init| {
          assert init[k] == nbrs[k];
          var i :| 0 <= i < |es0| && es0[i].id == nbrs[k];
          assert es[i] == es0[i];
        } else {
          assert es[|es| - 1].id == nbrs[k];
        }
      }
    }
  }

  /** What `Walk` needs: bonds lead into the molecule, and the labels bound the unseen count as `LabelsOk` says. */
  ghost predicate WalkPre(bonds: Bonds, seen: set<AtomId>, todo: seq<Report>, labels: seq<nat>)
  {
    && Closed(bonds) && seen <= bonds.Keys
    && (forall i :: 0 <= i < |todo| ==> todo[i].id in bonds)
    && LabelsOk(seen, todo, labels, |bonds.Keys - seen|)
  }

  /** The seen set after popping the last entry. */
  function PopSeen(seen: set<AtomId>, todo: seq<Report>): set<AtomId>
    requires todo != []
  {
    seen + {todo[|todo| - 1].id}
  }

  /** The entries pushed after popping the last entry: its unseen neighbours, one level deeper. */
  function Pushed(bonds: Bonds, seen: set<AtomId>, todo: seq<Report>): seq<Report>
    requires todo != [] && todo[|todo| - 1].id in bonds
  {
    Unseen(bonds[todo[|todo| - 1].id], PopSeen(seen, todo), todo[|todo| - 1].lev + 1)
  }

  /** The stack after one iteration: the last entry popped, its pushed entries on top. */
  function PopTodo(bonds: Bonds, seen: set<AtomId>, todo: seq<Report>): seq<Report>
    requires todo != [] && todo[|todo| - 1].id in bonds
  {
    todo[..|todo| - 1] + Pushed(bonds, seen, todo)
  }

  /** The labels after one iteration: the pushed entries carry the unseen count after the pop. */
  ghost function PopLabels(bonds: Bonds, seen: set<AtomId>, todo: seq<Report>, labels: seq<nat>): seq<nat>
    requires todo != [] && todo[|todo| - 1].id in bonds && labels != []
  {
    labels[..|labels| - 1] + Copies(|Pushed(bonds, seen, todo)|, |bonds.Keys - PopSeen(seen, todo)|)
  }

  /** One iteration keeps `WalkPre` and lowers the measure. */
  lemma WalkStep(bonds: Bonds, seen: set<AtomId>, todo: seq<Report>, labels: seq<nat>)
    requires WalkPre(bonds, seen, todo, labels) && todo != []
    ensures labels != []
    ensures WalkPre(bonds, PopSeen(seen, todo), PopTodo(bonds, seen, todo), PopLabels(bonds, seen, todo, labels))
    ensures var seen' := PopSeen(seen, todo);
      |bonds.Keys - seen'| < |bonds.Keys - seen| ||
      (|bonds.Keys - seen'| == |bonds.Keys - seen|
       && Above(PopLabels(bonds, seen, todo, labels), |bonds.Keys - seen'|) < Above(labels, |bonds.Keys - seen|))
  {
    var tri := todo[|todo| - 1];
    var seen' := PopSeen(seen, todo);
    var pushed := Pushed(bonds, seen, todo);
    var todo' := PopTodo(bonds, seen, todo);
    var labels' := PopLabels(bonds, seen, todo, labels);
    assert tri.id in bonds;
    StepMeasure(bonds, seen, todo, labels, seen', |pushed|, labels');
    if tri.id !in seen {
      StepSeen(bonds, seen, tri.id);
    } else {
      assert seen' == seen;
    }
    StepLabels(seen, todo, labels, |bonds.Keys - seen|, seen', pushed, todo', labels', |bonds.Keys - seen'|);
    forall i | 0 <= i < |todo'|
      ensures todo'[i].id in bonds
    {
      if i < |todo| - 1 {
        assert todo'[i] == todo[i];
      } else {
        assert todo'[i] == pushed[i - (|todo| - 1)];
        assert pushed[i - (|todo| - 1)].id in bonds[tri.id];
      }
    }
  }

  /**
    The calls `fn` receives from the stack `todo` on, with `seen` the atoms
    seen so far: the last entry is popped and reported, whether or not its
    atom was seen; its atom is marked seen and its unseen neighbours are
    pushed one level deeper. `labels` only measures termination.
   */
  ghost function Walk(bonds: Bonds, seen: set<AtomId>, todo: seq<Report>, labels: seq<nat>): (rs: seq<Report>)
    requires WalkPre(bonds, seen, todo, labels)
    ensures |rs| >= |todo|
    ensures todo != [] ==> rs[0] == todo[|todo| - 1]
    decreases |bonds.Keys - seen|, Above(labels, |bonds.Keys - seen|)
  {
    if todo == [] then []
    else
      WalkStep(bonds, seen, todo, labels);
      [todo[|todo| - 1]] + Walk(bonds, PopSeen(seen, todo), PopTodo(bonds, seen, todo), PopLabels(bonds, seen, todo, labels))
  }

  /** The walk from a non-empty stack: the last entry, then the walk after one iteration. */
  lemma WalkUnfold(bonds: Bonds, seen: set<AtomId>, todo: seq<Report>, labels: seq<nat>)
    requires WalkPre(bonds, seen, todo, labels) && todo != []
    ensures labels != [] && WalkPre(bonds, PopSeen(seen, todo), PopTodo(bonds, seen, todo), PopLabels(bonds, seen, todo, labels))
    ensures Walk(bonds, seen, todo, labels)
            == [todo[|todo| - 1]] + Walk(bonds, PopSeen(seen, todo), PopTodo(bonds, seen, todo), PopLabels(bonds, seen, todo, labels))
  {
    WalkStep(bonds, seen, todo, labels);
  }

  /** The seed entries: atom2's neighbours other than atom1 and atom2, at level 1, in bond order. */
  function Seed(bonds: Bonds, atom1: AtomId, atom2: AtomId): seq<Report>
    requires atom2 in bonds
  {
    Unseen(bonds[atom2], {atom1, atom2}, 1)
  }

  /** The whole sequence of `fn` calls `traverseForward(atom1, atom2, fn)` makes. */
  ghost function Traversal(bonds: Bonds, atom1: AtomId, atom2: AtomId): (rs: seq<Report>)
    requires Closed(bonds) && atom1 in bonds && atom2 in bonds
    ensures var seed := Seed(bonds, atom1, atom2); (rs == [] <==> seed == []) && (seed != [] ==> rs[0] == seed[|seed| - 1])
  {
    var seed := Seed(bonds, atom1, atom2);
    InvSeed(bonds, atom1, atom2, seed);
    Walk(bonds, {atom1, atom2}, seed, Copies(|seed|, |bonds.Keys - {atom1, atom2}|))
  }

  /** Atoms 1, 2 and 3 bonded in a triangle, with atom 0 bonded to 1. */
  const Triangle: Bonds := map[0 := [1], 1 := [0, 2, 3], 2 := [1, 3], 3 := [1, 2]]

  /**
    An atom can be reported twice, at different levels: in the triangle
    1-2-3 walked from the bond 0 -> 1, atom 3 is popped first and pushes 2
    at level 2, while the seed entry for 2 at level 1 is still on the stack.
   */
  lemma ReportedTwice()
    ensures Closed(Triangle)
    ensures Traversal(Triangle, 0, 1) == [Report(3, 1), Report(2, 2), Report(2, 1)]
  {
    TriangleClosed();
    TriangleSeed();
    var seed := Seed(Triangle, 0, 1);
    TriangleHead({0, 1}, seed, Copies(|seed|, |Triangle.Keys - {0, 1}|));
  }

  lemma TriangleClosed()
    ensures Closed(Triangle)
  {
    assert Triangle.Keys == {0, 1, 2, 3};
  }

  /** The seed of the triangle walk: 2 and then 3, at level 1. */
  lemma TriangleSeed()
    ensures Seed(Triangle, 0, 1) == [Report(2, 1), Report(3, 1)]
  {
    assert [0, 2, 3][..2] == [0, 2] && [0, 2][..1] == [0] && [0][..0] == [];
    assert Unseen([0], {0, 1}, 1) == [];
    assert Unseen([0, 2], {0, 1}, 1) == [Report(2, 1)];
  }

  /** The first pop of the triangle walk reports 3 and pushes 2 at level 2. */
  lemma TriangleHead(seen: set<AtomId>, todo: seq<Report>, labels: seq<nat>)
    requires seen == {0, 1} && todo == [Report(2, 1), Report(3, 1)] && WalkPre(Triangle, seen, todo, labels)
    ensures Walk(Triangle, seen, todo, labels) == [Report(3, 1), Report(2, 2), Report(2, 1)]
  {
    WalkUnfold(Triangle, seen, todo, labels);
    TriangleHeadPop();
    TriangleTail(PopSeen(seen, todo), PopTodo(Triangle, seen, todo), PopLabels(Triangle, seen, todo, labels));
  }

  lemma TriangleHeadPop()
    ensures PopSeen({0, 1}, [Report(2, 1), Report(3, 1)]) == {0, 1, 3}
    ensures PopTodo(Triangle, {0, 1}, [Report(2, 1), Report(3, 1)]) == [Report(2, 1), Report(2, 2)]
  {
    assert [1, 2][..1] == [1] && [1][..0] == [];
    assert Unseen([1], {0, 1, 3}, 2) == [];
  }

  /** The rest of the triangle walk: 2 at level 2, then the stale seed entry for 2. */
  lemma TriangleTail(seen: set<AtomId>, todo: seq<Report>, labels: seq<nat>)
    requires seen == {0, 1, 3} && todo == [Report(2, 1), Report(2, 2)] && WalkPre(Triangle, seen, todo, labels)
    ensures Walk(Triangle, seen, todo, labels) == [Report(2, 2), Report(2, 1)]
  {
    WalkUnfold(Triangle, seen, todo, labels);
    TriangleTailPop();
    TriangleLast(PopSeen(seen, todo), PopTodo(Triangle, seen, todo), PopLabels(Triangle, seen, todo, labels));
  }

  lemma TriangleTailPop()
    ensures PopSeen({0, 1, 3}, [Report(2, 1), Report(2, 2)]) == {0, 1, 2, 3}
    ensures PopTodo(Triangle, {0, 1, 3}, [Report(2, 1), Report(2, 2)]) == [Report(2, 1)]
  {
    assert [1, 3][..1] == [1] && [1][..0] == [];
    assert Unseen([1, 3], {0, 1, 2, 3}, 3) == [];
  }

  /** The last pop of the triangle walk reports the stale entry and pushes nothing. */
  lemma TriangleLast(seen: set<AtomId>, todo: seq<Report>, labels: seq<nat>)
    requires seen == {0, 1, 2, 3} && todo == [Report(2, 1)] && WalkPre(Triangle, seen, todo, labels)
    ensures Walk(Triangle, seen, todo, labels) == [Report(2, 1)]
  {
    WalkUnfold(Triangle, seen, todo, labels);
    TriangleLastPop();
    var next := PopTodo(Triangle, seen, todo);
    assert Walk(Triangle, PopSeen(seen, todo), next, PopLabels(Triangle, seen, todo, labels)) == [];
  }

  lemma TriangleLastPop()
    ensures PopTodo(Triangle, {0, 1, 2, 3}, [Report(2, 1)]) == []
  {
    assert [1, 3][..1] == [1] && [1][..0] == [];
    assert Unseen([1, 3], {0, 1, 2, 3}, 2) == [];
  }

  /**
    `traverseForward(atom1, atom2, fn)`: the calls of `fn`, in order, are
    exactly the walk `Traversal` defines; `Traversal`'s own contract and
    `TraversalOk` state what that walk satisfies.
   */
  method TraverseForward(bonds: Bonds, atom1: AtomId, atom2: AtomId) returns (reports: seq<Report>)
    requires Closed(bonds) && atom1 in bonds && atom2 in bonds
    ensures reports == Traversal(bonds, atom1, atom2)
  {
    var seen: set<AtomId> := {atom1, atom2};
    var todo := TraverseBonds(bonds[atom2], seen, 1, []);
    reports := [];
    ghost var total := TraversalBound(bonds, atom1, atom2);
    while |todo| > 0
      invariant |reports| <= total
      invariant Progress(seen, todo, reports) == Iterate(bonds, Begin(bonds, atom1, atom2), |reports|)
      decreases total - |reports|
    {
      var tri := todo[|todo| - 1];
      TraversalNext(bonds, atom1, atom2, total, |reports|, seen, todo, reports);
      todo := todo[..|todo| - 1];
      reports := reports + [tri];
      seen := seen + {tri.id};
      todo := TraverseBonds(bonds[tri.id], seen, tri.lev + 1, todo);
    }
    TraversalEnd(bonds, atom1, atom2, |reports|, seen, reports);
  }

  /** The seen set, the stack and the calls made so far by `traverseForward`. */
  datatype Progress = Progress(seen: set<AtomId>, todo: seq<Report>, calls: seq<Report>)

  /** The state before the first iteration. */
  function Begin(bonds: Bonds, atom1: AtomId, atom2: AtomId): Progress
    requires atom2 in bonds
  {
    Progress({atom1, atom2}, Seed(bonds, atom1, atom2), [])
  }

  /**
    One iteration of the loop: the last entry is popped and reported, its
    atom marked seen and its unseen neighbours pushed one level deeper.
   */
  function Pop(bonds: Bonds, s: Progress): (next: Progress)
    requires s.todo != [] && s.todo[|s.todo| - 1].id in bonds
    ensures next.seen == PopSeen(s.seen, s.todo) && next.todo == PopTodo(bonds, s.seen, s.todo)
    ensures next.calls == s.calls + [s.todo[|s.todo| - 1]]
  {
    var tri := s.todo[|s.todo| - 1];
    Progress(s.seen + {tri.id}, s.todo[..|s.todo| - 1] + Unseen(bonds[tri.id], s.seen + {tri.id}, tri.lev + 1), s.calls + [tri])
  }

  /**
    The state after `n` iterations; the loop stops at an empty stack (and
    every entry names an atom of a closed molecule).
   */
  function Iterate(bonds: Bonds, s: Progress, n: nat): Progress
    decreases n
  {
    if n == 0 || s.todo == [] || s.todo[|s.todo| - 1].id !in bonds then s
    else Iterate(bonds, Pop(bonds, s), n - 1)
  }

  /** One more iteration is `Pop` after the first `n`. */
  lemma {:induction false} IterateSnoc(bonds: Bonds, s: Progress, n: nat)
    ensures var t := Iterate(bonds, s, n);
      Iterate(bonds, s, n + 1) == if t.todo == [] || t.todo[|t.todo| - 1].id !in bonds then t else Pop(bonds, t)
    decreases n
  {
    if n > 0 && s.todo != [] && s.todo[|s.todo| - 1].id in bonds {
      IterateSnoc(bonds, Pop(bonds, s), n - 1);
    }
  }

  /** Once the stack is empty, further iterations change nothing. */
  lemma {:induction false} IterateStops(bonds: Bonds, s: Progress, m: nat, n: nat)
    requires m <= n && Iterate(bonds, s, m).todo == []
    ensures Iterate(bonds, s, n) == Iterate(bonds, s, m)
    decreases n - m
  {
    if m < n {
      IterateSnoc(bonds, s, n - 1);
      IterateStops(bonds, s, m, n - 1);
    }
  }

  /** Every entry on the stack names an atom of a closed molecule, after any number of iterations. */
  lemma {:induction false} IterateIds(bonds: Bonds, s: Progress, n: nat)
    requires Closed(bonds) && forall i :: 0 <= i < |s.todo| ==> s.todo[i].id in bonds
    ensures forall i :: 0 <= i < |Iterate(bonds, s, n).todo| ==> Iterate(bonds, s, n).todo[i].id in bonds
    decreases n
  {
    if n > 0 && s.todo != [] && s.todo[|s.todo| - 1].id in bonds {
      var tri := s.todo[|s.todo| - 1];
      var pushed := Unseen(bonds[tri.id], s.seen + {tri.id}, tri.lev + 1);
      forall i | 0 <= i < |pushed| ensures pushed[i].id in bonds {
        var k :| 0 <= k < |bonds[tri.id]| && bonds[tri.id][k] == pushed[i].id;
      }
      var next := Pop(bonds, s);
      assert next.todo == s.todo[..|s.todo| - 1] + pushed;
      assert forall i :: 0 <= i < |next.todo| ==> next.todo[i].id in bonds;
      IterateIds(bonds, next, n - 1);
      assert Iterate(bonds, s, n) == Iterate(bonds, next, n - 1);
    } else {
      assert Iterate(bonds, s, n) == s;
    }
  }

  /** `WalkPre` on a whole walk state. */
  ghost predicate Ready(bonds: Bonds, st: WalkState)
  {
    match st
    case WalkState(seen, todo, labels) => WalkPre(bonds, seen, todo, labels)
  }

  /** The calls the walk makes from a state. */
  ghost function Rest(bonds: Bonds, st: WalkState): seq<Report>
  {
    match st
    case WalkState(seen, todo, labels) => if WalkPre(bonds, seen, todo, labels) then Walk(bonds, seen, todo, labels) else []
  }

  /** The walk state after one iteration. */
  ghost function Next(bonds: Bonds, st: WalkState): WalkState
    requires st.todo != [] && st.todo[|st.todo| - 1].id in bonds && st.labels != []
  {
    WalkState(PopSeen(st.seen, st.todo), PopTodo(bonds, st.seen, st.todo), PopLabels(bonds, st.seen, st.todo, st.labels))
  }

  /** The walk from a state: nothing from an empty stack, otherwise the top entry and then the walk from the next state. */
  lemma RestUnfold(bonds: Bonds, st: WalkState)
    requires Ready(bonds, st)
    ensures st.todo == [] ==> Rest(bonds, st) == []
    ensures st.todo != [] ==>
      && st.todo[|st.todo| - 1].id in bonds && st.labels != [] && Ready(bonds, Next(bonds, st))
      && Rest(bonds, st) == [st.todo[|st.todo| - 1]] + Rest(bonds, Next(bonds, st))
  {
    if st.todo != [] {
      WalkUnfold(bonds, st.seen, st.todo, st.labels);
    }
  }

  /**
    The iterations and the walk agree: `n` iterations make the first `n`
    calls of the walk, and the stack is empty exactly when those are all
    of them.
   */
  lemma {:induction false} WalkIterate(bonds: Bonds, st: WalkState, calls: seq<Report>, n: nat)
    requires n <= |Rest(bonds, st)|
    ensures Ready(bonds, st) ==>
      var rs, t := Rest(bonds, st), Iterate(bonds, Progress(st.seen, st.todo, calls), n);
      t.calls == calls + rs[..n] && (t.todo == [] <==> n == |rs|)
    decreases n
  {
    if Ready(bonds, st) {
      var rs := Rest(bonds, st);
      RestUnfold(bonds, st);
      if n == 0 {
        assert rs[..0] == [];
      } else {
        var tri := st.todo[|st.todo| - 1];
        var next := Next(bonds, st);
        assert Pop(bonds, Progress(st.seen, st.todo, calls)) == Progress(next.seen, next.todo, calls + [tri]);
        WalkIterate(bonds, next, calls + [tri], n - 1);
        TakeCons(calls, tri, Rest(bonds, next), n);
      }
    }
  }

  /** Taking `n` from a sequence with `x` in front. */
  lemma TakeCons<T>(calls: seq<T>, x: T, rest: seq<T>, n: nat)
    requires 0 < n <= |rest| + 1
    ensures calls + ([x] + rest)[..n] == (calls + [x]) + rest[..n - 1]
  {
    assert ([x] + rest)[..n] == [x] + rest[..n - 1];
  }

  /** `traverseForward` ends within the length of the walk. */
  lemma TraversalBound(bonds: Bonds, atom1: AtomId, atom2: AtomId) returns (total: nat)
    requires Closed(bonds) && atom1 in bonds && atom2 in bonds
    ensures Iterate(bonds, Begin(bonds, atom1, atom2), total).todo == []
  {
    var seed := Seed(bonds, atom1, atom2);
    SeedWalkPre(bonds, atom1, atom2);
    var st := WalkState({atom1, atom2}, seed, Copies(|seed|, |bonds.Keys - {atom1, atom2}|));
    total := |Rest(bonds, st)|;
    WalkIterate(bonds, st, [], total);
  }

  /** One iteration of `TraverseForward` is `Pop`, and more iterations remain within the bound. */
  lemma TraversalNext(bonds: Bonds, atom1: AtomId, atom2: AtomId, total: nat, n: nat, seen: set<AtomId>,
                      todo: seq<Report>, calls: seq<Report>)
    requires Closed(bonds) && atom1 in bonds && atom2 in bonds
    requires Iterate(bonds, Begin(bonds, atom1, atom2), total).todo == [] && n <= total
    requires Progress(seen, todo, calls) == Iterate(bonds, Begin(bonds, atom1, atom2), n) && todo != []
    ensures n < total
    ensures var tri := todo[|todo| - 1];
      && tri.id in bonds
      && Iterate(bonds, Begin(bonds, atom1, atom2), n + 1)
         == Progress(seen + {tri.id}, todo[..|todo| - 1] + Unseen(bonds[tri.id], seen + {tri.id}, tri.lev + 1), calls + [tri])
  {
    var seed := Seed(bonds, atom1, atom2);
    SeedWalkPre(bonds, atom1, atom2);
    var st := WalkState({atom1, atom2}, seed, Copies(|seed|, |bonds.Keys - {atom1, atom2}|));
    var w := |Rest(bonds, st)|;
    if w < n {
      WalkIterate(bonds, st, [], w);
      IterateStops(bonds, Begin(bonds, atom1, atom2), w, n);
    } else {
      WalkIterate(bonds, st, [], n);
    }
    IterateIds(bonds, Begin(bonds, atom1, atom2), n);
    IterateSnoc(bonds, Begin(bonds, atom1, atom2), n);
  }

  /** With an empty stack, `TraverseForward` has made every call of the walk, in order. */
  lemma TraversalEnd(bonds: Bonds, atom1: AtomId, atom2: AtomId, n: nat, seen: set<AtomId>, calls: seq<Report>)
    requires Closed(bonds) && atom1 in bonds && atom2 in bonds
    requires Progress(seen, [], calls) == Iterate(bonds, Begin(bonds, atom1, atom2), n)
    ensures calls == Traversal(bonds, atom1, atom2)
  {
    var seed := Seed(bonds, atom1, atom2);
    SeedWalkPre(bonds, atom1, atom2);
    var st := WalkState({atom1, atom2}, seed, Copies(|seed|, |bonds.Keys - {atom1, atom2}|));
    var rs := Rest(bonds, st);
    if |rs| < n {
      WalkIterate(bonds, st, [], |rs|);
      IterateStops(bonds, Begin(bonds, atom1, atom2), |rs|, n);
    } else {
      WalkIterate(bonds, st, [], n);
    }
    assert rs[..|rs|] == rs;
  }

  /** The state of the walk with its termination labels. */
  datatype WalkState = WalkState(seen: set<AtomId>, todo: seq<Report>, labels: seq<nat>)

  lemma AppendAssoc<T>(a: seq<T>, b: seq<T>, c: seq<T>)
    ensures (a + b) + c == a + (b + c)
  {
  }

  /** The walk can start from the seed. */
  lemma SeedWalkPre(bonds: Bonds, atom1: AtomId, atom2: AtomId)
    requires Closed(bonds) && atom1 in bonds && atom2 in bonds
    ensures var seed := Seed(bonds, atom1, atom2);
      WalkPre(bonds, {atom1, atom2}, seed, Copies(|seed|, |bonds.Keys - {atom1, atom2}|))
  {
    var seed := Seed(bonds, atom1, atom2);
    InvSeed(bonds, atom1, atom2, seed);
    InvWalkPre(bonds, atom1, atom2, {atom1, atom2}, seed, Copies(|seed|, |bonds.Keys - {atom1, atom2}|), []);
  }

  /** The loop invariant gives what `Walk` needs. */
  lemma InvWalkPre(bonds: Bonds, atom1: AtomId, atom2: AtomId, seen: set<AtomId>, todo: seq<Report>,
                   labels: seq<nat>, reports: seq<Report>)
    requires Closed(bonds) && atom2 in bonds && Inv(bonds, atom1, atom2, seen, todo, labels, reports)
    ensures WalkPre(bonds, seen, todo, labels)
  {
  }

  /** One iteration keeps the invariant. */
  lemma InvStep(bonds: Bonds, atom1: AtomId, atom2: AtomId, seen: set<AtomId>, todo: seq<Report>,
                labels: seq<nat>, reports: seq<Report>)
    requires Closed(bonds) && atom1 in bonds && atom2 in bonds && todo != []
    requires Inv(bonds, atom1, atom2, seen, todo, labels, reports)
    ensures labels != [] && todo[|todo| - 1].id in bonds
    ensures Inv(bonds, atom1, atom2, PopSeen(seen, todo), PopTodo(bonds, seen, todo), PopLabels(bonds, seen, todo, labels),
                reports + [todo[|todo| - 1]])
  {
    StepPendingOk(bonds, atom1, atom2, seen, todo, reports);
    StepLabelsOk(bonds, seen, todo, labels);
    StepReports(bonds, atom1, atom2, seen, todo, reports);
    StepClosureOk(bonds, atom1, atom2, seen, todo);
  }

  /** One iteration keeps the termination labels in order. */
  lemma StepLabelsOk(bonds: Bonds, seen: set<AtomId>, todo: seq<Report>, labels: seq<nat>)
    requires todo != [] && todo[|todo| - 1].id in bonds && LabelsOk(seen, todo, labels, |bonds.Keys - seen|)
    ensures labels != []
    ensures LabelsOk(PopSeen(seen, todo), PopTodo(bonds, seen, todo), PopLabels(bonds, seen, todo, labels),
                     |bonds.Keys - PopSeen(seen, todo)|)
  {
    var tri := todo[|todo| - 1];
    var seen' := seen + {tri.id};
    var pushed := Unseen(bonds[tri.id], seen', tri.lev + 1);
    var todo' := todo[..|todo| - 1] + pushed;
    var labels' := labels[..|labels| - 1] + Copies(|pushed|, |bonds.Keys - seen'|);
    if tri.id !in seen {
      StepSeen(bonds, seen, tri.id);
    } else {
      assert seen' == seen;
    }
    StepLabels(seen, todo, labels, |bonds.Keys - seen|, seen', pushed, todo', labels', |bonds.Keys - seen'|);
  }

  /** One iteration keeps the pending entries justified. */
  lemma StepPendingOk(bonds: Bonds, atom1: AtomId, atom2: AtomId, seen: set<AtomId>, todo: seq<Report>, reports: seq<Report>)
    requires Closed(bonds) && atom2 in bonds && todo != [] && atom1 in seen && atom2 in seen
    requires PendingOk(bonds, atom1, atom2, todo, reports)
    ensures todo[|todo| - 1].id in bonds
    ensures PendingOk(bonds, atom1, atom2, PopTodo(bonds, seen, todo), reports + [todo[|todo| - 1]])
  {
    var tri := todo[|todo| - 1];
    var pushed := Unseen(bonds[tri.id], seen + {tri.id}, tri.lev + 1);
    StepPending(bonds, atom1, atom2, seen, todo, reports, pushed, todo[..|todo| - 1] + pushed);
  }

  /** One iteration keeps the seen atoms' neighbours seen or pending. */
  lemma StepClosureOk(bonds: Bonds, atom1: AtomId, atom2: AtomId, seen: set<AtomId>, todo: seq<Report>)
    requires todo != [] && todo[|todo| - 1].id in bonds && seen <= bonds.Keys && ClosureOk(bonds, atom1, atom2, seen, todo)
    ensures ClosureOk(bonds, atom1, atom2, PopSeen(seen, todo), PopTodo(bonds, seen, todo))
  {
    var tri := todo[|todo| - 1];
    var pushed := Unseen(bonds[tri.id], seen + {tri.id}, tri.lev + 1);
    UnseenFacts(bonds[tri.id], seen + {tri.id}, tri.lev + 1);
    StepClosure(bonds, atom1, atom2, seen, todo, pushed, todo[..|todo| - 1] + pushed);
  }

  /**
    What a sequence of `fn` calls from atom2 away from atom1 satisfies:
    atoms of the molecule other than atom1 and atom2, each justified by
    the earlier calls, and the reached atoms closed under bonds except
    through atom1.
   */
  predicate WalkOk(bonds: Bonds, atom1: AtomId, atom2: AtomId, rs: seq<Report>)
    requires atom1 in bonds && atom2 in bonds
  {
    && (forall j :: 0 <= j < |rs| ==> rs[j].id in bonds && rs[j].id != atom1 && rs[j].id != atom2)
    && (forall j :: 0 <= j < |rs| ==> JustifiedBy(bonds, atom2, rs[..j], rs[j]))
    && (forall x, k :: x in bonds && Reached(rs, atom1, atom2, x) && (x != atom1 || x == atom2) && 0 <= k < |bonds[x]| ==>
          Reached(rs, atom1, atom2, bonds[x][k]))
  }

  /** The loop invariant `Inv` of a walk state, with what `Walk` needs. */
  ghost predicate InvState(bonds: Bonds, atom1: AtomId, atom2: AtomId, st: WalkState, reports: seq<Report>)
    requires atom2 in bonds
  {
    match st
    case WalkState(seen, todo, labels) =>
      Inv(bonds, atom1, atom2, seen, todo, labels, reports) && WalkPre(bonds, seen, todo, labels)
  }

  /**
    What the reports so far and the rest of the walk add up to: atoms of
    the molecule other than atom1 and atom2, each justified by the earlier
    reports, and reached atoms closed under bonds except through atom1.
   */
  lemma {:induction false} WalkInv(bonds: Bonds, atom1: AtomId, atom2: AtomId, st: WalkState, reports: seq<Report>)
    requires Closed(bonds) && atom1 in bonds && atom2 in bonds
    requires InvState(bonds, atom1, atom2, st, reports)
    ensures WalkPre(bonds, st.seen, st.todo, st.labels)
    ensures WalkOk(bonds, atom1, atom2, reports + Walk(bonds, st.seen, st.todo, st.labels))
    decreases |bonds.Keys - st.seen|, Above(st.labels, |bonds.Keys - st.seen|)
  {
    var WalkState(seen, todo, labels) := st;
    if todo == [] {
      assert labels == [];
      ReachedIsSeen(bonds, atom1, atom2, seen, reports);
      assert reports + Walk(bonds, seen, todo, labels) == reports;
    } else {
      var tri := todo[|todo| - 1];
      InvStep(bonds, atom1, atom2, seen, todo, labels, reports);
      WalkUnfold(bonds, seen, todo, labels);
      WalkStep(bonds, seen, todo, labels);
      var next := WalkState(PopSeen(seen, todo), PopTodo(bonds, seen, todo), PopLabels(bonds, seen, todo, labels));
      WalkInv(bonds, atom1, atom2, next, reports + [tri]);
      AppendAssoc(reports, [tri], Walk(bonds, next.seen, next.todo, next.labels));
    }
  }

  /** The walk from the seed has the properties `WalkOk` lists. */
  lemma TraversalOk(bonds: Bonds, atom1: AtomId, atom2: AtomId)
    requires Closed(bonds) && atom1 in bonds && atom2 in bonds
    ensures WalkOk(bonds, atom1, atom2, Traversal(bonds, atom1, atom2))
  {
    var seed := Seed(bonds, atom1, atom2);
    var labels := Copies(|seed|, |bonds.Keys - {atom1, atom2}|);
    InvSeed(bonds, atom1, atom2, seed);
    InvWalkPre(bonds, atom1, atom2, {atom1, atom2}, seed, labels, []);
    WalkInv(bonds, atom1, atom2, WalkState({atom1, atom2}, seed, labels), []);
    assert [] + Walk(bonds, {atom1, atom2}, seed, labels) == Traversal(bonds, atom1, atom2);
  }

  lemma ReachedIsSeen(bonds: Bonds, atom1: AtomId, atom2: AtomId, seen: set<AtomId>, reports: seq<Report>)
    requires atom2 in bonds && Inv(bonds, atom1, atom2, seen, [], [], reports)
    ensures forall x :: Reached(reports, atom1, atom2, x) <==> x in seen
    ensures forall x, k :: Reached(reports, atom1, atom2, x) && (x != atom1 || x == atom2) && 0 <= k < |bonds[x]| ==>
              Reached(reports, atom1, atom2, bonds[x][k])
  {
    forall x | Reached(reports, atom1, atom2, x)
      ensures x in seen
    {
      if x != atom1 && x != atom2 {
        var j :| 0 <= j < |reports| && reports[j].id == x;
      }
    }
  }

  /** A path of bonds from atom2 that does not pass through atom1. */
  predicate PathFrom(bonds: Bonds, atom1: AtomId, atom2: AtomId, path: seq<AtomId>)
  {
    && |path| > 0 && path[0] == atom2
    && (forall i :: 0 <= i < |path| - 1 ==> (i == 0 || path[i] != atom1) && path[i] in bonds && path[i + 1] in bonds[path[i]])
  }

  /** Completeness: every atom on such a path is reached, so every atom connected to atom2 away from atom1. */
  lemma {:induction false} PathReached(bonds: Bonds, atom1: AtomId, atom2: AtomId, reports: seq<Report>, path: seq<AtomId>)
    requires forall x, k :: Reached(reports, atom1, atom2, x) && (x != atom1 || x == atom2) && x in bonds && 0 <= k < |bonds[x]| ==>
               Reached(reports, atom1, atom2, bonds[x][k])
    requires PathFrom(bonds, atom1, atom2, path)
    ensures Reached(reports, atom1, atom2, path[|path| - 1])
    decreases |path|
  {
    if |path| > 1 {
      var init := path[..|path| - 1];
      assert PathFrom(bonds, atom1, atom2, init) by {
        forall i | 0 <= i < |init| - 1
          ensures (i == 0 || init[i] != atom1) && init[i] in bonds && init[i + 1] in bonds[init[i]]
        {
          assert init[i] == path[i] && init[i + 1] == path[i + 1];
        }
      }
      PathReached(bonds, atom1, atom2, reports, init);
      var x := path[|path| - 2];
      var k :| 0 <= k < |bonds[x]| && bonds[x][k] == path[|path| - 1];
    }
  }

  // ---------------------------------------------------------------------------
  // findLevelsFrom
  // ---------------------------------------------------------------------------

  /** One more than the deepest level reported, or 0 with no report: the length `res` grows to. */
  function Width(reports: seq<Report>): (w: nat)
    ensures forall j :: 0 <= j < |reports| ==> reports[j].lev < w
    ensures reports != [] ==> exists j :: 0 <= j < |reports| && reports[j].lev == w - 1
  {
    if reports == [] then 0
    else
      var init := reports[..|reports| - 1];
      var w0 := Width(init);
      assert forall j :: 0 <= j < |init| ==> init[j] == reports[j];
      if reports[|reports| - 1].lev + 1 > w0 then reports[|reports| - 1].lev + 1 else w0
  }

  /** The atoms reported at level `l`, in report order. */
  function AtLevel(reports: seq<Report>, l: nat): (ids: seq<AtomId>)
    ensures forall x :: x in ids <==> exists j :: 0 <= j < |reports| && reports[j] == Report(x, l)
  {
    if reports == [] then []
    else
      var init := reports[..|reports| - 1];
      assert forall j :: 0 <= j < |init| ==> init[j] == reports[j];
      AtLevel(init, l) + (if reports[|reports| - 1].lev == l then [reports[|reports| - 1].id] else [])
  }

  lemma AtLevelSnoc(rs: seq<Report>, r: Report, l: nat)
    ensures AtLevel(rs + [r], l) == AtLevel(rs, l) + (if r.lev == l then [r.id] else [])
  {
    assert (rs + [r])[..|rs|] == rs;
  }

  lemma WidthSnoc(rs: seq<Report>, r: Report)
    ensures Width(rs + [r]) == if r.lev + 1 > Width(rs) then r.lev + 1 else Width(rs)
  {
    assert (rs + [r])[..|rs|] == rs;
  }

  /** No atom is listed at a level no report has. */
  lemma {:induction false} AtLevelEmpty(rs: seq<Report>, l: nat)
    requires forall j :: 0 <= j < |rs| ==> rs[j].lev != l
    ensures AtLevel(rs, l) == []
  {
    if rs != [] {
      var init := rs[..|rs| - 1];
      assert forall j :: 0 <= j < |init| ==> init[j] == rs[j];
      AtLevelEmpty(init, l);
    }
  }

  /** No atom is reported at or past the width. */
  lemma AtLevelBeyond(rs: seq<Report>, l: nat)
    requires l >= Width(rs)
    ensures AtLevel(rs, l) == []
  {
    AtLevelEmpty(rs, l);
  }

  /** `while (lev >= res.length) res.push([])`. */
  method Pad(res: seq<seq<AtomId>>, lev: nat) returns (padded: seq<seq<AtomId>>)
    ensures |padded| == if lev + 1 > |res| then lev + 1 else |res|
    ensures forall l :: 0 <= l < |padded| ==> padded[l] == if l < |res| then res[l] else []
  {
    padded := res;
    while lev >= |padded|
      invariant |res| <= |padded| <= (if lev + 1 > |res| then lev + 1 else |res|)
      invariant forall l :: 0 <= l < |padded| ==> padded[l] == if l < |res| then res[l] else []
      decreases lev + 1 - |padded|
    {
      padded := padded + [[]];
    }
  }

  lemma BucketStep(rs: seq<Report>, r: Report, res: seq<seq<AtomId>>, padded: seq<seq<AtomId>>, res': seq<seq<AtomId>>)
    requires |res| == Width(rs) && forall l :: 0 <= l < |res| ==> res[l] == AtLevel(rs, l)
    requires |padded| == (if r.lev + 1 > |res| then r.lev + 1 else |res|)
    requires forall l :: 0 <= l < |padded| ==> padded[l] == if l < |res| then res[l] else []
    requires res' == padded[r.lev := padded[r.lev] + [r.id]]
    ensures |res'| == Width(rs + [r]) && forall l :: 0 <= l < |res'| ==> res'[l] == AtLevel(rs + [r], l)
  {
    WidthSnoc(rs, r);
    forall l | 0 <= l < |res'|
      ensures res'[l] == AtLevel(rs + [r], l)
    {
      AtLevelSnoc(rs, r, l);
      if l >= |res| {
        AtLevelBeyond(rs, l);
      }
    }
  }

  /** The bucketing loop: `res[l]` lists the atoms reported at level `l`, in order. */
  method Bucket(reports: seq<Report>) returns (res: seq<seq<AtomId>>)
    ensures |res| == Width(reports)
    ensures forall l :: 0 <= l < |res| ==> res[l] == AtLevel(reports, l)
  {
    res := [];
    for i := 0 to |reports|
      invariant |res| == Width(reports[..i])
      invariant forall l :: 0 <= l < |res| ==> res[l] == AtLevel(reports[..i], l)
    {
      var id, lev := reports[i].id, reports[i].lev;
      var padded := Pad(res, lev);
      ghost var res0 := res;
      res := padded[lev := padded[lev] + [id]];
      BucketStep(reports[..i], reports[i], res0, padded, res);
      assert reports[..i] + [reports[i]] == reports[..i + 1];
    }
    assert reports[..|reports|] == reports;
  }

  /**
    `findLevelsFrom(atom1, atom2)`: the walk's atoms by level. Level 0 is
    empty, the last level is not, level-1 atoms neighbour atom2, each
    deeper atom neighbours one a level up, and the listed atoms with atom1
    and atom2 are closed under bonds from all of them but atom1.
   */
  method FindLevelsFrom(bonds: Bonds, atom1: AtomId, atom2: AtomId) returns (res: seq<seq<AtomId>>)
    requires Closed(bonds) && atom1 in bonds && atom2 in bonds
    ensures var rs := Traversal(bonds, atom1, atom2); |res| == Width(rs) && forall l :: 0 <= l < |res| ==> res[l] == AtLevel(rs, l)
    ensures |res| != 1 && (res != [] ==> res[0] == [] && res[|res| - 1] != [])
    ensures forall l, i :: 0 <= l < |res| && 0 <= i < |res[l]| ==> LevelOk(bonds, atom1, atom2, res, l, res[l][i])
    ensures forall x, k :: (x == atom2 || Listed(res, x)) && x in bonds && 0 <= k < |bonds[x]| ==>
              var y := bonds[x][k]; y == atom1 || y == atom2 || Listed(res, y)
  {
    var reports := TraverseForward(bonds, atom1, atom2);
    res := Bucket(reports);
    TraversalOk(bonds, atom1, atom2);
    forall j | 0 <= j < |reports| ensures reports[j].lev >= 1 {
      assert JustifiedBy(bonds, atom2, reports[..j], reports[j]);
    }
    LevelsEnds(reports, res);
    LevelsJustified(bonds, atom1, atom2, reports, res);
    LevelsClosed(bonds, atom1, atom2, reports, res);
  }

  /** Whether atom `x` is in some level. */
  predicate Listed(res: seq<seq<AtomId>>, x: AtomId)
  {
    exists l :: 0 <= l < |res| && x in res[l]
  }

  /** The level lists for reports of level at least 1: level 0 is empty and the last level is not. */
  lemma {:induction false} LevelsEnds(reports: seq<Report>, res: seq<seq<AtomId>>)
    requires forall j :: 0 <= j < |reports| ==> reports[j].lev >= 1
    requires |res| == Width(reports) && forall l :: 0 <= l < |res| ==> res[l] == AtLevel(reports, l)
    ensures |res| != 1 && (res != [] ==> res[0] == [] && res[|res| - 1] != [])
  {
    if res != [] {
      var top := |res| - 1;
      var j :| 0 <= j < |reports| && reports[j].lev == top;
      assert top >= 1;
      assert reports[j] == Report(reports[j].id, top);
      assert reports[j].id in AtLevel(reports, top);
      assert res[top] == AtLevel(reports, top);
      AtLevelEmpty(reports, 0);
      assert res[0] == AtLevel(reports, 0);
    }
  }

  /** Each listed atom has a neighbour one level up, or atom2 at level 1. */
  predicate LevelOk(bonds: Bonds, atom1: AtomId, atom2: AtomId, res: seq<seq<AtomId>>, l: nat, x: AtomId)
    requires atom2 in bonds && l < |res|
  {
    x in bonds && x != atom1 && x != atom2 &&
    ((l == 1 && x in bonds[atom2]) || (l >= 2 && exists y :: y in res[l - 1] && y in bonds && x in bonds[y]))
  }

  lemma LevelJustified(bonds: Bonds, atom1: AtomId, atom2: AtomId, reports: seq<Report>, res: seq<seq<AtomId>>, l: nat, x: AtomId)
    requires atom2 in bonds && l < |res|
    requires forall j :: 0 <= j < |reports| ==> reports[j].id in bonds && reports[j].id != atom1 && reports[j].id != atom2
    requires forall j :: 0 <= j < |reports| ==> JustifiedBy(bonds, atom2, reports[..j], reports[j])
    requires res[l] == AtLevel(reports, l) && (l >= 1 ==> res[l - 1] == AtLevel(reports, l - 1))
    requires x in res[l]
    ensures LevelOk(bonds, atom1, atom2, res, l, x)
  {
    var j :| 0 <= j < |reports| && reports[j] == Report(x, l);
    var r := reports[j];
    assert JustifiedBy(bonds, atom2, reports[..j], r);
    if !(l == 1 && x in bonds[atom2]) {
      var m :| 0 <= m < j && reports[..j][m].lev == l - 1 && reports[..j][m].id in bonds && x in bonds[reports[..j][m].id];
      var p := reports[m];
      assert p == reports[..j][m] && p == Report(p.id, l - 1);
      assert p.id in AtLevel(reports, l - 1);
    }
  }

  lemma LevelsJustified(bonds: Bonds, atom1: AtomId, atom2: AtomId, reports: seq<Report>, res: seq<seq<AtomId>>)
    requires atom2 in bonds
    requires forall j :: 0 <= j < |reports| ==> reports[j].id in bonds && reports[j].id != atom1 && reports[j].id != atom2
    requires forall j :: 0 <= j < |reports| ==> JustifiedBy(bonds, atom2, reports[..j], reports[j])
    requires |res| == Width(reports) && forall l :: 0 <= l < |res| ==> res[l] == AtLevel(reports, l)
    ensures forall l, i :: 0 <= l < |res| && 0 <= i < |res[l]| ==> LevelOk(bonds, atom1, atom2, res, l, res[l][i])
  {
    forall l, i | 0 <= l < |res| && 0 <= i < |res[l]|
      ensures LevelOk(bonds, atom1, atom2, res, l, res[l][i])
    {
      LevelJustified(bonds, atom1, atom2, reports, res, l, res[l][i]);
    }
  }

  /** A listed atom is reported. */
  lemma ListedReached(atom1: AtomId, atom2: AtomId, reports: seq<Report>, res: seq<seq<AtomId>>, x: AtomId)
    requires forall l :: 0 <= l < |res| ==> res[l] == AtLevel(reports, l)
    requires Listed(res, x)
    ensures Reached(reports, atom1, atom2, x)
  {
    var l :| 0 <= l < |res| && x in res[l];
    assert x in AtLevel(reports, l);
    var j :| 0 <= j < |reports| && reports[j] == Report(x, l);
    assert reports[j].id == x;
  }

  /** A reported atom is listed. */
  lemma ReachedListed(atom1: AtomId, atom2: AtomId, reports: seq<Report>, res: seq<seq<AtomId>>, y: AtomId)
    requires |res| == Width(reports) && forall l :: 0 <= l < |res| ==> res[l] == AtLevel(reports, l)
    requires Reached(reports, atom1, atom2, y) && y != atom1 && y != atom2
    ensures Listed(res, y)
  {
    var j :| 0 <= j < |reports| && reports[j].id == y;
    var l := reports[j].lev;
    assert reports[j] == Report(y, l);
    assert y in AtLevel(reports, l);
    assert y in res[l];
  }

  /** The listed atoms with atom1 and atom2 are closed under bonds from all of them but atom1. */
  lemma LevelsClosed(bonds: Bonds, atom1: AtomId, atom2: AtomId, reports: seq<Report>, res: seq<seq<AtomId>>)
    requires atom1 in bonds && atom2 in bonds
    requires forall j :: 0 <= j < |reports| ==> reports[j].id in bonds && reports[j].id != atom1
    requires forall x, k :: x in bonds && Reached(reports, atom1, atom2, x) && (x != atom1 || x == atom2) && 0 <= k < |bonds[x]| ==>
               Reached(reports, atom1, atom2, bonds[x][k])
    requires |res| == Width(reports) && forall l :: 0 <= l < |res| ==> res[l] == AtLevel(reports, l)
    ensures forall x, k :: (x == atom2 || Listed(res, x)) && x in bonds && 0 <= k < |bonds[x]| ==>
              var y := bonds[x][k]; y == atom1 || y == atom2 || Listed(res, y)
  {
    forall x, k | (x == atom2 || Listed(res, x)) && x in bonds && 0 <= k < |bonds[x]|
      ensures var y := bonds[x][k]; y == atom1 || y == atom2 || Listed(res, y)
    {
      if x != atom2 {
        ListedReached(atom1, atom2, reports, res, x);
        var j :| 0 <= j < |reports| && reports[j].id == x;
      }
      var y := bonds[x][k];
      if y != atom1 && y != atom2 {
        ReachedListed(atom1, atom2, reports, res, y);
      }
    }
  }
}
