/**
 * The solver: solving methods chained by `advance` (taken after a method
 * removed candidates) and `fall_back` (taken after it removed none) links, as
 * `generate_solver` wires them, and the `launch` cascade that runs them.
 *
 * The linked method objects are kept in an arena: a sequence of nodes, each
 * naming its method and the indices of its two successors. The index one past
 * the last node stands for `_SolvingFail`, whose launch raises `SolverError`.
 */
module Solver {
  import opened Wrappers
  import opened Positions
  import opened GridState
  import opened Structure
  import opened Propagation
  import opened NTiles
  import opened Fish
  import opened Wings

  /** The four solving methods, with the parameter of the parametrised ones. */
  datatype SolvingMethod = NTilesNOptions(n: nat) | ScaledXWing(n: nat) | YWing | Bifurcation

  /** `_N_MIN` of each parametrised method. */
  const NTilesMin := 1
  const XWingMin := 2

  /** What a parametrised method object can hold: its parameter is at least `_N_MIN`. */
  predicate ValidMethod(m: SolvingMethod)
  {
    match m
    case NTilesNOptions(n) => n >= NTilesMin
    case ScaledXWing(n) => n >= XWingMin
    case _ => true
  }

  /** `NTilesNOptions(param)`: rejects a parameter below `_N_MIN` with `ValueError`. */
  function NewNTiles(param: int): (r: Result<SolvingMethod, Exception>)
    ensures r.Ok? <==> param >= NTilesMin
    ensures r.Ok? ==> r.value.NTilesNOptions? && r.value.n == param && ValidMethod(r.value)
    ensures r.Err? ==> r.error == ValueError
  {
    if param >= NTilesMin then Ok(NTilesNOptions(param)) else Err(ValueError)
  }

  /** `ScaledXWing(param)`: rejects a parameter below `_N_MIN` with `ValueError`. */
  function NewScaledXWing(param: int): (r: Result<SolvingMethod, Exception>)
    ensures r.Ok? <==> param >= XWingMin
    ensures r.Ok? ==> r.value.ScaledXWing? && r.value.n == param && ValidMethod(r.value)
    ensures r.Err? ==> r.error == ValueError
  {
    if param >= XWingMin then Ok(ScaledXWing(param)) else Err(ValueError)
  }

  /** A method object with its `_advance` and `_fall_back` links. */
  datatype Node = Node(rule: SolvingMethod, advance: nat, fallback: nat)

  /**
   * Every link stays inside the arena or names `_SolvingFail`, and a fall-back
   * always points further down the arena, so a run of failures ends.
   */
  predicate WellFormed(nodes: seq<Node>)
  {
    forall k :: 0 <= k < |nodes| ==>
      && ValidMethod(nodes[k].rule)
      && nodes[k].advance < |nodes|
      && k < nodes[k].fallback <= |nodes|
  }

  /**
   * The wiring `generate_solver` promises: node 0 is the initial
   * `NTilesNOptions(1)` run, advancing to itself and falling back to the
   * first method; the i-th method sits at node i + 1, advances to the first
   * method and falls back to the next one, the last one to `_SolvingFail`.
   */
  ghost predicate Wired(order: seq<SolvingMethod>, nodes: seq<Node>)
  {
    && |nodes| == |order| + 1
    && nodes[0] == Node(NTilesNOptions(1), 0, 1)
    && forall i :: 0 <= i < |order| ==> nodes[i + 1] == Node(order[i], 1, i + 2)
  }

  /**
   * `generate_solver`: append the methods behind the initial run, then link
   * them. An empty order fails on `init_methods[0]` with `IndexError`.
   */
  method GenerateSolver(order: seq<SolvingMethod>) returns (r: Result<seq<Node>, Exception>)
    ensures r.Err? <==> order == []
    ensures r.Err? ==> r.error == IndexError
    ensures r.Ok? ==> Wired(order, r.value)
  {
    // A fresh method advances to itself and falls back to `_SolvingFail`.
    var nodes := [Node(NTilesNOptions(1), 0, 0)];
    var i := 0;
    while i < |order|
      invariant 0 <= i <= |order|
      invariant |nodes| == i + 1 && nodes[0] == Node(NTilesNOptions(1), 0, 0)
      invariant forall j :: 0 <= j < i ==> nodes[j + 1] == Node(order[j], j + 1, |order| + 1)
    {
      nodes := nodes + [Node(order[i], i + 1, |order| + 1)];
      i := i + 1;
    }
    if |order| == 0 {
      return Err(IndexError);
    }
    nodes := nodes[0 := nodes[0].(fallback := 1)];
    var last := |order|;
    nodes := nodes[last := nodes[last].(advance := 1)];
    i := 0;
    while i < |order| - 1
      invariant 0 <= i <= |order| - 1
      invariant |nodes| == |order| + 1 && nodes[0] == Node(NTilesNOptions(1), 0, 1)
      invariant forall j :: 0 <= j < i ==> nodes[j + 1] == Node(order[j], 1, j + 2)
      invariant forall j :: i <= j < |order| - 1 ==> nodes[j + 1] == Node(order[j], j + 1, |order| + 1)
      invariant nodes[last] == Node(order[last - 1], 1, |order| + 1)
    {
      nodes := nodes[i + 1 := nodes[i + 1].(advance := 1, fallback := i + 2)];
      i := i + 1;
    }
    return Ok(nodes);
  }

  /** A solver built from valid methods has only valid links. */
  lemma WiredWellFormed(order: seq<SolvingMethod>, nodes: seq<Node>)
    requires Wired(order, nodes)
    requires forall i :: 0 <= i < |order| ==> ValidMethod(order[i])
    ensures WellFormed(nodes)
  {
    forall k | 0 <= k < |nodes|
      ensures ValidMethod(nodes[k].rule) && nodes[k].advance < |nodes| && k < nodes[k].fallback <= |nodes|
    {
      if k > 0 {
        assert nodes[(k - 1) + 1] == Node(order[k - 1], 1, k + 1);
      }
    }
  }

  /** The node reached from node k after `steps` failures in a row. */
  function FallbackAfter(nodes: seq<Node>, k: nat, steps: nat): (j: nat)
    requires WellFormed(nodes) && k <= |nodes|
    ensures j <= |nodes|
    decreases steps
  {
    if steps == 0 || k == |nodes| then k else FallbackAfter(nodes, nodes[k].fallback, steps - 1)
  }

  /**
   * The order of `method_order` is the order of fall-backs: after the
   * initial run and i failures, the i-th method (from 0) is launched, and
   * after every method failed the solver reaches `_SolvingFail`.
   */
  lemma {:induction false} FallbackOrder(order: seq<SolvingMethod>, nodes: seq<Node>, i: nat)
    requires Wired(order, nodes) && forall j :: 0 <= j < |order| ==> ValidMethod(order[j])
    requires i <= |order|
    ensures WellFormed(nodes)
    ensures FallbackAfter(nodes, 0, i + 1) == i + 1
    ensures i < |order| ==> nodes[FallbackAfter(nodes, 0, i + 1)].rule == order[i]
  {
    WiredWellFormed(order, nodes);
    if i > 0 {
      FallbackOrder(order, nodes, i - 1);
      FallbackStep(nodes, 0, i);
      assert nodes[(i - 1) + 1] == Node(order[i - 1], 1, i + 1);
    } else if |order| > 0 {
      assert nodes[0 + 1] == Node(order[0], 1, 2);
    }
  }

  /** One more failure: the fall-back of the node reached so far. */
  lemma {:induction false} FallbackStep(nodes: seq<Node>, k: nat, steps: nat)
    requires WellFormed(nodes) && k <= |nodes|
    ensures FallbackAfter(nodes, k, steps + 1) ==
            (var j := FallbackAfter(nodes, k, steps); if j == |nodes| then j else nodes[j].fallback)
    decreases steps
  {
    if steps > 0 && k < |nodes| {
      FallbackStep(nodes, nodes[k].fallback, steps - 1);
    }
  }

  /** What a `launch` ends in: a solved grid, `False` (a contradiction), or the raised `SolverError`. */
  datatype Outcome = Solved(grid: Grid) | Contradiction | SolverError

  /** Where the `launch` of an eliminating method goes: it ends there, or it hands the grid on. */
  datatype Step = Finished(out: Outcome) | Advance | FallBack

  /** The method's scan has found nothing to remove in this state (for some choice of Y-Wing pairs). */
  ghost predicate Exhausted(rule: SolvingMethod, a: State)
    requires Shape(a)
  {
    match rule
    case NTilesNOptions(n) => NTilesStable(a.cand, n)
    case ScaledXWing(n) => SlotsIn(a.occ) && FishStable(a.occ, n)
    case YWing => WingsSettledBelow(a.cand, 81)
    case Bifurcation => true
  }

  /** The method's scan can find nothing to remove in this state, whatever it chooses. */
  ghost predicate Blocked(rule: SolvingMethod, a: State)
    requires Shape(a)
  {
    match rule
    case NTilesNOptions(n) => NTilesStable(a.cand, n)
    case ScaledXWing(n) => SlotsIn(a.occ) && FishStable(a.occ, n)
    case YWing => WingsBlockedBelow(a.cand, 81)
    case Bifurcation => false
  }

  /**
   * The `launch` of an eliminating method up to its hand-over: a finished
   * grid is returned as it is; otherwise the method's scan runs and a
   * violation it sees answers `False`. Progress goes to `_advance`; a scan
   * that found nothing goes to `_fall_back` with the grid untouched and
   * exhausted under the method, and a grid on which the method is blocked
   * always goes there. (Y-Wing checks `violated` only at two-candidate
   * anchors, so a violated grid can reach its hand-over.)
   */
  method LaunchRule(nodes: seq<Node>, k: nat, g: Grid, st: Stepper) returns (s: Step)
    requires WellFormed(nodes) && k < |nodes| && !nodes[k].rule.Bifurcation? && g.Valid()
    modifies g, st
    ensures g.Valid()
    ensures Evolves(old(g.Snap()), g.Snap(), old(st.counter), st.counter)
    ensures old(g.Done()) ==> s == Finished(Solved(g)) && g.Snap() == old(g.Snap())
    ensures !old(g.Done()) && s.Finished? ==> s.out == Contradiction && g.violated
    ensures !nodes[k].rule.YWing? && old(g.violated) ==> s == Finished(Contradiction)
    ensures s == Advance ==> Total(g.cand) < old(Total(g.cand))
    ensures s == FallBack && !g.violated ==>
              g.Snap() == old(g.Snap()) && st.counter == old(st.counter) && Exhausted(nodes[k].rule, g.Snap())
    ensures !old(g.Done()) && !g.violated && Total(g.cand) < old(Total(g.cand)) ==> s == Advance
    ensures !old(g.violated) && !old(g.Done()) && Blocked(nodes[k].rule, old(g.Snap())) ==>
              s == FallBack && g.Snap() == old(g.Snap()) && st.counter == old(st.counter)
  {
    ghost var a, c0 := g.Snap(), st.counter;
    EvolvesRefl(a, c0);
    if g.Done() {
      return Finished(Solved(g));
    }
    var rule := nodes[k].rule;
    var res: Scan;
    ghost var trace: seq<State>, cols: seq<State>;
    if rule.NTilesNOptions? {
      res, trace := NTilesScan(g, st, rule.n);
    } else if rule.ScaledXWing? {
      res, trace, cols := XWingScan(g, st, rule.n);
    } else {
      res, trace := YWingScan(g, st);
    }
    EvolvesTotal(a, g.Snap(), c0, st.counter);
    if res == Violated {
      return Finished(Contradiction);
    }
    if res.progress {
      return Advance;
    }
    return FallBack;
  }

  /** Every cell of the state is down to one candidate and no violation was seen: the state of a done grid. */
  ghost predicate AllFixed(a: State)
    requires Shape(a)
  {
    !a.violated && forall t :: 0 <= t < 81 ==> |a.cand[t]| == 1
  }

  /** The method at node j, when there is one, checks `violated` before its first search. */
  predicate ChecksFirst(nodes: seq<Node>, j: nat)
  {
    j < |nodes| && (nodes[j].rule.NTilesNOptions? || nodes[j].rule.ScaledXWing?)
  }

  /**
   * `launch` of the method at node k (k = |nodes| is `_SolvingFail`), as
   * `FmtSolvingMethod` describes it: the method's hand-over decides whether
   * the `_advance` or the `_fall_back` method is launched next. A solved
   * outcome is a consistent grid with one candidate per cell, each within
   * the candidates the cell had when the run started.
   *
   * For an eliminating method the ghost results name its hand-over and the
   * grid's state at that moment: progress (a smaller candidate total) goes
   * to `_advance`, no progress to `_fall_back` with the grid untouched and
   * exhausted under the method; what the next method then does with it shows
   * in the outcome.
   */
  method Run(nodes: seq<Node>, k: nat, g: Grid, st: Stepper) returns (out: Outcome, ghost handed: Step, ghost mid: State)
    requires WellFormed(nodes) && k <= |nodes| && g.Valid()
    modifies g, st
    decreases Total(g.cand), |nodes| - k, 3
    ensures g.Valid() && Shape(mid)
    ensures Evolves(old(g.Snap()), g.Snap(), old(st.counter), st.counter)
    ensures out.Solved? ==> out.grid.Valid() && out.grid.Done()
    ensures out.Solved? ==> forall t :: 0 <= t < 81 ==> out.grid.cand[t] <= old(g.cand[t])
    ensures k == |nodes| ==> out == SolverError
    ensures k < |nodes| && !nodes[k].rule.Bifurcation? && old(g.Done()) ==>
              out == Solved(g) && g.Snap() == old(g.Snap())
    ensures ChecksFirst(nodes, k) && old(g.violated) ==> out == Contradiction
    ensures handed.Finished? ==> out == handed.out
    ensures k < |nodes| && !nodes[k].rule.Bifurcation? ==> HandOver(nodes, k, old(g.Snap()), handed, mid, out, g)
  {
    if k == |nodes| {
      return SolverError, Finished(SolverError), g.Snap();
    }
    if nodes[k].rule.Bifurcation? {
      ghost var cell, tried, first, retried, mark, copy1, copy2;
      out, cell, tried, first, retried, mark, copy1, copy2 := Bifurcate(nodes, k, g, st);
      return out, Finished(out), g.Snap();
    }
    out, handed, mid := RunRule(nodes, k, g, st);
  }

  /**
   * What the hand-over of the eliminating method at node k does, from state
   * `a` to the state `mid` it hands on: progress goes to `_advance`, no
   * progress to `_fall_back` with the grid untouched and exhausted under the
   * method; the outcome shows which method was launched next.
   */
  ghost predicate HandOver(nodes: seq<Node>, k: nat, a: State, handed: Step, mid: State, out: Outcome, g: Grid)
    requires WellFormed(nodes) && k < |nodes| && Shape(a) && Shape(mid)
    reads g
  {
    && (handed == Advance ==> Total(mid.cand) < Total(a.cand))
    && (handed == FallBack && !mid.violated ==> mid == a && Exhausted(nodes[k].rule, mid))
    && (!handed.Finished? && !mid.violated && Total(mid.cand) < Total(a.cand) ==> handed == Advance)
    && (!a.violated && !AllFixed(a) && Blocked(nodes[k].rule, a) ==> handed == FallBack && mid == a)
    && (handed == Advance && AllFixed(mid) ==>
          nodes[k].advance < |nodes| && !nodes[nodes[k].advance].rule.Bifurcation? ==> out == Solved(g) && g.Snap() == mid)
    && (handed == FallBack && nodes[k].fallback == |nodes| ==> out == SolverError)
    && (handed == FallBack && mid.violated && ChecksFirst(nodes, nodes[k].fallback) ==> out == Contradiction)
    && (handed == Advance && mid.violated && ChecksFirst(nodes, nodes[k].advance) ==> out == Contradiction)
  }

  /** `launch` of the eliminating method at node k: its scan, then the hand-over. */
  method RunRule(nodes: seq<Node>, k: nat, g: Grid, st: Stepper) returns (out: Outcome, ghost handed: Step, ghost mid: State)
    requires WellFormed(nodes) && k < |nodes| && !nodes[k].rule.Bifurcation? && g.Valid()
    modifies g, st
    decreases Total(g.cand), |nodes| - k, 2
    ensures g.Valid() && Shape(mid)
    ensures Evolves(old(g.Snap()), g.Snap(), old(st.counter), st.counter)
    ensures out.Solved? ==> out.grid.Valid() && out.grid.Done()
    ensures out.Solved? ==> forall t :: 0 <= t < 81 ==> out.grid.cand[t] <= old(g.cand[t])
    ensures old(g.Done()) ==> out == Solved(g) && g.Snap() == old(g.Snap())
    ensures ChecksFirst(nodes, k) && old(g.violated) ==> out == Contradiction
    ensures handed.Finished? ==> out == handed.out
    ensures HandOver(nodes, k, old(g.Snap()), handed, mid, out, g)
  {
    ghost var a, c0 := g.Snap(), st.counter;
    var step := LaunchRule(nodes, k, g, st);
    handed := step;
    ghost var b, c1 := g.Snap(), st.counter;
    mid := b;
    EvolvesTotal(a, b, c0, c1);
    ghost var h2, m2;
    match step {
      case Finished(o) =>
        out := o;
      case Advance =>
        out, h2, m2 := Run(nodes, nodes[k].advance, g, st);
        EvolvesTrans(a, b, g.Snap(), c0, c1, st.counter);
      case FallBack =>
        out, h2, m2 := Run(nodes, nodes[k].fallback, g, st);
        EvolvesTrans(a, b, g.Snap(), c0, c1, st.counter);
    }
  }

  /**
   * `Bifurcation.launch`: at the first cell with two candidates, remove one
   * of them on a copy of the grid and go on with the advance method; when
   * that ends in a contradiction (`False`), remove the other one on a fresh
   * copy instead. The grid itself is left alone; a grid without
   * two-candidate cells goes to the fall-back method.
   *
   * The ghost results name the cell chosen (81 when there is none), the
   * option removed first, the outcome of that first branch, and whether the
   * second branch was taken.
   */
  method Bifurcate(nodes: seq<Node>, k: nat, g: Grid, st: Stepper)
    returns (out: Outcome, ghost cell: int, ghost tried: int, ghost first: Outcome, ghost retried: bool, ghost mark: nat,
             ghost copy1: State, ghost copy2: State)
    requires WellFormed(nodes) && k < |nodes| && nodes[k].rule.Bifurcation? && g.Valid()
    modifies g, st
    decreases Total(g.cand), |nodes| - k, 1
    ensures g.Valid()
    ensures Evolves(old(g.Snap()), g.Snap(), old(st.counter), st.counter)
    ensures out.Solved? ==> out.grid.Valid() && out.grid.Done()
    ensures out.Solved? ==> forall t :: 0 <= t < 81 ==> out.grid.cand[t] <= old(g.cand[t])
    ensures 0 <= cell <= 81
    ensures forall j :: 0 <= j < cell ==> |old(g.cand[j])| != 2
    ensures cell < 81 ==> |old(g.cand[cell])| == 2 && tried in old(g.cand[cell]) && g.Snap() == old(g.Snap())
    ensures retried <==> cell < 81 && first.Contradiction?
    ensures cell < 81 && !retried ==> out == first
    ensures cell < 81 && first.Solved? ==> tried !in first.grid.cand[cell]
    ensures retried && out.Solved? ==> out.grid.cand[cell] == {tried}
    ensures cell < 81 ==> old(st.counter) < mark <= st.counter && (retried <==> mark < st.counter)
    ensures cell < 81 && nodes[k].advance == |nodes| ==> out == SolverError
    ensures cell < 81 ==>
              Shape(copy1) && tried !in copy1.cand[cell] && forall j :: 0 <= j < 81 ==> copy1.cand[j] <= old(g.cand[j])
    ensures retried ==>
              Shape(copy2) && forall j :: 0 <= j < 81 ==> copy2.cand[j] <= old(g.cand[j])
    ensures retried ==> copy2.cand[cell] <= {tried}
    ensures cell < 81 && AllFixed(copy1) && nodes[k].advance < |nodes| && !nodes[nodes[k].advance].rule.Bifurcation? ==>
              !retried && out.Solved? && out.grid.Snap() == copy1
    ensures cell < 81 && ChecksFirst(nodes, nodes[k].advance) && copy1.violated ==> retried
    ensures retried && AllFixed(copy2) && nodes[k].advance < |nodes| && !nodes[nodes[k].advance].rule.Bifurcation? ==>
              out.Solved? && out.grid.Snap() == copy2
    ensures retried && ChecksFirst(nodes, nodes[k].advance) && copy2.violated ==> out == Contradiction
    ensures cell == 81 && nodes[k].fallback == |nodes| ==> out == SolverError
    ensures cell == 81 && ChecksFirst(nodes, nodes[k].fallback) && old(g.violated) ==> out == Contradiction
  {
    ghost var a, c0 := g.Snap(), st.counter;
    cell, tried, first, retried, mark := 81, 0, SolverError, false, 0;
    copy1, copy2 := g.Snap(), g.Snap();
    var t := 0;
    while t < 81
      invariant 0 <= t <= 81
      invariant forall j :: 0 <= j < t ==> |g.cand[j]| != 2
    {
      if g.nOpts[t] == 2 {
        var opts := g.cand[t];
        assert |opts| == 2;
        HasElement(opts);
        var tryOpt :| tryOpt in opts;
        assert |opts - {tryOpt}| == 1;
        HasElement(opts - {tryOpt});
        var altOpt :| altOpt in opts - {tryOpt};
        cell, tried := t, tryOpt;
        out, copy1 := TryOption(nodes, k, g, st, t, tryOpt);
        first, mark := out, st.counter;
        if out.Contradiction? {
          retried := true;
          out, copy2 := TryOption(nodes, k, g, st, t, altOpt);
          RemainingOption(opts, tryOpt, altOpt, copy2.cand[t]);
          if out.Solved? {
            OtherOption(opts, tryOpt, altOpt, out.grid.cand[t]);
          }
        }
        return;
      }
      t := t + 1;
    }
    ghost var handed, mid;
    out, handed, mid := Run(nodes, nodes[k].fallback, g, st);
  }

  /** What is left of a two-candidate set without one option lies within the other one. */
  lemma RemainingOption(opts: set<int>, tryOpt: int, altOpt: int, left: set<int>)
    requires |opts| == 2 && tryOpt in opts && altOpt in opts && altOpt != tryOpt
    requires left <= opts && altOpt !in left
    ensures left <= {tryOpt}
  {
    forall x | x in left
      ensures x == tryOpt
    {
      if x != tryOpt {
        assert {x, tryOpt, altOpt} <= opts;
        assert |{x, tryOpt, altOpt}| == 3;
        SubsetCard({x, tryOpt, altOpt}, opts);
      }
    }
  }

  /** A single candidate within a two-candidate set without one option is the other one. */
  lemma OtherOption(opts: set<int>, tryOpt: int, altOpt: int, left: set<int>)
    requires |opts| == 2 && tryOpt in opts && altOpt in opts && altOpt != tryOpt
    requires left <= opts && altOpt !in left && |left| == 1
    ensures left == {tryOpt}
  {
    HasElement(left);
    var x :| x in left;
    assert left == {x} by {
      forall y | y in left ensures y == x {
        if y != x {
          assert {x, y} <= left;
          assert |{x, y}| == 2;
          SubsetCard({x, y}, left);
        }
      }
    }
    if x != tryOpt {
      assert {x, tryOpt, altOpt} <= opts;
      assert |{x, tryOpt, altOpt}| == 3;
      SubsetCard({x, tryOpt, altOpt}, opts);
    }
  }

  /**
   * One branch of the bifurcation: on a deep copy of the grid, remove
   * `opt` from cell t and launch the advance method on the copy. The ghost
   * result is the copy once `opt` is removed, as the advance method gets it.
   */
  method TryOption(nodes: seq<Node>, k: nat, g: Grid, st: Stepper, t: int, opt: int) returns (out: Outcome, ghost copy: State)
    requires WellFormed(nodes) && k < |nodes| && g.Valid() && IsCell(t) && opt in g.cand[t]
    modifies st
    decreases Total(g.cand), |nodes| - k, 0
    ensures old(st.counter) < st.counter
    ensures Shape(copy) && opt !in copy.cand[t] && forall j :: 0 <= j < 81 ==> copy.cand[j] <= g.cand[j]
    ensures out.Solved? ==> out.grid.Valid() && out.grid.Done()
    ensures out.Solved? ==> forall j :: 0 <= j < 81 ==> out.grid.cand[j] <= copy.cand[j]
    ensures AllFixed(copy) && nodes[k].advance < |nodes| && !nodes[nodes[k].advance].rule.Bifurcation? ==>
              out.Solved? && out.grid.Snap() == copy
    ensures nodes[k].advance == |nodes| ==> out == SolverError
    ensures ChecksFirst(nodes, nodes[k].advance) && copy.violated ==> out == Contradiction
  {
    var backup := new Grid.Copy(g);
    assert backup.cand == g.cand;
    assert opt in backup.cand[t] * {opt};
    var _ := Remove(backup, st, t, {opt});
    copy := backup.Snap();
    assert AllFixed(copy) ==> backup.Done();
    ghost var handed, mid;
    out, handed, mid := Run(nodes, nodes[k].advance, backup, st);
  }

  /**
   * Building a solver with `generate_solver` and launching it on a freshly
   * read puzzle. A solution keeps every clue: each cell ends with a single
   * candidate taken from its initial ones.
   */
  method Solve(order: seq<SolvingMethod>, content: seq<int>) returns (r: Result<Outcome, Exception>)
    requires IsPuzzle(content) && forall i :: 0 <= i < |order| ==> ValidMethod(order[i])
    ensures r.Err? <==> order == []
    ensures r.Err? ==> r.error == IndexError
    ensures r.Ok? && r.value.Solved? ==> r.value.grid.Valid() && r.value.grid.Done()
    ensures r.Ok? && r.value.Solved? ==>
              forall t :: 0 <= t < 81 ==> r.value.grid.cand[t] <= InitialCands(content)[t]
  {
    var built := GenerateSolver(order);
    if built.Err? {
      return Err(built.error);
    }
    var nodes := built.value;
    WiredWellFormed(order, nodes);
    var st := new Stepper();
    var g := new Grid(content);
    ghost var handed, mid;
    var out;
    out, handed, mid := Run(nodes, 0, g, st);
    return Ok(out);
  }
}
