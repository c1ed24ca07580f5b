/**
 * The value-level view of a grid: candidate sets, the occurrence index, the
 * `violated` flag and the `solved_at` markers, together with the invariants
 * every mutation of a `Sudoku` keeps and the measure that makes the solver
 * terminate.
 */
module GridState {
  import opened Positions

  /** One entry `occurrences[kind][g][d-1]` of the occurrence index. */
  datatype Slot = Slot(kind: Kind, g: int, d: int)

  predicate IsSlot(s: Slot) { IsGroup(s.g) && IsDigit(s.d) }

  /** A snapshot of the mutable part of a `Sudoku`. */
  datatype State = State(cand: seq<set<int>>, solvedAt: seq<nat>, occ: map<Slot, set<int>>, violated: bool)

  /** The cells of the slot's group (among the first |cand| cells) whose candidates contain the slot's digit. */
  function Holders(cand: seq<set<int>>, s: Slot): set<int>
  {
    set t | 0 <= t < |cand| && t < 81 && GroupOf(t, s.kind) == s.g && s.d in cand[t]
  }

  /** The fixed shape of a grid: 81 cells of digits and an occurrence set per slot inside its group. */
  ghost predicate Shape(st: State)
  {
    && |st.cand| == 81 && |st.solvedAt| == 81
    && (forall t :: 0 <= t < 81 ==> st.cand[t] <= Digits)
    && (forall s :: IsSlot(s) ==> s in st.occ && st.occ[s] <= Members(s.kind, s.g))
  }

  /**
   * What holds of every grid that is not flagged `violated`: each occurrence
   * set only lists cells that still hold the digit, and no cell has run out
   * of candidates.
   */
  ghost predicate Consistent(st: State)
    requires Shape(st)
  {
    && (forall s :: IsSlot(s) ==> st.occ[s] <= Holders(st.cand, s))
    && (forall t :: 0 <= t < 81 ==> st.cand[t] != {})
  }

  ghost predicate Sound(st: State)
  {
    Shape(st) && (!st.violated ==> Consistent(st))
  }

  /** Cells that hold the digit but are not listed in the occurrence set (only clue slots have any). */
  ghost function Missing(st: State, s: Slot): set<int>
    requires Shape(st) && IsSlot(s)
  {
    Holders(st.cand, s) - st.occ[s]
  }

  /** The total number of candidates left in the grid: the solver's termination measure. */
  function Total(cand: seq<set<int>>): nat
  {
    if cand == [] then 0 else |cand[0]| + Total(cand[1..])
  }

  lemma {:induction false} TotalUpdate(cand: seq<set<int>>, t: int, s: set<int>)
    requires 0 <= t < |cand|
    ensures Total(cand[t := s]) + |cand[t]| == Total(cand) + |s|
  {
    if t > 0 {
      TotalUpdate(cand[1..], t - 1, s);
      assert cand[t := s][1..] == cand[1..][t - 1 := s];
    }
  }

  /** Shrinking candidate sets cell by cell never raises the total. */
  lemma {:induction false} TotalShrinks(a: seq<set<int>>, b: seq<set<int>>)
    requires |a| == |b| && forall t :: 0 <= t < |a| ==> b[t] <= a[t]
    ensures Total(b) <= Total(a)
  {
    if a != [] {
      TotalShrinks(a[1..], b[1..]);
      assert |b[0]| <= |a[0]| by { SubsetCard(b[0], a[0]); }
    }
  }

  lemma SubsetCard(x: set<int>, y: set<int>)
    requires x <= y
    ensures |x| <= |y|
  {
    assert y == x + (y - x);
  }

  /**
   * How a grid may change under the remover: candidate sets only shrink,
   * `violated` is never reset, the step counter only grows, a changed
   * `solved_at` marks a cell left with at most one candidate at a step of
   * this run, occurrence sets only shrink, one that runs empty raises
   * `violated`, and no cell that holds a digit drops out of an occurrence
   * set without losing that digit.
   */
  ghost predicate Evolves(a: State, b: State, c0: nat, c1: nat)
  {
    && Shape(a) && Shape(b)
    && (forall t :: 0 <= t < 81 ==> b.cand[t] <= a.cand[t])
    && (a.violated ==> b.violated)
    && c0 <= c1
    && (forall t :: 0 <= t < 81 ==>
          b.solvedAt[t] == a.solvedAt[t] || (|b.cand[t]| <= 1 && c0 <= b.solvedAt[t] <= c1))
    && (forall s :: IsSlot(s) ==> b.occ[s] <= a.occ[s])
    && (forall s :: IsSlot(s) && a.occ[s] != {} && b.occ[s] == {} ==> b.violated)
    && (forall s :: IsSlot(s) ==> Missing(b, s) <= Missing(a, s))
  }

  lemma EvolvesRefl(a: State, c: nat)
    requires Shape(a)
    ensures Evolves(a, a, c, c)
  {
  }

  lemma EvolvesTrans(a: State, b: State, c: State, c0: nat, c1: nat, c2: nat)
    requires Evolves(a, b, c0, c1) && Evolves(b, c, c1, c2)
    ensures Evolves(a, c, c0, c2)
  {
    forall t | 0 <= t < 81
      ensures c.solvedAt[t] == a.solvedAt[t] || (|c.cand[t]| <= 1 && c0 <= c.solvedAt[t] <= c2)
    {
      SubsetCard(c.cand[t], b.cand[t]);
    }
  }

  lemma EvolvesTotal(a: State, b: State, c0: nat, c1: nat)
    requires Evolves(a, b, c0, c1)
    ensures Total(b.cand) <= Total(a.cand)
  {
    TotalShrinks(a.cand, b.cand);
  }

  /** One state of a pass to the next: candidate and occurrence sets only shrink and `violated` stays set. */
  ghost predicate Narrows(a: State, b: State)
  {
    && Shape(a) && Shape(b)
    && (forall t :: 0 <= t < 81 ==> b.cand[t] <= a.cand[t])
    && (a.violated ==> b.violated)
    && (forall s :: IsSlot(s) ==> b.occ[s] <= a.occ[s])
  }

  /** The states a pass went through, one per unit it handled, from `a` to `b`. */
  ghost predicate Trace(tr: seq<State>, a: State, b: State)
  {
    && |tr| >= 1 && tr[0] == a && tr[|tr| - 1] == b
    && forall i :: 0 <= i < |tr| - 1 ==> Narrows(tr[i], tr[i + 1])
  }

  lemma TraceStart(a: State)
    requires Shape(a)
    ensures Trace([a], a, a)
  {
  }

  /** A legal step appends one state to a trace. */
  lemma TraceExtend(tr: seq<State>, a: State, b: State, c: State, c0: nat, c1: nat)
    requires Trace(tr, a, b) && Evolves(b, c, c0, c1)
    ensures Trace(tr + [c], a, c)
  {
    var tr2 := tr + [c];
    forall i | 0 <= i < |tr2| - 1
      ensures Narrows(tr2[i], tr2[i + 1])
    {
      if i < |tr| - 1 {
        assert tr2[i] == tr[i] && tr2[i + 1] == tr[i + 1];
      }
    }
  }

  /** Slot s lists digits of `diff` in a group of cell `where`: the slots a removal at `where` touches. */
  predicate Touched(s: Slot, where: int, diff: set<int>)
    requires IsCell(where)
  {
    s.d in diff && s.g == GroupOf(where, s.kind)
  }

  /** Removing `diff` from cell `where` takes `where` out of exactly the touched slots' holders. */
  lemma HoldersAfterRemoval(cand: seq<set<int>>, where: int, diff: set<int>, s: Slot)
    requires |cand| == 81 && IsCell(where)
    ensures Holders(cand[where := cand[where] - diff], s)
         == if Touched(s, where, diff) then Holders(cand, s) - {where} else Holders(cand, s)
  {
  }

  /**
   * One removal step as `_remove_and_check_violations` performs it: `diff`
   * leaves cell `where`, each touched slot has either lost `where` or, when
   * a violation cut the upkeep short, not been reached, and a slot that ran
   * empty raised `violated`.
   */
  ghost predicate RemovalStep(a: State, b: State, where: int, diff: set<int>)
    requires IsCell(where)
  {
    && Shape(a) && diff <= a.cand[where]
    && b.cand == a.cand[where := a.cand[where] - diff]
    && b.solvedAt == a.solvedAt
    && (a.violated ==> b.violated)
    && (forall s :: IsSlot(s) ==>
          (s in b.occ && (b.occ[s] == a.occ[s] || (Touched(s, where, diff) && b.occ[s] == a.occ[s] - {where}))))
    && (forall s :: IsSlot(s) && a.occ[s] != {} && b.occ[s] == {} ==> b.violated)
  }

  lemma RemovalEvolves(a: State, b: State, where: int, diff: set<int>, c0: nat, c1: nat)
    requires IsCell(where) && RemovalStep(a, b, where, diff) && c0 <= c1
    ensures Evolves(a, b, c0, c1)
    ensures Total(b.cand) + |diff| == Total(a.cand)
  {
    forall s | IsSlot(s)
      ensures Missing(b, s) <= Missing(a, s)
    {
      HoldersAfterRemoval(a.cand, where, diff, s);
    }
    TotalUpdate(a.cand, where, a.cand[where] - diff);
    assert |a.cand[where] - diff| + |diff| == |a.cand[where]| by {
      assert a.cand[where] == (a.cand[where] - diff) + diff;
    }
  }

  /** A removal whose upkeep ran to the end and left the cell a candidate keeps a consistent grid consistent. */
  lemma RemovalConsistent(a: State, b: State, where: int, diff: set<int>)
    requires IsCell(where) && RemovalStep(a, b, where, diff) && Consistent(a)
    requires forall s :: IsSlot(s) && Touched(s, where, diff) ==> b.occ[s] == a.occ[s] - {where}
    requires b.cand[where] != {}
    ensures Shape(b) && Consistent(b)
  {
    forall s | IsSlot(s)
      ensures b.occ[s] <= Holders(b.cand, s)
    {
      HoldersAfterRemoval(a.cand, where, diff, s);
    }
  }
}
