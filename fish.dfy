/**
 * `ScaledXWing`: X-Wing (n = 2) and Swordfish (n = 3) on rows and columns.
 * When a digit has exactly n places in each of n rows (or columns) and those
 * places fall into the same n columns (rows), the digit is removed from every
 * other cell of those n cross lines.
 */
module Fish {
  import opened Wrappers
  import opened Positions
  import opened GridState
  import opened Structure
  import opened Propagation

  predicate IsLine(kind: Kind) { kind == Row || kind == Col }

  /** `{"r", "c"} - {primary_kind}`: the cross direction of a line kind. */
  function Cross(kind: Kind): (k: Kind)
    requires IsLine(kind)
    ensures IsLine(k) && k != kind
  {
    if kind == Row then Col else Row
  }

  /** The occurrence set of digit d in line `line` of the primary kind. */
  function Places(occ: map<Slot, set<int>>, primary: Kind, line: int, d: int): set<int>
    requires IsGroup(line) && IsDigit(d) && Slot(primary, line, d) in occ
  {
    occ[Slot(primary, line, d)]
  }

  /** `secondary_pos`: the cross lines in which digit d still has a place in line `line`. */
  function CrossPositions(occ: map<Slot, set<int>>, primary: Kind, line: int, d: int): set<int>
    requires IsLine(primary) && IsGroup(line) && IsDigit(d) && Slot(primary, line, d) in occ
  {
    set t | t in Places(occ, primary, line, d) && IsCell(t) :: GroupOf(t, Cross(primary))
  }

  /** The lines below `upto` whose occurrence set for d has exactly n cells, in ascending order. */
  function Qualifying(occ: map<Slot, set<int>>, n: nat, primary: Kind, d: int, upto: nat): (ls: seq<int>)
    requires upto <= 9 && IsDigit(d) && forall line :: 0 <= line < 9 ==> Slot(primary, line, d) in occ
    ensures forall i :: 0 <= i < |ls| ==> 0 <= ls[i] < upto && |Places(occ, primary, ls[i], d)| == n
    ensures forall i, j :: 0 <= i < j < |ls| ==> ls[i] < ls[j]
  {
    if upto == 0 then []
    else Qualifying(occ, n, primary, d, upto - 1)
         + (if |Places(occ, primary, upto - 1, d)| == n then [upto - 1] else [])
  }

  /** Every line below `upto` with exactly n places for d is among the qualifying lines. */
  lemma {:induction false} QualifyingComplete(occ: map<Slot, set<int>>, n: nat, primary: Kind, d: int, upto: nat)
    requires upto <= 9 && IsDigit(d) && forall line :: 0 <= line < 9 ==> Slot(primary, line, d) in occ
    ensures forall line :: 0 <= line < upto && |Places(occ, primary, line, d)| == n ==>
              line in Qualifying(occ, n, primary, d, upto)
  {
    if upto > 0 {
      QualifyingComplete(occ, n, primary, d, upto - 1);
      var before := Qualifying(occ, n, primary, d, upto - 1);
      forall line | 0 <= line < upto && |Places(occ, primary, line, d)| == n
        ensures line in Qualifying(occ, n, primary, d, upto)
      {
        if line < upto - 1 {
          var i :| 0 <= i < |before| && before[i] == line;
          assert Qualifying(occ, n, primary, d, upto)[i] == line;
        } else {
          assert Qualifying(occ, n, primary, d, upto)[|before|] == line;
        }
      }
    }
  }

  /** The lines of ls whose cross positions are exactly ps. */
  function WithCross(occ: map<Slot, set<int>>, primary: Kind, d: int, ls: seq<int>, ps: set<int>): (r: seq<int>)
    requires IsLine(primary) && IsDigit(d)
    requires forall i :: 0 <= i < |ls| ==> IsGroup(ls[i]) && Slot(primary, ls[i], d) in occ
    ensures |r| <= |ls|
    ensures forall i :: 0 <= i < |r| ==> r[i] in ls
  {
    if ls == [] then []
    else WithCross(occ, primary, d, ls[..|ls| - 1], ps)
         + (if CrossPositions(occ, primary, ls[|ls| - 1], d) == ps then [ls[|ls| - 1]] else [])
  }

  /** No n of the qualifying lines below `upto` share their cross positions. */
  ghost predicate NoFishBelow(occ: map<Slot, set<int>>, n: nat, primary: Kind, d: int, upto: nat)
    requires IsLine(primary) && upto <= 9 && IsDigit(d)
    requires forall line :: 0 <= line < 9 ==> Slot(primary, line, d) in occ
  {
    var ls := Qualifying(occ, n, primary, d, upto);
    forall ps :: |WithCross(occ, primary, d, ls, ps)| < n
  }

  /**
   * `lines` is the fish `_find_option_in_n_by_n` answers: the n qualifying
   * lines sharing the cross positions of line `last`, the first line at which
   * n qualifying lines share their cross positions.
   */
  ghost predicate FirstFish(occ: map<Slot, set<int>>, n: nat, primary: Kind, d: int, lines: seq<int>)
    requires IsLine(primary) && IsDigit(d)
    requires forall line :: 0 <= line < 9 ==> Slot(primary, line, d) in occ
  {
    exists last :: 0 <= last < 9 && IsFishAt(occ, n, primary, d, lines, last)
  }

  /** `lines` is the group of n qualifying lines completed at line `last`, with no fish before it. */
  ghost predicate IsFishAt(occ: map<Slot, set<int>>, n: nat, primary: Kind, d: int, lines: seq<int>, last: int)
    requires IsLine(primary) && IsDigit(d) && 0 <= last < 9
    requires forall line :: 0 <= line < 9 ==> Slot(primary, line, d) in occ
  {
    && |Places(occ, primary, last, d)| == n
    && lines == WithCross(occ, primary, d, Qualifying(occ, n, primary, d, last + 1),
                          CrossPositions(occ, primary, last, d))
    && |lines| == n
    && NoFishBelow(occ, n, primary, d, last)
  }

  /**
   * `_find_option_in_n_by_n`: walk the lines of the primary kind in order,
   * keeping those with exactly n places for d; as soon as n kept lines share
   * the same cross positions, answer those n lines. `found` is the first such
   * group: no earlier prefix of the lines holds n lines with equal cross
   * positions, and `None` means no n lines of the grid do.
   */
  method FindFish(occ: map<Slot, set<int>>, n: nat, primary: Kind, d: int) returns (found: Option<seq<int>>)
    requires IsLine(primary) && IsDigit(d) && n >= 1
    requires forall line :: 0 <= line < 9 ==> Slot(primary, line, d) in occ
    ensures found.Some? ==> FirstFish(occ, n, primary, d, found.value)
    ensures found.None? ==> NoFishBelow(occ, n, primary, d, 9)
  {
    var seen: seq<int> := [];
    var line := 0;
    while line < 9
      invariant 0 <= line <= 9
      invariant seen == Qualifying(occ, n, primary, d, line)
      invariant NoFishBelow(occ, n, primary, d, line)
    {
      var f;
      seen, f := FishAtLine(occ, n, primary, d, line, seen);
      if f.Some? {
        return f;
      }
      line := line + 1;
    }
    return None;
  }

  /**
   * One pass of the search loop: line `line` joins the kept lines when it
   * has n places for d, and the kept lines sharing its cross positions are
   * answered once there are n of them.
   */
  method FishAtLine(occ: map<Slot, set<int>>, n: nat, primary: Kind, d: int, line: nat, seen: seq<int>)
    returns (seen2: seq<int>, found: Option<seq<int>>)
    requires IsLine(primary) && IsDigit(d) && line < 9
    requires forall l :: 0 <= l < 9 ==> Slot(primary, l, d) in occ
    requires seen == Qualifying(occ, n, primary, d, line) && NoFishBelow(occ, n, primary, d, line)
    ensures seen2 == Qualifying(occ, n, primary, d, line + 1)
    ensures found.Some? ==> FirstFish(occ, n, primary, d, found.value)
    ensures found.None? ==> NoFishBelow(occ, n, primary, d, line + 1)
  {
    FindFishStep(occ, n, primary, d, line);
    seen2, found := seen, None;
    if |occ[Slot(primary, line, d)]| == n {
      seen2 := seen + [line];
      var same := WithCross(occ, primary, d, seen2, CrossPositions(occ, primary, line, d));
      if |same| == n {
        found := Some(same);
      }
    }
  }

  /** One pass of the search loop: either line completes the first fish, or still no fish below line + 1. */
  lemma FindFishStep(occ: map<Slot, set<int>>, n: nat, primary: Kind, d: int, line: nat)
    requires IsLine(primary) && IsDigit(d) && line < 9
    requires forall l :: 0 <= l < 9 ==> Slot(primary, l, d) in occ
    requires NoFishBelow(occ, n, primary, d, line)
    ensures |occ[Slot(primary, line, d)]| == n ==>
              Qualifying(occ, n, primary, d, line + 1) == Qualifying(occ, n, primary, d, line) + [line]
    ensures |occ[Slot(primary, line, d)]| != n ==>
              Qualifying(occ, n, primary, d, line + 1) == Qualifying(occ, n, primary, d, line)
    ensures var same := WithCross(occ, primary, d, Qualifying(occ, n, primary, d, line + 1),
                                  CrossPositions(occ, primary, line, d));
            if |occ[Slot(primary, line, d)]| == n && |same| == n then FirstFish(occ, n, primary, d, same)
            else NoFishBelow(occ, n, primary, d, line + 1)
  {
    QualifyingStep(occ, n, primary, d, line);
    var same := WithCross(occ, primary, d, Qualifying(occ, n, primary, d, line + 1),
                          CrossPositions(occ, primary, line, d));
    if |occ[Slot(primary, line, d)]| == n && |same| == n {
      FirstFishFound(occ, n, primary, d, line);
    } else {
      NoFishStep(occ, n, primary, d, line);
    }
  }

  /** The qualifying lines below line + 1: those below line, then line itself when it has n places. */
  lemma QualifyingStep(occ: map<Slot, set<int>>, n: nat, primary: Kind, d: int, line: nat)
    requires IsDigit(d) && line < 9
    requires forall l :: 0 <= l < 9 ==> Slot(primary, l, d) in occ
    ensures |occ[Slot(primary, line, d)]| == n ==>
              Qualifying(occ, n, primary, d, line + 1) == Qualifying(occ, n, primary, d, line) + [line]
    ensures |occ[Slot(primary, line, d)]| != n ==>
              Qualifying(occ, n, primary, d, line + 1) == Qualifying(occ, n, primary, d, line)
  {
    assert Places(occ, primary, line, d) == occ[Slot(primary, line, d)];
    assert Qualifying(occ, n, primary, d, line) + [] == Qualifying(occ, n, primary, d, line);
  }

  /** The line completing a group of n qualifying lines with equal cross positions gives the first fish. */
  lemma FirstFishFound(occ: map<Slot, set<int>>, n: nat, primary: Kind, d: int, line: nat)
    requires IsLine(primary) && IsDigit(d) && line < 9
    requires forall l :: 0 <= l < 9 ==> Slot(primary, l, d) in occ
    requires NoFishBelow(occ, n, primary, d, line) && |Places(occ, primary, line, d)| == n
    requires |WithCross(occ, primary, d, Qualifying(occ, n, primary, d, line + 1),
                        CrossPositions(occ, primary, line, d))| == n
    ensures FirstFish(occ, n, primary, d, WithCross(occ, primary, d, Qualifying(occ, n, primary, d, line + 1),
                                                    CrossPositions(occ, primary, line, d)))
  {
    assert IsFishAt(occ, n, primary, d, WithCross(occ, primary, d, Qualifying(occ, n, primary, d, line + 1),
                                                  CrossPositions(occ, primary, line, d)), line);
  }

  /** One more line keeps "no fish yet" unless it is the line that completes one. */
  lemma NoFishStep(occ: map<Slot, set<int>>, n: nat, primary: Kind, d: int, line: nat)
    requires IsLine(primary) && IsDigit(d) && line < 9
    requires forall l :: 0 <= l < 9 ==> Slot(primary, l, d) in occ
    requires NoFishBelow(occ, n, primary, d, line)
    requires |Places(occ, primary, line, d)| == n ==>
               |WithCross(occ, primary, d, Qualifying(occ, n, primary, d, line + 1),
                          CrossPositions(occ, primary, line, d))| != n
    ensures NoFishBelow(occ, n, primary, d, line + 1)
  {
    var before := Qualifying(occ, n, primary, d, line);
    var seen := Qualifying(occ, n, primary, d, line + 1);
    if |Places(occ, primary, line, d)| == n {
      assert seen == before + [line];
      forall qs
        ensures |WithCross(occ, primary, d, seen, qs)| < n
      {
        WithCrossAppend(occ, primary, d, before, line, qs);
      }
    } else {
      assert seen == before + [];
      assert seen == before;
      forall qs
        ensures |WithCross(occ, primary, d, seen, qs)| < n
      {
        assert |WithCross(occ, primary, d, before, qs)| < n;
      }
    }
  }

  /** Appending one line to ls adds it to the group of its own cross positions only. */
  lemma WithCrossAppend(occ: map<Slot, set<int>>, primary: Kind, d: int, ls: seq<int>, line: int, ps: set<int>)
    requires IsLine(primary) && IsDigit(d) && IsGroup(line) && Slot(primary, line, d) in occ
    requires forall i :: 0 <= i < |ls| ==> IsGroup(ls[i]) && Slot(primary, ls[i], d) in occ
    ensures WithCross(occ, primary, d, ls + [line], ps)
              == WithCross(occ, primary, d, ls, ps)
                 + (if CrossPositions(occ, primary, line, d) == ps then [line] else [])
  {
    assert (ls + [line])[..|ls|] == ls;
  }

  /** A fish lists n distinct lines of the primary kind. */
  lemma FirstFishLines(occ: map<Slot, set<int>>, n: nat, primary: Kind, d: int, lines: seq<int>)
    requires IsLine(primary) && IsDigit(d)
    requires forall line :: 0 <= line < 9 ==> Slot(primary, line, d) in occ
    requires FirstFish(occ, n, primary, d, lines)
    ensures |lines| == n
    ensures forall i :: 0 <= i < |lines| ==> IsGroup(lines[i]) && |Places(occ, primary, lines[i], d)| == n
  {
    var last :| 0 <= last < 9 && IsFishAt(occ, n, primary, d, lines, last);
  }

  /** Every slot of the grid has an occurrence set. */
  ghost predicate SlotsIn(occ: map<Slot, set<int>>)
  {
    forall kind, grp, d :: IsGroup(grp) && IsDigit(d) ==> Slot(kind, grp, d) in occ
  }

  /** `found_tiles`: every place of d in the lines of the fish. */
  function FoundCells(occ: map<Slot, set<int>>, primary: Kind, d: int, lines: seq<int>): (found: set<int>)
    requires IsDigit(d) && forall i :: 0 <= i < |lines| ==> IsGroup(lines[i])
    requires SlotsIn(occ)
    ensures forall t :: t in found <==> exists i :: 0 <= i < |lines| && t in occ[Slot(primary, lines[i], d)]
  {
    set i, t | 0 <= i < |lines| && t in occ[Slot(primary, lines[i], d)] :: t
  }

  /**
   * `throw_away`: the places of d on the cross lines through the first line
   * of the fish that are not places of the fish itself.
   */
  function ThrowAway(occ: map<Slot, set<int>>, primary: Kind, d: int, lines: seq<int>): (ta: set<int>)
    requires IsLine(primary) && IsDigit(d) && lines != []
    requires forall i :: 0 <= i < |lines| ==> IsGroup(lines[i])
    requires SlotsIn(occ)
    ensures forall t :: t in ta <==>
              && t !in FoundCells(occ, primary, d, lines)
              && exists t0 :: t0 in occ[Slot(primary, lines[0], d)] && IsCell(t0)
                              && t in occ[Slot(Cross(primary), GroupOf(t0, Cross(primary)), d)]
  {
    var found := FoundCells(occ, primary, d, lines);
    set t0, t | t0 in occ[Slot(primary, lines[0], d)] && IsCell(t0)
                && t in occ[Slot(Cross(primary), GroupOf(t0, Cross(primary)), d)] && t !in found :: t
  }

  /** The lines of a fish: at least one, each a line of the grid. */
  predicate FishLines(lines: seq<int>)
  {
    lines != [] && forall i :: 0 <= i < |lines| ==> IsGroup(lines[i])
  }

  /**
   * `_option_in_n_by_n_removal` has work to do: the first fish of digit d
   * exists and has throw-away cells.
   */
  ghost predicate FishToClear(occ: map<Slot, set<int>>, n: nat, primary: Kind, d: int)
    requires IsLine(primary) && IsDigit(d) && SlotsIn(occ)
  {
    exists lines :: FirstFish(occ, n, primary, d, lines) && FishLines(lines) && ThrowAway(occ, primary, d, lines) != {}
  }

  /** Every slot of a grid's occurrence index is present. */
  lemma ShapeSlots(a: State)
    requires Shape(a)
    ensures SlotsIn(a.occ)
  {
    forall kind, grp, d | IsGroup(grp) && IsDigit(d)
      ensures Slot(kind, grp, d) in a.occ
    {
      assert IsSlot(Slot(kind, grp, d));
    }
  }

  /**
   * `_option_in_n_by_n_removal`: look for the first fish of digit d and take
   * d out of every throw-away cell, stopping at a contradiction. It answers
   * true exactly when there was a fish with throw-away cells and no
   * contradiction arose; without a contradiction d is then gone from every
   * throw-away cell. With nothing to clear it answers false and changes
   * nothing.
   */
  method XWingRemoval(g: Grid, st: Stepper, n: nat, primary: Kind, d: int) returns (r: bool)
    requires g.Valid() && !g.violated && IsLine(primary) && IsDigit(d) && n >= 1
    requires SlotsIn(g.occ)
    modifies g, st
    ensures g.Valid()
    ensures Evolves(old(g.Snap()), g.Snap(), old(st.counter), st.counter)
    ensures r <==> !g.violated && FishToClear(old(g.occ), n, primary, d)
    ensures r ==> Total(g.cand) < old(Total(g.cand))
    ensures !g.violated ==> forall lines :: FirstFish(old(g.occ), n, primary, d, lines) && FishLines(lines) ==>
              forall t :: t in ThrowAway(old(g.occ), primary, d, lines) ==> IsCell(t) && d !in g.cand[t]
    ensures !FishToClear(old(g.occ), n, primary, d) ==> g.Snap() == old(g.Snap()) && st.counter == old(st.counter)
    ensures !r && !g.violated ==> g.Snap() == old(g.Snap()) && st.counter == old(st.counter)
  {
    var occ := g.occ;
    var found := FindFish(occ, n, primary, d);
    if found.None? {
      NoFishNothingToClear(occ, n, primary, d);
      return false;
    }
    var lines := found.value;
    FirstFishUnique(occ, n, primary, d, lines);
    var throw := ThrowAway(occ, primary, d, lines);
    if throw == {} {
      return false;
    }
    ThrowAwayHeld(g.Snap(), primary, d, lines);
    r := RemoveDigit(g, st, throw, d);
  }

  /** Without any fish there is nothing to clear. */
  lemma NoFishNothingToClear(occ: map<Slot, set<int>>, n: nat, primary: Kind, d: int)
    requires IsLine(primary) && IsDigit(d) && SlotsIn(occ)
    requires NoFishBelow(occ, n, primary, d, 9)
    ensures !FishToClear(occ, n, primary, d)
    ensures forall lines :: !FirstFish(occ, n, primary, d, lines)
  {
    forall lines | FirstFish(occ, n, primary, d, lines)
      ensures false
    {
      FishBlocksNoFish(occ, n, primary, d, lines);
    }
  }

  /**
   * The first fish is unique: any fish is the one found, so there is
   * something to clear exactly when the found fish has throw-away cells.
   */
  lemma FirstFishUnique(occ: map<Slot, set<int>>, n: nat, primary: Kind, d: int, lines: seq<int>)
    requires IsLine(primary) && IsDigit(d) && SlotsIn(occ) && n >= 1
    requires FirstFish(occ, n, primary, d, lines)
    ensures FishLines(lines)
    ensures forall other :: FirstFish(occ, n, primary, d, other) ==> other == lines
    ensures FishToClear(occ, n, primary, d) <==> ThrowAway(occ, primary, d, lines) != {}
  {
    FirstFishLines(occ, n, primary, d, lines);
    forall other | FirstFish(occ, n, primary, d, other)
      ensures other == lines
    {
      FishLast(occ, n, primary, d, lines, other);
    }
  }

  /** Two fish complete at the same line, and so are the same lines. */
  lemma FishLast(occ: map<Slot, set<int>>, n: nat, primary: Kind, d: int, l1: seq<int>, l2: seq<int>)
    requires IsLine(primary) && IsDigit(d)
    requires forall line :: 0 <= line < 9 ==> Slot(primary, line, d) in occ
    requires FirstFish(occ, n, primary, d, l1) && FirstFish(occ, n, primary, d, l2)
    ensures l1 == l2
  {
    var a :| 0 <= a < 9 && IsFishAt(occ, n, primary, d, l1, a);
    var b :| 0 <= b < 9 && IsFishAt(occ, n, primary, d, l2, b);
    if a < b {
      FishBeforeLast(occ, n, primary, d, l1, a, b);
      assert false;
    } else if b < a {
      FishBeforeLast(occ, n, primary, d, l2, b, a);
      assert false;
    }
  }

  /** A fish completed at line a leaves no room for "no fish below b" when a < b. */
  lemma FishBeforeLast(occ: map<Slot, set<int>>, n: nat, primary: Kind, d: int, lines: seq<int>, a: int, b: int)
    requires IsLine(primary) && IsDigit(d) && 0 <= a < b <= 9
    requires forall line :: 0 <= line < 9 ==> Slot(primary, line, d) in occ
    requires IsFishAt(occ, n, primary, d, lines, a)
    ensures !NoFishBelow(occ, n, primary, d, b)
  {
    var ps := CrossPositions(occ, primary, a, d);
    WithCrossGrows(occ, n, primary, d, a + 1, b, ps);
    assert |WithCross(occ, primary, d, Qualifying(occ, n, primary, d, b), ps)| >= n;
  }

  /** Once n qualifying lines share their cross positions, more lines cannot undo it. */
  lemma {:induction false} WithCrossGrows(occ: map<Slot, set<int>>, n: nat, primary: Kind, d: int, u: nat, v: nat, ps: set<int>)
    requires IsLine(primary) && IsDigit(d) && u <= v <= 9
    requires forall line :: 0 <= line < 9 ==> Slot(primary, line, d) in occ
    ensures |WithCross(occ, primary, d, Qualifying(occ, n, primary, d, u), ps)|
            <= |WithCross(occ, primary, d, Qualifying(occ, n, primary, d, v), ps)|
    decreases v - u
  {
    if u < v {
      WithCrossGrows(occ, n, primary, d, u, v - 1, ps);
      var before := Qualifying(occ, n, primary, d, v - 1);
      if |Places(occ, primary, v - 1, d)| == n {
        WithCrossAppend(occ, primary, d, before, v - 1, ps);
      } else {
        assert Qualifying(occ, n, primary, d, v) == before + [];
        assert Qualifying(occ, n, primary, d, v) == before;
      }
    }
  }

  /** A fish and "no fish among all nine lines" exclude each other. */
  lemma FishBlocksNoFish(occ: map<Slot, set<int>>, n: nat, primary: Kind, d: int, lines: seq<int>)
    requires IsLine(primary) && IsDigit(d)
    requires forall line :: 0 <= line < 9 ==> Slot(primary, line, d) in occ
    requires FirstFish(occ, n, primary, d, lines)
    ensures !NoFishBelow(occ, n, primary, d, 9)
  {
    var last :| 0 <= last < 9 && IsFishAt(occ, n, primary, d, lines, last);
    WithCrossGrows(occ, n, primary, d, last + 1, 9, CrossPositions(occ, primary, last, d));
  }

  /** With a consistent grid, every throw-away cell still holds d. */
  lemma ThrowAwayHeld(a: State, primary: Kind, d: int, lines: seq<int>)
    requires Sound(a) && !a.violated && SlotsIn(a.occ)
    requires IsLine(primary) && IsDigit(d) && lines != []
    requires forall i :: 0 <= i < |lines| ==> IsGroup(lines[i])
    ensures forall t :: t in ThrowAway(a.occ, primary, d, lines) ==> IsCell(t) && d in a.cand[t]
  {
    forall t | t in ThrowAway(a.occ, primary, d, lines)
      ensures IsCell(t) && d in a.cand[t]
    {
      var t0 :| t0 in a.occ[Slot(primary, lines[0], d)] && IsCell(t0)
                && t in a.occ[Slot(Cross(primary), GroupOf(t0, Cross(primary)), d)];
      var s := Slot(Cross(primary), GroupOf(t0, Cross(primary)), d);
      assert IsSlot(s);
      assert t in Holders(a.cand, s);
    }
  }

  /**
   * The removal loop of `_option_in_n_by_n_removal`: take d out of each cell
   * of `cells` in turn, stopping at the first contradiction.
   */
  method RemoveDigit(g: Grid, st: Stepper, cells: set<int>, d: int) returns (r: bool)
    requires g.Valid() && !g.violated && cells != {}
    requires forall t :: t in cells ==> IsCell(t) && d in g.cand[t]
    modifies g, st
    ensures g.Valid()
    ensures Evolves(old(g.Snap()), g.Snap(), old(st.counter), st.counter)
    ensures r <==> !g.violated
    ensures r ==> Total(g.cand) < old(Total(g.cand))
    ensures r ==> forall t :: t in cells ==> IsCell(t) && d !in g.cand[t]
  {
    ghost var a, c0 := g.Snap(), st.counter;
    EvolvesRefl(a, c0);
    var rest := cells;
    while rest != {}
      invariant rest <= cells
      invariant g.Valid() && !g.violated && Evolves(a, g.Snap(), c0, st.counter)
      invariant rest == cells ==> g.Snap() == a
      invariant rest != cells ==> Total(g.cand) < Total(a.cand)
      invariant forall t :: t in cells - rest ==> IsCell(t) && d !in g.cand[t]
      decreases |rest|
    {
      HasElement(rest);
      var t :| t in rest;
      ghost var b, c1 := g.Snap(), st.counter;
      var _ := Remove(g, st, t, {d});
      EvolvesTrans(a, b, g.Snap(), c0, c1, st.counter);
      EvolvesTotal(b, g.Snap(), c1, st.counter);
      if g.violated {
        return false;
      }
      rest := rest - {t};
    }
    return true;
  }

  /** `XWingRemoval` for one digit, stated as the scan uses it. */
  method XWingDigit(g: Grid, st: Stepper, n: nat, primary: Kind, d: int) returns (r: bool)
    requires g.Valid() && !g.violated && IsLine(primary) && IsDigit(d) && n >= 1
    modifies g, st
    ensures g.Valid() && SlotsIn(old(g.occ))
    ensures Evolves(old(g.Snap()), g.Snap(), old(st.counter), st.counter)
    ensures r ==> Total(g.cand) < old(Total(g.cand))
    ensures !r && !g.violated ==>
              g.Snap() == old(g.Snap()) && st.counter == old(st.counter) && !FishToClear(old(g.occ), n, primary, d)
    ensures !FishToClear(old(g.occ), n, primary, d) ==> !r && g.Snap() == old(g.Snap()) && st.counter == old(st.counter)
    ensures !g.violated ==> FishCleared(old(g.Snap()), g.Snap(), n, primary, d)
  {
    ShapeSlots(g.Snap());
    r := XWingRemoval(g, st, n, primary, d);
  }

  /**
   * Digit d was dealt with between states a and b: d is gone from every
   * throw-away cell of the first fish of d in a, and with nothing to clear
   * the state did not change.
   */
  ghost predicate FishCleared(a: State, b: State, n: nat, primary: Kind, d: int)
  {
    && IsLine(primary) && IsDigit(d) && SlotsIn(a.occ) && |b.cand| == 81
    && (forall lines :: FirstFish(a.occ, n, primary, d, lines) && FishLines(lines) ==>
          forall t :: t in ThrowAway(a.occ, primary, d, lines) ==> IsCell(t) && d !in b.cand[t])
    && (!FishToClear(a.occ, n, primary, d) ==> b == a)
  }

  /**
   * Digit e + 1, reached in state `tr[e]`, was dealt with for each e below
   * k, unless its search left the grid flagged violated.
   */
  ghost predicate DigitsCleared(tr: seq<State>, n: nat, primary: Kind, k: int)
    requires 0 <= k < |tr|
  {
    forall e :: 0 <= e < k ==> !tr[e + 1].violated ==> FishCleared(tr[e], tr[e + 1], n, primary, e + 1)
  }

  lemma DigitsClearedExtend(tr: seq<State>, n: nat, primary: Kind, k: int, c: State)
    requires 0 <= k && |tr| == k + 1 && DigitsCleared(tr, n, primary, k)
    requires !c.violated ==> FishCleared(tr[k], c, n, primary, k + 1)
    ensures DigitsCleared(tr + [c], n, primary, k + 1)
  {
    var tr2 := tr + [c];
    forall e | 0 <= e < k + 1
      ensures tr2[e] == tr[e]
    {
    }
    assert tr2[k + 1] == c;
  }

  /** No digit has a fish with throw-away cells in rows or in columns: `ScaledXWing(n)` has nothing to remove. */
  ghost predicate FishStable(occ: map<Slot, set<int>>, n: nat)
    requires SlotsIn(occ)
  {
    forall primary, d :: IsLine(primary) && IsDigit(d) ==> !FishToClear(occ, n, primary, d)
  }

  /**
   * One direction of the scan of `ScaledXWing.launch`: digits 1 to 9 with
   * lines of the primary kind, stopping as soon as the grid is flagged
   * violated before a search.
   */
  method XWingLines(g: Grid, st: Stepper, n: nat, primary: Kind) returns (res: Scan, ghost trace: seq<State>)
    requires g.Valid() && n >= 1 && IsLine(primary)
    modifies g, st
    ensures g.Valid() && SlotsIn(g.occ)
    ensures Evolves(old(g.Snap()), g.Snap(), old(st.counter), st.counter)
    ensures res == Violated ==> g.violated
    ensures old(g.violated) ==> res == Violated
    ensures res == Scanned(true) ==> Total(g.cand) < old(Total(g.cand))
    ensures res == Scanned(false) && !g.violated ==>
              && g.Snap() == old(g.Snap()) && st.counter == old(st.counter)
              && NoClearBelow(g.occ, n, primary, 10)
    ensures !old(g.violated) && SlotsIn(old(g.occ)) && NoClearBelow(old(g.occ), n, primary, 10) ==>
              res == Scanned(false) && g.Snap() == old(g.Snap()) && st.counter == old(st.counter)
    ensures res != Violated ==> |trace| == 10 && Trace(trace, old(g.Snap()), g.Snap()) && DigitsCleared(trace, n, primary, 9)
  {
    ghost var a, c0 := g.Snap(), st.counter;
    EvolvesRefl(a, c0);
    ShapeSlots(a);
    TraceStart(a);
    trace := [a];
    var success := false;
    var d := 1;
    while d <= 9
      invariant g.Valid() && LinesSoFar(a, g.Snap(), c0, st.counter, n, primary, d, success, trace)
    {
      if g.violated {
        return Violated, trace;
      }
      success, trace := XWingLinesStep(g, st, n, primary, d, a, c0, success, trace);
      d := d + 1;
    }
    ShapeSlots(g.Snap());
    return Scanned(success), trace;
  }

  /**
   * What the pass over digits 1 to d - 1 in lines of the primary kind,
   * begun in state a with counter c0, has established in state b with
   * counter c1.
   */
  ghost predicate LinesSoFar(a: State, b: State, c0: nat, c1: nat, n: nat, primary: Kind, d: int, success: bool, trace: seq<State>)
  {
    && 1 <= d <= 10 && IsLine(primary)
    && (a.violated ==> d == 1)
    && Evolves(a, b, c0, c1) && SlotsIn(a.occ)
    && (success ==> Total(b.cand) < Total(a.cand))
    && (!success && !b.violated ==> b == a && c1 == c0 && NoClearBelow(a.occ, n, primary, d))
    && (!a.violated && NoClearBelow(a.occ, n, primary, 10) ==> !success && !b.violated)
    && |trace| == d && Trace(trace, a, b) && DigitsCleared(trace, n, primary, d - 1)
  }

  /** One digit of `XWingLines`: the search for it, appended to the trace of the pass begun in state a. */
  method XWingLinesStep(g: Grid, st: Stepper, n: nat, primary: Kind, d: int, ghost a: State, ghost c0: nat, success: bool, ghost trace: seq<State>)
    returns (success2: bool, ghost trace2: seq<State>)
    requires g.Valid() && !g.violated && d <= 9 && n >= 1
    requires LinesSoFar(a, g.Snap(), c0, st.counter, n, primary, d, success, trace)
    modifies g, st
    ensures g.Valid() && LinesSoFar(a, g.Snap(), c0, st.counter, n, primary, d + 1, success2, trace2)
  {
    ghost var b, c1 := g.Snap(), st.counter;
    var s := XWingDigit(g, st, n, primary, d);
    EvolvesTrans(a, b, g.Snap(), c0, c1, st.counter);
    EvolvesTotal(a, b, c0, c1);
    EvolvesTotal(b, g.Snap(), c1, st.counter);
    TraceExtend(trace, a, b, g.Snap(), c1, st.counter);
    assert trace[d - 1] == b;
    DigitsClearedExtend(trace, n, primary, d - 1, g.Snap());
    trace2 := trace + [g.Snap()];
    if !success && !s && !g.violated {
      assert b.occ == a.occ && !FishToClear(b.occ, n, primary, d);
      NoClearExtend(a.occ, n, primary, d);
    }
    success2 := success || s;
  }

  /** No digit below d has a fish to clear in lines of the primary kind. */
  ghost predicate NoClearBelow(occ: map<Slot, set<int>>, n: nat, primary: Kind, d: int)
    requires SlotsIn(occ) && IsLine(primary) && d <= 10
  {
    forall e :: 1 <= e < d ==> !FishToClear(occ, n, primary, e)
  }

  lemma NoClearExtend(occ: map<Slot, set<int>>, n: nat, primary: Kind, d: int)
    requires SlotsIn(occ) && IsLine(primary) && IsDigit(d) && NoClearBelow(occ, n, primary, d) && !FishToClear(occ, n, primary, d)
    ensures NoClearBelow(occ, n, primary, d + 1)
  {
  }

  /**
   * The scan of `ScaledXWing.launch`: the direction loop's two passes, rows
   * first, then columns, each over digits 1 to 9, stopping as soon as the
   * grid is flagged violated before a search. A scan
   * without progress or contradiction leaves the grid as it was and proves
   * it stable under the rule; a stable grid is always left that way.
   */
  method XWingScan(g: Grid, st: Stepper, n: nat) returns (res: Scan, ghost rows: seq<State>, ghost cols: seq<State>)
    requires g.Valid() && n >= 1
    modifies g, st
    ensures g.Valid() && SlotsIn(g.occ)
    ensures Evolves(old(g.Snap()), g.Snap(), old(st.counter), st.counter)
    ensures res == Violated ==> g.violated
    ensures old(g.violated) ==> res == Violated
    ensures res == Scanned(true) ==> Total(g.cand) < old(Total(g.cand))
    ensures res == Scanned(false) && !g.violated ==>
              g.Snap() == old(g.Snap()) && st.counter == old(st.counter) && FishStable(g.occ, n)
    ensures !old(g.violated) && SlotsIn(old(g.occ)) && FishStable(old(g.occ), n) ==>
              res == Scanned(false) && g.Snap() == old(g.Snap()) && st.counter == old(st.counter)
    ensures res != Violated ==>
              && |rows| == 10 && |cols| == 10
              && Trace(rows, old(g.Snap()), cols[0]) && Trace(cols, cols[0], g.Snap())
              && DigitsCleared(rows, n, Row, 9) && DigitsCleared(cols, n, Col, 9)
  {
    ghost var a, c0 := g.Snap(), st.counter;
    ShapeSlots(a);
    FishStableLines(a.occ, n);
    var inRows;
    inRows, rows := XWingLines(g, st, n, Row);
    if inRows == Violated {
      return Violated, rows, [];
    }
    ghost var b, c1 := g.Snap(), st.counter;
    EvolvesTotal(a, b, c0, c1);
    var inCols;
    inCols, cols := XWingLines(g, st, n, Col);
    EvolvesTrans(a, b, g.Snap(), c0, c1, st.counter);
    EvolvesTotal(b, g.Snap(), c1, st.counter);
    if inCols == Violated {
      return Violated, rows, cols;
    }
    ShapeSlots(g.Snap());
    FishStableLines(g.occ, n);
    return Scanned(inRows.progress || inCols.progress), rows, cols;
  }

  /** Stability under the rule is stability in rows and in columns. */
  lemma FishStableLines(occ: map<Slot, set<int>>, n: nat)
    requires SlotsIn(occ)
    ensures FishStable(occ, n) <==> NoClearBelow(occ, n, Row, 10) && NoClearBelow(occ, n, Col, 10)
  {
  }
}
