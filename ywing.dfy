/**
 * `YWing`: an anchor cell with two candidates {a, b} and two "node" cells it
 * sees, holding {a, z} and {b, z}. Whatever the anchor takes, one node takes
 * z, so z is removed from every cell that sees both nodes.
 */
module Wings {
  import opened Wrappers
  import opened Positions
  import opened GridState
  import opened Structure
  import opened Propagation

  /** `_get_tile_range`: the cells sharing a row, a column or a box with t, t itself included. */
  function TileRange(t: int): (rng: set<int>)
    requires IsCell(t)
    ensures forall x :: x in rng <==> IsCell(x) && (x == t || Sees(x, t))
  {
    var rng := Members(Row, GroupOf(t, Row)) + Members(Col, GroupOf(t, Col)) + Members(Box, GroupOf(t, Box));
    rng
  }

  /**
   * `_get_node_candidates`: the cells seen by the anchor that have two
   * candidates, exactly one of them shared with the anchor.
   */
  function NodeCandidates(cand: seq<set<int>>, anchor: int): (nodes: set<int>)
    requires |cand| == 81 && IsCell(anchor)
    ensures forall x :: x in nodes <==>
              IsCell(x) && Sees(x, anchor) && |cand[x]| == 2 && |cand[x] * cand[anchor]| == 1
  {
    assert cand[anchor] * cand[anchor] == cand[anchor];
    set x | x in TileRange(anchor) && |cand[x]| == 2 && |cand[x] * cand[anchor]| == 1
  }

  /**
   * `_eliminate_candidates`: two distinct nodes whose candidates cover the
   * anchor's and share exactly one digit.
   */
  predicate ValidPair(cand: seq<set<int>>, anchor: int, l: int, r: int)
    requires |cand| == 81 && IsCell(anchor)
  {
    && l in NodeCandidates(cand, anchor) && r in NodeCandidates(cand, anchor) && l != r
    && cand[anchor] <= cand[l] + cand[r]
    && |cand[l] * cand[r]| == 1
  }

  /** `common_range`: the cells seeing both nodes, other than the nodes and the anchor. */
  function CommonRange(l: int, r: int, anchor: int): (common: set<int>)
    requires IsCell(l) && IsCell(r) && IsCell(anchor)
    ensures forall x :: x in common <==> IsCell(x) && x != anchor && Sees(x, l) && Sees(x, r)
  {
    (TileRange(l) * TileRange(r)) - {l, r, anchor}
  }

  /** Some cell of `cells` still holds a digit of `which`. */
  ghost predicate Hits(cand: seq<set<int>>, cells: set<int>, which: set<int>)
    requires |cand| == 81
  {
    exists t :: t in cells && IsCell(t) && cand[t] * which != {}
  }

  /**
   * The removal loop of `_find_y_wing_and_remove`: take `which` out of every
   * cell of `cells`, stopping at the first contradiction. It answers true
   * exactly when, without a contradiction, some cell held a digit of `which`
   * to begin with; every cell has then lost `which`, and when no cell held
   * one nothing changes.
   */
  method RemoveFromEach(g: Grid, st: Stepper, cells: set<int>, which: set<int>) returns (r: bool)
    requires g.Valid() && !g.violated
    requires forall t :: t in cells ==> IsCell(t)
    modifies g, st
    ensures g.Valid()
    ensures Evolves(old(g.Snap()), g.Snap(), old(st.counter), st.counter)
    ensures r ==> Total(g.cand) < old(Total(g.cand))
    ensures r <==> !g.violated && Hits(old(g.cand), cells, which)
    ensures !g.violated ==> forall t :: t in cells ==> IsCell(t) && g.cand[t] * which == {}
    ensures !r && !g.violated ==> g.Snap() == old(g.Snap()) && st.counter == old(st.counter)
    ensures !Hits(old(g.cand), cells, which) ==> g.Snap() == old(g.Snap()) && st.counter == old(st.counter)
  {
    ghost var a, c0 := g.Snap(), st.counter;
    EvolvesRefl(a, c0);
    ghost var hits := Hits(a.cand, cells, which);
    var success := false;
    var rest := cells;
    ghost var done: set<int> := {};
    while rest != {}
      invariant rest <= cells <= done + rest
      invariant g.Valid() && !g.violated && Evolves(a, g.Snap(), c0, st.counter)
      invariant success ==> Total(g.cand) < Total(a.cand) && hits
      invariant !success ==> g.Snap() == a && st.counter == c0 && !Hits(a.cand, done, which)
      invariant forall t :: t in done ==> IsCell(t) && g.cand[t] * which == {}
      decreases |rest|
    {
      HasElement(rest);
      var t :| t in rest;
      var removed := RemoveFromOne(g, st, t, which, cells, done, a, c0, success);
      success := success || removed;
      if g.violated {
        return false;
      }
      rest := rest - {t};
      done := done + {t};
    }
    return success;
  }

  /**
   * One step of that loop: take `which` out of cell t. The ghost parameters
   * carry the loop's progress since its start state `a`.
   */
  method RemoveFromOne(g: Grid, st: Stepper, t: int, which: set<int>,
                       ghost cells: set<int>, ghost done: set<int>, ghost a: State, ghost c0: nat, s0: bool)
    returns (ok: bool)
    requires g.Valid() && !g.violated && IsCell(t) && t in cells
    requires Evolves(a, g.Snap(), c0, st.counter)
    requires s0 ==> Total(g.cand) < Total(a.cand) && Hits(a.cand, cells, which)
    requires !s0 ==> g.Snap() == a && st.counter == c0 && !Hits(a.cand, done, which)
    requires forall x :: x in done ==> IsCell(x) && g.cand[x] * which == {}
    modifies g, st
    ensures g.Valid() && Evolves(a, g.Snap(), c0, st.counter)
    ensures ok ==> !g.violated
    ensures s0 || ok ==> Total(g.cand) < Total(a.cand) && Hits(a.cand, cells, which)
    ensures !(s0 || ok) && !g.violated ==>
              g.Snap() == a && st.counter == c0 && !Hits(a.cand, done + {t}, which)
    ensures !g.violated ==> forall x :: x in done + {t} ==> IsCell(x) && g.cand[x] * which == {}
    ensures !s0 && !Hits(a.cand, cells, which) ==> !ok && g.Snap() == a && st.counter == c0
  {
    ghost var b, c1 := g.Snap(), st.counter;
    EvolvesTotal(a, b, c0, c1);
    ok := Remove(g, st, t, which);
    EvolvesTrans(a, b, g.Snap(), c0, c1, st.counter);
    EvolvesTotal(b, g.Snap(), c1, st.counter);
    if !g.violated {
      forall x | x in done
        ensures g.cand[x] * which == {}
      {
        assert g.cand[x] <= b.cand[x];
      }
    }
    if !s0 && !ok && !g.violated {
      assert !Hits(a.cand, done + {t}, which) by {
        assert a.cand[t] * which == {};
      }
    }
    if !s0 && !Hits(a.cand, cells, which) {
      assert a.cand[t] * which == {};
    }
  }

  /** Removing the pair's shared digit would change some cell seeing both nodes. */
  ghost predicate WingClears(cand: seq<set<int>>, anchor: int, l: int, rt: int)
    requires |cand| == 81 && IsCell(anchor) && IsCell(l) && IsCell(rt)
  {
    Hits(cand, CommonRange(l, rt, anchor), cand[l] * cand[rt])
  }

  /**
   * `_find_y_wing_and_remove`: pick a valid pair of nodes for the anchor
   * (the first of `_eliminate_candidates`, whose order comes from a Python
   * set and is left open here) and remove their shared digit from the cells
   * seeing both. When the pair has no such cells it gives up.
   *
   * The ghost result names the pair picked: none exactly when there is no
   * valid pair, and then nothing changes. With a pair, the answer is true
   * exactly when, without a contradiction, some cell seeing both nodes held
   * the shared digit; the digit is then gone from all of them.
   */
  method FindYWingAndRemove(g: Grid, st: Stepper, anchor: int) returns (r: bool, ghost pair: Option<(int, int)>)
    requires g.Valid() && !g.violated && IsCell(anchor)
    modifies g, st
    ensures g.Valid()
    ensures Evolves(old(g.Snap()), g.Snap(), old(st.counter), st.counter)
    ensures r ==> Total(g.cand) < old(Total(g.cand))
    ensures pair.None? <==> forall l, rt :: !ValidPair(old(g.cand), anchor, l, rt)
    ensures pair.None? ==> !r && g.Snap() == old(g.Snap()) && st.counter == old(st.counter)
    ensures pair.Some? ==> ValidPair(old(g.cand), anchor, pair.value.0, pair.value.1)
    ensures pair.Some? ==> (r <==> !g.violated && WingClears(old(g.cand), anchor, pair.value.0, pair.value.1))
    ensures pair.Some? && !g.violated ==>
              forall x :: x in CommonRange(pair.value.0, pair.value.1, anchor) ==>
                g.cand[x] * old(g.cand[pair.value.0] * g.cand[pair.value.1]) == {}
    ensures pair.Some? && !WingClears(old(g.cand), anchor, pair.value.0, pair.value.1) ==>
              g.Snap() == old(g.Snap()) && st.counter == old(st.counter)
    ensures !r && !g.violated ==> g.Snap() == old(g.Snap()) && st.counter == old(st.counter)
  {
    var cand := g.cand;
    var nodes := NodeCandidates(cand, anchor);
    if !exists l, rt | l in nodes && rt in nodes :: ValidPair(cand, anchor, l, rt) {
      return false, None;
    }
    var l, rt :| l in nodes && rt in nodes && ValidPair(cand, anchor, l, rt);
    pair := Some((l, rt));
    var common := CommonRange(l, rt, anchor);
    if common == {} {
      return false, pair;
    }
    r := RemoveFromEach(g, st, common, cand[l] * cand[rt]);
  }

  /** The anchor gives no progress for some choice of pair: it has no valid pair, or one whose removal changes nothing. */
  ghost predicate WingSettled(cand: seq<set<int>>, anchor: int)
    requires |cand| == 81 && IsCell(anchor)
  {
    (exists l, rt :: ValidPair(cand, anchor, l, rt)) ==>
      exists l, rt :: ValidPair(cand, anchor, l, rt) && !WingClears(cand, anchor, l, rt)
  }

  /** The anchor gives no progress whatever pair is chosen. */
  ghost predicate WingBlocked(cand: seq<set<int>>, anchor: int)
    requires |cand| == 81 && IsCell(anchor)
  {
    forall l, rt :: ValidPair(cand, anchor, l, rt) ==> !WingClears(cand, anchor, l, rt)
  }

  /** Every two-candidate anchor below k is settled. */
  ghost predicate WingsSettledBelow(cand: seq<set<int>>, k: int)
    requires |cand| == 81 && k <= 81
  {
    forall x :: 0 <= x < k && |cand[x]| == 2 ==> WingSettled(cand, x)
  }

  /** Every two-candidate anchor below k is blocked. */
  ghost predicate WingsBlockedBelow(cand: seq<set<int>>, k: int)
    requires |cand| == 81 && k <= 81
  {
    forall x :: 0 <= x < k && |cand[x]| == 2 ==> WingBlocked(cand, x)
  }

  lemma WingsSettledExtend(cand: seq<set<int>>, k: int)
    requires |cand| == 81 && 0 <= k < 81 && WingsSettledBelow(cand, k)
    requires |cand[k]| == 2 ==> WingSettled(cand, k)
    ensures WingsSettledBelow(cand, k + 1)
  {
  }

  /**
   * One anchor of the scan, with two candidates and no violation: the
   * ghost parameters carry the scan's progress since its start state `a`.
   */
  method YWingAnchor(g: Grid, st: Stepper, anchor: int, ghost a: State, ghost c0: nat, s0: bool) returns (s: bool)
    requires g.Valid() && !g.violated && IsCell(anchor)
    requires Evolves(a, g.Snap(), c0, st.counter)
    requires s0 ==> Total(g.cand) < Total(a.cand)
    requires !s0 ==> g.Snap() == a && st.counter == c0
    modifies g, st
    ensures g.Valid() && Evolves(a, g.Snap(), c0, st.counter)
    ensures s0 ==> s
    ensures s ==> Total(g.cand) < Total(a.cand)
    ensures !s && !g.violated ==> g.Snap() == a && st.counter == c0 && WingSettled(a.cand, anchor)
    ensures !s0 && WingBlocked(a.cand, anchor) ==> !s && g.Snap() == a && st.counter == c0
    ensures Evolves(old(g.Snap()), g.Snap(), old(st.counter), st.counter)
    ensures !g.violated ==> WingDealt(old(g.Snap()), g.Snap(), anchor)
  {
    ghost var b, c1 := g.Snap(), st.counter;
    EvolvesTotal(a, b, c0, c1);
    var r, pair := FindYWingAndRemove(g, st, anchor);
    EvolvesTrans(a, b, g.Snap(), c0, c1, st.counter);
    EvolvesTotal(b, g.Snap(), c1, st.counter);
    s := s0 || r;
    if !s && !g.violated && pair.Some? {
      assert ValidPair(a.cand, anchor, pair.value.0, pair.value.1);
    }
    if !g.violated && pair.Some? {
      assert PairCleared(b.cand, g.cand, anchor, pair.value.0, pair.value.1);
    }
  }

  /** The shared digit of the pair (l, rt) of state a is gone in b from every cell seeing both nodes. */
  ghost predicate PairCleared(a: seq<set<int>>, b: seq<set<int>>, anchor: int, l: int, rt: int)
    requires |a| == 81 && |b| == 81 && IsCell(anchor) && ValidPair(a, anchor, l, rt)
  {
    forall x :: x in CommonRange(l, rt, anchor) ==> b[x] * (a[l] * a[rt]) == {}
  }

  /**
   * The anchor was dealt with between states a and b: the shared digit of
   * some valid pair of a is gone in b from every cell seeing both nodes,
   * or a has no valid pair and nothing changed.
   */
  ghost predicate WingDealt(a: State, b: State, anchor: int)
  {
    && |a.cand| == 81 && |b.cand| == 81 && IsCell(anchor)
    && if exists l, rt :: ValidPair(a.cand, anchor, l, rt)
       then exists l, rt :: ValidPair(a.cand, anchor, l, rt) && PairCleared(a.cand, b.cand, anchor, l, rt)
       else b == a
  }

  /**
   * Each anchor x below k, reached in state `tr[x]`, was passed over when it
   * did not have two candidates, and otherwise dealt with unless its search
   * left the grid flagged violated.
   */
  ghost predicate AnchorsSwept(tr: seq<State>, k: int)
    requires 0 <= k < |tr| && k <= 81
  {
    forall x :: 0 <= x < k ==>
      && |tr[x].cand| == 81
      && (|tr[x].cand[x]| != 2 ==> tr[x + 1] == tr[x])
      && (|tr[x].cand[x]| == 2 && !tr[x + 1].violated ==> WingDealt(tr[x], tr[x + 1], x))
  }

  lemma AnchorsSweptExtend(tr: seq<State>, k: int, c: State)
    requires 0 <= k < 81 && |tr| == k + 1 && |tr[k].cand| == 81 && AnchorsSwept(tr, k)
    requires |tr[k].cand[k]| != 2 ==> c == tr[k]
    requires |tr[k].cand[k]| == 2 && !c.violated ==> WingDealt(tr[k], c, k)
    ensures AnchorsSwept(tr + [c], k + 1)
  {
    var tr2 := tr + [c];
    forall x | 0 <= x < k + 1
      ensures tr2[x] == tr[x]
    {
    }
    assert tr2[k + 1] == c;
  }

  /**
   * What the scan over anchors below k, begun in state a with counter c0,
   * has established in state b with counter c1.
   */
  ghost predicate WingsSoFar(a: State, b: State, c0: nat, c1: nat, k: int, success: bool, trace: seq<State>)
  {
    && 0 <= k <= 81
    && Evolves(a, b, c0, c1)
    && (success ==> Total(b.cand) < Total(a.cand))
    && (!success && !b.violated ==> b == a && c1 == c0 && WingsSettledBelow(a.cand, k))
    && (!a.violated && WingsBlockedBelow(a.cand, 81) ==> !success && !b.violated)
    && |trace| == k + 1 && Trace(trace, a, b) && AnchorsSwept(trace, k)
  }

  /** One anchor of `YWing.launch`, appended to the trace of the scan begun in state a. */
  method YWingStep(g: Grid, st: Stepper, anchor: int, ghost a: State, ghost c0: nat, success: bool, ghost trace: seq<State>)
    returns (success2: bool, ghost trace2: seq<State>)
    requires g.Valid() && IsCell(anchor) && (g.nOpts[anchor] == 2 ==> !g.violated)
    requires WingsSoFar(a, g.Snap(), c0, st.counter, anchor, success, trace)
    modifies g, st
    ensures g.Valid() && WingsSoFar(a, g.Snap(), c0, st.counter, anchor + 1, success2, trace2)
  {
    ghost var b, c1 := g.Snap(), st.counter;
    success2 := success;
    if g.nOpts[anchor] == 2 {
      success2 := YWingAnchor(g, st, anchor, a, c0, success);
    } else {
      EvolvesRefl(b, c1);
    }
    if !success2 && !g.violated {
      WingsSettledExtend(a.cand, anchor);
    }
    TraceExtend(trace, a, b, g.Snap(), c1, st.counter);
    assert trace[anchor] == b;
    AnchorsSweptExtend(trace, anchor, g.Snap());
    trace2 := trace + [g.Snap()];
  }

  /**
   * The scan of `YWing.launch`: every cell that has two candidates when the
   * scan reaches it serves as anchor, stopping as soon as the grid is flagged
   * violated before a search. A scan without progress or contradiction
   * leaves the grid as it was with every two-candidate anchor settled; a
   * grid whose anchors are all blocked is always left that way.
   */
  method YWingScan(g: Grid, st: Stepper) returns (res: Scan, ghost trace: seq<State>)
    requires g.Valid()
    modifies g, st
    ensures g.Valid()
    ensures Evolves(old(g.Snap()), g.Snap(), old(st.counter), st.counter)
    ensures res == Violated ==> g.violated
    ensures res == Scanned(true) ==> Total(g.cand) < old(Total(g.cand))
    ensures res == Scanned(false) && !g.violated ==>
              g.Snap() == old(g.Snap()) && st.counter == old(st.counter) && WingsSettledBelow(g.cand, 81)
    ensures !old(g.violated) && WingsBlockedBelow(old(g.cand), 81) ==>
              res == Scanned(false) && g.Snap() == old(g.Snap()) && st.counter == old(st.counter)
    ensures res != Violated ==> |trace| == 82 && Trace(trace, old(g.Snap()), g.Snap()) && AnchorsSwept(trace, 81)
  {
    ghost var a, c0 := g.Snap(), st.counter;
    EvolvesRefl(a, c0);
    TraceStart(a);
    trace := [a];
    var success := false;
    var anchor := 0;
    while anchor < 81
      invariant g.Valid() && WingsSoFar(a, g.Snap(), c0, st.counter, anchor, success, trace)
    {
      if g.nOpts[anchor] == 2 && g.violated {
        return Violated, trace;
      }
      success, trace := YWingStep(g, st, anchor, a, c0, success, trace);
      anchor := anchor + 1;
    }
    return Scanned(success), trace;
  }
}
