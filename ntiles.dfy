/**
 * `NTilesNOptions`: the naked single / pair / triple rule. When n tiles of a
 * row, column or box have the same n candidates, those n digits are removed
 * from every other tile of that group, always through the remover.
 */
module NTiles {
  import opened Positions
  import opened GridState
  import opened Structure
  import opened Propagation

  /**
   * `_get_equivalent_tiles`: a tile with one candidate matches only itself;
   * otherwise the matches are all tiles of the group with the very same
   * candidate set, kept only when there are as many of them as candidates.
   */
  function EquivalentTiles(cand: seq<set<int>>, kind: Kind, grp: int, t: int): (m: set<int>)
    requires |cand| == 81 && IsGroup(grp) && t in Members(kind, grp)
    ensures |cand[t]| == 1 ==> m == {t}
    ensures m != {} ==> t in m && |m| == |cand[t]| && m <= Members(kind, grp)
    ensures forall x :: x in m ==> cand[x] == cand[t]
    ensures |cand[t]| != 1 && m != {} ==> forall x :: x in Members(kind, grp) && cand[x] == cand[t] ==> x in m
    ensures |cand[t]| != 1 && m == {} ==> |set x | x in Members(kind, grp) && cand[x] == cand[t]| != |cand[t]|
  {
    if |cand[t]| == 1 then {t}
    else
      var same := set x | x in Members(kind, grp) && cand[x] == cand[t];
      if |same| == |cand[t]| then same else {}
  }

  /** Every tile of `others` shares no candidate with tile t. */
  ghost predicate AvoidAll(cand: seq<set<int>>, others: set<int>, t: int)
    requires |cand| == 81 && IsCell(t)
  {
    forall x :: x in others ==> IsCell(x) && cand[x] * cand[t] == {}
  }

  /** Every tile of the group outside m shares no candidate with tile t. */
  ghost predicate SeedCleared(cand: seq<set<int>>, kind: Kind, grp: int, t: int, m: set<int>)
    requires |cand| == 81 && IsGroup(grp) && t in Members(kind, grp)
  {
    AvoidAll(cand, Members(kind, grp) - m, t)
  }

  /** Seed t has nothing left to give: if it has n matches, the other tiles of the group avoid its candidates. */
  ghost predicate SeedStable(cand: seq<set<int>>, kind: Kind, grp: int, n: nat, t: int)
    requires |cand| == 81 && IsGroup(grp) && t in Members(kind, grp)
  {
    |EquivalentTiles(cand, kind, grp, t)| == n ==> SeedCleared(cand, kind, grp, t, EquivalentTiles(cand, kind, grp, t))
  }

  /** `_n_times_n_options_removal_container` has nothing to remove in this group. */
  ghost predicate GroupStable(cand: seq<set<int>>, kind: Kind, grp: int, n: nat)
    requires |cand| == 81 && IsGroup(grp)
  {
    forall t :: t in Members(kind, grp) ==> SeedStable(cand, kind, grp, n, t)
  }

  /** `NTilesNOptions(n)` has nothing to remove in any row, column or box. */
  ghost predicate NTilesStable(cand: seq<set<int>>, n: nat)
    requires |cand| == 81
  {
    forall kind, grp :: IsGroup(grp) ==> GroupStable(cand, kind, grp, n)
  }

  /** A record of seed t having been applied with match set m, as it stands in grid `cand`. */
  ghost predicate Applied(cand: seq<set<int>>, kind: Kind, grp: int, n: nat, t: int, m: set<int>)
    requires |cand| == 81 && IsGroup(grp)
  {
    && t in Members(kind, grp) && t in m && m <= Members(kind, grp) && |m| == n
    && SeedCleared(cand, kind, grp, t, m)
  }

  /** Candidates only shrink, so a cleared seed stays cleared. */
  lemma SeedClearedKept(b: State, c: State, c0: nat, c1: nat, kind: Kind, grp: int, t: int, m: set<int>)
    requires Evolves(b, c, c0, c1) && IsGroup(grp) && t in Members(kind, grp)
    requires SeedCleared(b.cand, kind, grp, t, m)
    ensures SeedCleared(c.cand, kind, grp, t, m)
  {
    DisjointKept(b, c, c0, c1, Members(kind, grp) - m, t);
  }

  /** Every applied seed stays applied as the grid evolves. */
  lemma AppliedKept(b: State, c: State, c0: nat, c1: nat, kind: Kind, grp: int, n: nat, applied: map<int, set<int>>)
    requires Evolves(b, c, c0, c1) && IsGroup(grp)
    requires forall s :: s in applied ==> Applied(b.cand, kind, grp, n, s, applied[s])
    ensures forall s :: s in applied ==> Applied(c.cand, kind, grp, n, s, applied[s])
  {
    forall s | s in applied
      ensures Applied(c.cand, kind, grp, n, s, applied[s])
    {
      SeedClearedKept(b, c, c0, c1, kind, grp, s, applied[s]);
    }
  }

  /** The container lists the whole group, so a stable prefix of all nine is a stable group. */
  lemma ContainerStable(cand: seq<set<int>>, kind: Kind, grp: int, n: nat)
    requires |cand| == 81 && IsGroup(grp)
    requires SeedsStableBelow(cand, kind, grp, n, 9)
    ensures GroupStable(cand, kind, grp, n)
  {
    ContainerIsGroup(kind, grp);
    forall t | t in Members(kind, grp)
      ensures SeedStable(cand, kind, grp, n, t)
    {
      assert Container(kind, grp)[SlotInGroup(t, kind)] == t;
    }
  }

  /**
   * The inner loop of `_n_times_n_options_removal_container`: the seed's
   * current candidates are removed from each unmatched tile of the group in
   * turn, stopping at a violation. True when some removal answered true.
   */
  method RemoveShared(g: Grid, st: Stepper, unmatched: set<int>, t: int) returns (r: bool)
    requires g.Valid() && !g.violated && IsCell(t) && forall x :: x in unmatched ==> IsCell(x)
    modifies g, st
    ensures g.Valid()
    ensures Evolves(old(g.Snap()), g.Snap(), old(st.counter), st.counter)
    ensures r ==> Total(g.cand) < old(Total(g.cand))
    ensures !g.violated ==> AvoidAll(g.cand, unmatched, t)
    ensures !r && !g.violated ==> g.Snap() == old(g.Snap()) && st.counter == old(st.counter)
    ensures AvoidAll(old(g.cand), unmatched, t) ==> !r && g.Snap() == old(g.Snap()) && st.counter == old(st.counter)
  {
    ghost var a, c0 := g.Snap(), st.counter;
    EvolvesRefl(a, c0);
    ghost var cleared := AvoidAll(a.cand, unmatched, t);
    r := false;
    var rest := unmatched;
    ghost var done: set<int> := {};
    while rest != {}
      invariant rest <= unmatched <= done + rest
      invariant g.Valid() && !g.violated && Evolves(a, g.Snap(), c0, st.counter)
      invariant r ==> Total(g.cand) < Total(a.cand)
      invariant !r ==> g.Snap() == a && st.counter == c0
      invariant forall x :: x in done ==> IsCell(x) && g.cand[x] * g.cand[t] == {}
      invariant cleared ==> !r
      decreases |rest|
    {
      HasElement(rest);
      var u :| u in rest;
      rest := rest - {u};
      var ok := RemoveSharedFrom(g, st, u, t, done, a, c0, r);
      r := r || ok;
      if g.violated {
        return;
      }
      done := done + {u};
    }
  }

  /**
   * One step of that loop: tile t's current candidates are removed from
   * tile u. Tiles already disjoint from t stay so, and u joins them. The
   * ghost parameters carry the loop's progress since its start state `a`.
   */
  method RemoveSharedFrom(g: Grid, st: Stepper, u: int, t: int, ghost done: set<int>, ghost a: State, ghost c0: nat, ghost r0: bool)
    returns (ok: bool)
    requires g.Valid() && !g.violated && IsCell(u) && IsCell(t)
    requires Evolves(a, g.Snap(), c0, st.counter)
    requires r0 ==> Total(g.cand) < Total(a.cand)
    requires !r0 ==> g.Snap() == a && st.counter == c0
    requires forall x :: x in done ==> IsCell(x) && g.cand[x] * g.cand[t] == {}
    modifies g, st
    ensures g.Valid() && Evolves(a, g.Snap(), c0, st.counter)
    ensures r0 || ok ==> Total(g.cand) < Total(a.cand)
    ensures !(r0 || ok) && !g.violated ==> g.Snap() == a && st.counter == c0
    ensures !r0 && a.cand[u] * a.cand[t] == {} ==> !ok && g.Snap() == a && st.counter == c0
    ensures !g.violated ==> forall x :: x in done + {u} ==> IsCell(x) && g.cand[x] * g.cand[t] == {}
  {
    ghost var b, c1 := g.Snap(), st.counter;
    EvolvesTotal(a, b, c0, c1);
    var which := g.cand[t];
    ok := Remove(g, st, u, which);
    EvolvesTrans(a, b, g.Snap(), c0, c1, st.counter);
    if !g.violated {
      DisjointKept(b, g.Snap(), c1, st.counter, done, t);
      assert g.cand[u] * g.cand[t] == {} by {
        assert g.cand[t] <= which;
        if b.cand[u] * which != {} {
          assert g.cand[u] <= b.cand[u] - which;
        }
      }
    }
  }

  /** Candidates only shrink, so tiles disjoint from tile t stay disjoint from it. */
  lemma DisjointKept(b: State, c: State, c0: nat, c1: nat, done: set<int>, t: int)
    requires Evolves(b, c, c0, c1) && IsCell(t)
    requires forall x :: x in done ==> IsCell(x) && b.cand[x] * b.cand[t] == {}
    ensures forall x :: x in done ==> IsCell(x) && c.cand[x] * c.cand[t] == {}
  {
    forall x | x in done
      ensures c.cand[x] * c.cand[t] == {}
    {
      assert c.cand[x] <= b.cand[x] && c.cand[t] <= b.cand[t];
    }
  }

  /**
   * `_n_times_n_options_removal_container`: for every tile of the group (in
   * order) whose match set has size n, remove that tile's candidates from
   * every unmatched tile of the group. True when some removal took effect
   * and no violation followed; a violation answers false at once.
   *
   * The ghost map records each seed applied with its match set: without a
   * violation, every unmatched tile of the group ends up avoiding the
   * seed's candidates. Without progress the group is stable under the rule,
   * and a stable group is left as it was.
   */
  method NTilesContainer(g: Grid, st: Stepper, kind: Kind, grp: int, n: nat)
    returns (success: bool, ghost applied: map<int, set<int>>, ghost trace: seq<State>)
    requires g.Valid() && !g.violated && IsGroup(grp) && n >= 1
    modifies g, st
    ensures g.Valid()
    ensures Evolves(old(g.Snap()), g.Snap(), old(st.counter), st.counter)
    ensures success ==> !g.violated && Total(g.cand) < old(Total(g.cand))
    ensures !g.violated ==> forall t :: t in applied ==> Applied(g.cand, kind, grp, n, t, applied[t])
    ensures !success && !g.violated ==>
              g.Snap() == old(g.Snap()) && st.counter == old(st.counter) && GroupStable(g.cand, kind, grp, n)
    ensures GroupStable(old(g.cand), kind, grp, n) ==>
              !success && g.Snap() == old(g.Snap()) && st.counter == old(st.counter)
    ensures !g.violated ==>
              |trace| == 10 && Trace(trace, old(g.Snap()), g.Snap()) && SeedsApplied(trace, kind, grp, n, applied, 9)
  {
    ghost var a, c0 := g.Snap(), st.counter;
    EvolvesRefl(a, c0);
    TraceStart(a);
    ghost var stable := GroupStable(a.cand, kind, grp, n);
    var container := Container(kind, grp);
    ContainerIsGroup(kind, grp);
    success := false;
    applied := map[];
    trace := [a];
    var j := 0;
    while j < 9
      invariant 0 <= j <= 9
      invariant g.Valid() && !g.violated && Evolves(a, g.Snap(), c0, st.counter)
      invariant success ==> Total(g.cand) < Total(a.cand)
      invariant !success ==> g.Snap() == a && st.counter == c0
      invariant forall t :: t in applied ==> Applied(g.cand, kind, grp, n, t, applied[t])
      invariant !success ==> SeedsStableBelow(a.cand, kind, grp, n, j)
      invariant stable ==> !success
      invariant |trace| == j + 1 && Trace(trace, a, g.Snap()) && SeedsApplied(trace, kind, grp, n, applied, j)
    {
      var t := container[j];
      assert t in Members(kind, grp);
      ghost var b, c1, before := g.Snap(), st.counter, applied;
      success, applied := ApplySeed(g, st, kind, grp, n, t, applied, a, c0, success);
      if g.violated {
        return false, applied, trace;
      }
      TraceExtend(trace, a, b, g.Snap(), c1, st.counter);
      if applied != before {
        SeedsAppliedRecord(trace, kind, grp, n, before, j, applied[t]);
      }
      SeedsAppliedAppend(trace, kind, grp, n, applied, j, g.Snap());
      trace := trace + [g.Snap()];
      if !success {
        SeedsStableExtend(a.cand, kind, grp, n, j);
      }
      j := j + 1;
    }
    if !success {
      ContainerStable(a.cand, kind, grp, n);
    }
  }

  /** Seed t, as it stands in `cand`, was applied with its match set whenever that set has n tiles. */
  ghost predicate SeedApplied(cand: seq<set<int>>, kind: Kind, grp: int, n: nat, applied: map<int, set<int>>, t: int)
    requires |cand| == 81 && IsGroup(grp) && t in Members(kind, grp)
  {
    |EquivalentTiles(cand, kind, grp, t)| == n ==> t in applied && applied[t] == EquivalentTiles(cand, kind, grp, t)
  }

  /**
   * Each of the first j seeds of the container, reached in state `tr[i]`,
   * was applied with the match set it had there whenever that set had n
   * tiles.
   */
  ghost predicate SeedsApplied(tr: seq<State>, kind: Kind, grp: int, n: nat, applied: map<int, set<int>>, j: int)
    requires IsGroup(grp) && 0 <= j < |tr| && j <= 9
  {
    forall i :: 0 <= i < j ==>
      && Container(kind, grp)[i] in Members(kind, grp) && |tr[i].cand| == 81
      && SeedApplied(tr[i].cand, kind, grp, n, applied, Container(kind, grp)[i])
  }

  /** Recording another seed keeps the record of seed t. */
  lemma SeedAppliedKept(cand: seq<set<int>>, kind: Kind, grp: int, n: nat, applied: map<int, set<int>>,
                        t: int, u: int, m: set<int>)
    requires |cand| == 81 && IsGroup(grp) && t in Members(kind, grp) && t != u
    requires SeedApplied(cand, kind, grp, n, applied, t)
    ensures SeedApplied(cand, kind, grp, n, applied[u := m], t)
  {
  }

  /** Recording the j-th seed keeps the record of the seeds before it. */
  lemma SeedsAppliedRecord(tr: seq<State>, kind: Kind, grp: int, n: nat, applied: map<int, set<int>>, j: int, m: set<int>)
    requires IsGroup(grp) && 0 <= j < 9 && j < |tr| && SeedsApplied(tr, kind, grp, n, applied, j)
    ensures SeedsApplied(tr, kind, grp, n, applied[Container(kind, grp)[j] := m], j)
  {
    var cs := Container(kind, grp);
    forall i | 0 <= i < j
      ensures SeedApplied(tr[i].cand, kind, grp, n, applied[cs[j] := m], cs[i])
    {
      CellOfAscending(kind, grp, i, j);
      SeedAppliedKept(tr[i].cand, kind, grp, n, applied, cs[i], cs[j], m);
    }
  }

  /** The seed reached in the last state of the trace, once recorded, extends the record by one state. */
  lemma SeedsAppliedAppend(tr: seq<State>, kind: Kind, grp: int, n: nat, applied: map<int, set<int>>, j: int, c: State)
    requires IsGroup(grp) && 0 <= j < 9 && |tr| == j + 1 && |tr[j].cand| == 81
    requires SeedsApplied(tr, kind, grp, n, applied, j)
    requires Container(kind, grp)[j] in Members(kind, grp)
    requires SeedApplied(tr[j].cand, kind, grp, n, applied, Container(kind, grp)[j])
    ensures SeedsApplied(tr + [c], kind, grp, n, applied, j + 1)
  {
    var tr2 := tr + [c];
    forall i | 0 <= i < j + 1
      ensures tr2[i] == tr[i]
    {
    }
  }

  /** The first j tiles of the container are stable seeds. */
  ghost predicate SeedsStableBelow(cand: seq<set<int>>, kind: Kind, grp: int, n: nat, j: int)
    requires |cand| == 81 && IsGroup(grp) && j <= 9
  {
    forall i :: 0 <= i < j ==> Container(kind, grp)[i] in Members(kind, grp)
                               && SeedStable(cand, kind, grp, n, Container(kind, grp)[i])
  }

  lemma SeedsStableExtend(cand: seq<set<int>>, kind: Kind, grp: int, n: nat, j: int)
    requires |cand| == 81 && IsGroup(grp) && 0 <= j < 9 && SeedsStableBelow(cand, kind, grp, n, j)
    requires Container(kind, grp)[j] in Members(kind, grp) && SeedStable(cand, kind, grp, n, Container(kind, grp)[j])
    ensures SeedsStableBelow(cand, kind, grp, n, j + 1)
  {
  }

  /**
   * One tile of that loop: when its match set has size n, its candidates
   * are removed from the unmatched tiles of the group. The ghost parameters
   * carry the loop's progress since its start state `a`.
   */
  method ApplySeed(g: Grid, st: Stepper, kind: Kind, grp: int, n: nat, t: int,
                   ghost applied: map<int, set<int>>, ghost a: State, ghost c0: nat, s0: bool)
    returns (s: bool, ghost applied2: map<int, set<int>>)
    requires g.Valid() && !g.violated && IsGroup(grp) && n >= 1 && t in Members(kind, grp)
    requires Evolves(a, g.Snap(), c0, st.counter)
    requires s0 ==> Total(g.cand) < Total(a.cand)
    requires !s0 ==> g.Snap() == a && st.counter == c0
    requires forall x :: x in applied ==> Applied(g.cand, kind, grp, n, x, applied[x])
    modifies g, st
    ensures g.Valid() && Evolves(a, g.Snap(), c0, st.counter)
    ensures Evolves(old(g.Snap()), g.Snap(), old(st.counter), st.counter)
    ensures s0 ==> s
    ensures s ==> Total(g.cand) < Total(a.cand)
    ensures !s && !g.violated ==> g.Snap() == a && st.counter == c0 && SeedStable(a.cand, kind, grp, n, t)
    ensures !s0 && SeedStable(a.cand, kind, grp, n, t) ==> !s && g.Snap() == a && st.counter == c0
    ensures !g.violated ==> forall x :: x in applied2 ==> Applied(g.cand, kind, grp, n, x, applied2[x])
    ensures !g.violated ==> applied2 == applied || applied2 == applied[t := EquivalentTiles(old(g.cand), kind, grp, t)]
    ensures !g.violated ==> SeedApplied(old(g.cand), kind, grp, n, applied2, t)
  {
    s, applied2 := s0, applied;
    EvolvesRefl(g.Snap(), st.counter);
    EvolvesTotal(a, g.Snap(), c0, st.counter);
    var matches := EquivalentTiles(g.cand, kind, grp, t);
    if |matches| == n {
      ghost var b, c1 := g.Snap(), st.counter;
      var r := RemoveShared(g, st, Members(kind, grp) - matches, t);
      EvolvesTrans(a, b, g.Snap(), c0, c1, st.counter);
      EvolvesTotal(b, g.Snap(), c1, st.counter);
      s := s0 || r;
      if !g.violated {
        AppliedKept(b, g.Snap(), c1, st.counter, kind, grp, n, applied);
        applied2 := applied[t := matches];
      }
    }
  }

  /** The groups of one kind below grp are stable. */
  ghost predicate KindStableBelow(cand: seq<set<int>>, kind: Kind, n: nat, grp: int)
    requires |cand| == 81 && grp <= 9
  {
    forall h :: 0 <= h < grp ==> GroupStable(cand, kind, h, n)
  }

  lemma KindStableExtend(cand: seq<set<int>>, kind: Kind, n: nat, grp: int)
    requires |cand| == 81 && IsGroup(grp) && KindStableBelow(cand, kind, n, grp) && GroupStable(cand, kind, grp, n)
    ensures KindStableBelow(cand, kind, n, grp + 1)
  {
  }

  /**
   * One kind of the scan of `NTilesNOptions.launch`: groups 0 to 8, stopping
   * as soon as the grid is flagged violated before a group.
   */
  method NTilesKind(g: Grid, st: Stepper, n: nat, kind: Kind) returns (res: Scan, ghost trace: seq<State>)
    requires g.Valid() && n >= 1
    modifies g, st
    ensures g.Valid()
    ensures Evolves(old(g.Snap()), g.Snap(), old(st.counter), st.counter)
    ensures res == Violated ==> g.violated
    ensures old(g.violated) ==> res == Violated
    ensures res == Scanned(true) ==> Total(g.cand) < old(Total(g.cand))
    ensures res == Scanned(false) && !g.violated ==>
              g.Snap() == old(g.Snap()) && st.counter == old(st.counter) && KindStableBelow(g.cand, kind, n, 9)
    ensures !old(g.violated) && KindStableBelow(old(g.cand), kind, n, 9) ==>
              res == Scanned(false) && g.Snap() == old(g.Snap()) && st.counter == old(st.counter)
    ensures res != Violated ==> |trace| == 10 && Trace(trace, old(g.Snap()), g.Snap()) && GroupsSwept(trace, kind, n, 9)
  {
    ghost var a, c0 := g.Snap(), st.counter;
    EvolvesRefl(a, c0);
    TraceStart(a);
    trace := [a];
    ghost var stable := !a.violated && KindStableBelow(a.cand, kind, n, 9);
    var success := false;
    var grp := 0;
    while grp < 9
      invariant 0 <= grp <= 9
      invariant a.violated ==> grp == 0
      invariant g.Valid() && Evolves(a, g.Snap(), c0, st.counter)
      invariant success ==> Total(g.cand) < Total(a.cand)
      invariant !success && !g.violated ==> g.Snap() == a && st.counter == c0
      invariant !success && !g.violated ==> KindStableBelow(a.cand, kind, n, grp)
      invariant stable ==> !success && !g.violated
      invariant |trace| == grp + 1 && Trace(trace, a, g.Snap()) && GroupsSwept(trace, kind, n, grp)
    {
      if g.violated {
        return Violated, trace;
      }
      ghost var b, c1 := g.Snap(), st.counter;
      EvolvesTotal(a, b, c0, c1);
      ghost var seeds, steps;
      var s;
      s, seeds, steps := NTilesContainer(g, st, kind, grp, n);
      EvolvesTrans(a, b, g.Snap(), c0, c1, st.counter);
      EvolvesTotal(b, g.Snap(), c1, st.counter);
      TraceExtend(trace, a, b, g.Snap(), c1, st.counter);
      GroupsSweptExtend(trace, kind, n, grp, g.Snap());
      trace := trace + [g.Snap()];
      if !success && !s && !g.violated {
        KindStableExtend(a.cand, kind, n, grp);
      }
      if s {
        success := true;
      }
      grp := grp + 1;
    }
    return Scanned(success), trace;
  }

  /**
   * Each of the first h groups of the kind, reached in state `tr[i]`, was
   * handled: the step after it changed the candidates, raised `violated`, or
   * found the group with nothing left to remove.
   */
  ghost predicate GroupsSwept(tr: seq<State>, kind: Kind, n: nat, h: int)
    requires 0 <= h < |tr| && h <= 9
  {
    forall i :: 0 <= i < h ==>
      && |tr[i].cand| == 81
      && (!tr[i + 1].violated && tr[i + 1].cand == tr[i].cand ==> GroupStable(tr[i].cand, kind, i, n))
  }

  lemma GroupsSweptExtend(tr: seq<State>, kind: Kind, n: nat, h: int, c: State)
    requires 0 <= h < 9 && |tr| == h + 1 && |tr[h].cand| == 81 && GroupsSwept(tr, kind, n, h)
    requires !c.violated && c.cand == tr[h].cand ==> GroupStable(tr[h].cand, kind, h, n)
    ensures GroupsSwept(tr + [c], kind, n, h + 1)
  {
    var tr2 := tr + [c];
    forall i | 0 <= i < h + 1
      ensures && |tr2[i].cand| == 81
              && (!tr2[i + 1].violated && tr2[i + 1].cand == tr2[i].cand ==> GroupStable(tr2[i].cand, kind, i, n))
    {
      assert tr2[i] == tr[i];
      if i < h {
        assert tr2[i + 1] == tr[i + 1];
      }
    }
  }

  /**
   * The scan of `NTilesNOptions.launch`: every row, then every column, then
   * every box. A scan without progress or contradiction leaves the grid as
   * it was and proves it stable under the rule; a stable grid is always
   * left that way.
   */
  method NTilesScan(g: Grid, st: Stepper, n: nat) returns (res: Scan, ghost trace: seq<State>)
    requires g.Valid() && n >= 1
    modifies g, st
    ensures g.Valid()
    ensures Evolves(old(g.Snap()), g.Snap(), old(st.counter), st.counter)
    ensures res == Violated ==> g.violated
    ensures old(g.violated) ==> res == Violated
    ensures res == Scanned(true) ==> Total(g.cand) < old(Total(g.cand))
    ensures res == Scanned(false) && !g.violated ==>
              g.Snap() == old(g.Snap()) && st.counter == old(st.counter) && NTilesStable(g.cand, n)
    ensures !old(g.violated) && NTilesStable(old(g.cand), n) ==>
              res == Scanned(false) && g.Snap() == old(g.Snap()) && st.counter == old(st.counter)
    ensures res != Violated ==> |trace| == 4 && Trace(trace, old(g.Snap()), g.Snap()) && KindsSwept(trace, n, 3)
  {
    ghost var a, c0 := g.Snap(), st.counter;
    EvolvesRefl(a, c0);
    TraceStart(a);
    trace := [a];
    NTilesStableKinds(a.cand, n);
    ghost var stable := !a.violated && NTilesStable(a.cand, n);
    var success := false;
    var k := 0;
    while k < 3
      invariant 0 <= k <= 3
      invariant a.violated ==> k == 0
      invariant g.Valid() && Evolves(a, g.Snap(), c0, st.counter)
      invariant success ==> Total(g.cand) < Total(a.cand)
      invariant !success && !g.violated ==> g.Snap() == a && st.counter == c0
      invariant !success && !g.violated ==> KindsStableBelow(a.cand, n, k)
      invariant stable ==> !success && !g.violated
      invariant |trace| == k + 1 && Trace(trace, a, g.Snap()) && KindsSwept(trace, n, k)
    {
      ghost var b, c1 := g.Snap(), st.counter;
      EvolvesTotal(a, b, c0, c1);
      ghost var groups;
      var s;
      s, groups := NTilesKind(g, st, n, Kinds[k]);
      EvolvesTrans(a, b, g.Snap(), c0, c1, st.counter);
      EvolvesTotal(b, g.Snap(), c1, st.counter);
      if s == Violated {
        return Violated, trace;
      }
      TraceExtend(trace, a, b, g.Snap(), c1, st.counter);
      if !g.violated && g.cand == b.cand {
        assert !s.progress;
      }
      assert trace[k] == b;
      KindsSweptExtend(trace, n, k, g.Snap());
      trace := trace + [g.Snap()];
      if !success && !s.progress && !g.violated {
        KindsStableExtend(a.cand, n, k);
      }
      if s.progress {
        success := true;
      }
      k := k + 1;
    }
    NTilesStableKinds(g.cand, n);
    return Scanned(success), trace;
  }

  /**
   * Each of the first k kinds, reached in state `tr[i]`, was swept: the
   * step after it changed the candidates, raised `violated`, or found no
   * group of that kind with anything left to remove.
   */
  ghost predicate KindsSwept(tr: seq<State>, n: nat, k: int)
    requires 0 <= k < |tr| && k <= 3
  {
    forall i :: 0 <= i < k ==>
      && |tr[i].cand| == 81
      && (!tr[i + 1].violated && tr[i + 1].cand == tr[i].cand ==> KindStableBelow(tr[i].cand, Kinds[i], n, 9))
  }

  lemma KindsSweptExtend(tr: seq<State>, n: nat, k: int, c: State)
    requires 0 <= k < 3 && |tr| == k + 1 && |tr[k].cand| == 81 && KindsSwept(tr, n, k)
    requires !c.violated && c.cand == tr[k].cand ==> KindStableBelow(tr[k].cand, Kinds[k], n, 9)
    ensures KindsSwept(tr + [c], n, k + 1)
  {
    var tr2 := tr + [c];
    forall i | 0 <= i < k + 1
      ensures && |tr2[i].cand| == 81
              && (!tr2[i + 1].violated && tr2[i + 1].cand == tr2[i].cand ==> KindStableBelow(tr2[i].cand, Kinds[i], n, 9))
    {
      assert tr2[i] == tr[i];
      if i < k {
        assert tr2[i + 1] == tr[i + 1];
      }
    }
  }

  /** The kinds before the k-th of `Kinds` are stable. */
  ghost predicate KindsStableBelow(cand: seq<set<int>>, n: nat, k: int)
    requires |cand| == 81 && k <= 3
  {
    forall i :: 0 <= i < k ==> KindStableBelow(cand, Kinds[i], n, 9)
  }

  lemma KindsStableExtend(cand: seq<set<int>>, n: nat, k: int)
    requires |cand| == 81 && 0 <= k < 3 && KindsStableBelow(cand, n, k) && KindStableBelow(cand, Kinds[k], n, 9)
    ensures KindsStableBelow(cand, n, k + 1)
  {
  }

  /** Stability under the rule is stability in rows, in columns and in boxes. */
  lemma NTilesStableKinds(cand: seq<set<int>>, n: nat)
    requires |cand| == 81
    ensures NTilesStable(cand, n) <==> KindsStableBelow(cand, n, 3)
  {
    if KindsStableBelow(cand, n, 3) {
      forall kind, grp | IsGroup(grp)
        ensures GroupStable(cand, kind, grp, n)
      {
        var i := if kind == Row then 0 else if kind == Col then 1 else 2;
        assert KindStableBelow(cand, Kinds[i], n, 9);
      }
    }
  }
}
