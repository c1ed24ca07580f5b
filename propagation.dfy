/**
 * `RemoveAndUpdate`: the only code that removes candidates. A removal takes
 * the requested digits the tile still holds, keeps the occurrence index in
 * step, flags contradictions, and then cascades: a digit left with one place
 * in a group fixes that tile, and a fixed tile's digit leaves all its peers.
 * Every cascade call happens after the total candidate count has dropped,
 * which is what makes the recursion terminate.
 */
module Propagation {
  import opened Positions
  import opened GridState
  import opened Structure

  /**
   * What one scan of a deduction rule over the grid reports to its `launch`:
   * it stopped on seeing `violated`, or it finished, having made progress
   * (some removal answered true) or not.
   */
  datatype Scan = Violated | Scanned(progress: bool)

  /**
   * `_update_occurrences`: take cell `where` out of the slot of every removed
   * digit in each of its three groups; an emptied slot sets `violated` and
   * stops the upkeep at once. It answers true exactly when no touched slot
   * runs empty.
   */
  method UpdateOccurrences(g: Grid, where: int, diff: set<int>) returns (ok: bool)
    requires IsCell(where) && diff <= Digits
    requires forall s :: IsSlot(s) ==> s in g.occ
    modifies g
    ensures g.cand == old(g.cand) && g.nOpts == old(g.nOpts) && g.solvedAt == old(g.solvedAt)
    ensures old(g.violated) ==> g.violated
    ensures Upkeep(old(g.occ), g.occ, where, diff, ok)
    ensures ok ==> g.violated == old(g.violated)
    ensures !ok ==> g.violated
  {
    ghost var o0 := g.occ;
    UpkeptInit(o0, where, diff);
    var occ := g.occ;
    var k := 0;
    while k < 3
      invariant 0 <= k <= 3
      invariant unchanged(g)
      invariant Upkept(o0, occ, where, diff, k, Row, {})
    {
      var kept;
      occ, kept := UpkeepKind(o0, occ, where, diff, k);
      if !kept {
        g.occ, g.violated := occ, true;
        return false;
      }
      k := k + 1;
    }
    UpkeptDone(o0, occ, where, diff);
    assert Upkeep(o0, occ, where, diff, true);
    g.occ := occ;
    return true;
  }

  /**
   * One kind of group of the upkeep: drop `where` from the slots of the
   * `k`-th kind's group around `where`, one digit of `diff` at a time,
   * stopping at the first slot that runs empty.
   */
  method UpkeepKind(ghost o0: map<Slot, set<int>>, occ0: map<Slot, set<int>>, where: int, diff: set<int>, k: int)
    returns (occ: map<Slot, set<int>>, kept: bool)
    requires IsCell(where) && 0 <= k < 3 && diff <= Digits
    requires Upkept(o0, occ0, where, diff, k, Row, {})
    ensures kept ==> Upkept(o0, occ, where, diff, k + 1, Row, {})
    ensures !kept ==> Upkeep(o0, occ, where, diff, false)
  {
    occ := occ0;
    var kind := Kinds[k];
    var grp := GroupOf(where, kind);
    var rest := diff;
    UpkeptStart(o0, occ, where, diff, k);
    while rest != {}
      invariant rest <= diff
      invariant Upkept(o0, occ, where, diff, k, kind, diff - rest)
      decreases |rest|
    {
      var o :| o in rest;
      var slot := Slot(kind, grp, o);
      ghost var before := occ;
      UpkeptAt(o0, occ, where, diff, k, diff - rest, o);
      occ := occ[slot := occ[slot] - {where}];
      if occ[slot] == {} {
        UpkeptStop(o0, before, where, diff, k, diff - rest, o);
        return occ, false;
      }
      UpkeptStep(o0, before, where, diff, k, diff - rest, o);
      TakeOne(diff, rest, o);
      rest := rest - {o};
    }
    TakeNone(diff, rest);
    UpkeptEnd(o0, occ, where, diff, k);
    kept := true;
  }

  /**
   * What the upkeep of the occurrence index does, from `o0` to `occ`: it
   * drops `where` from exactly the slots `Touched` by `diff` and from no
   * other; it succeeds (`ok`) exactly when none of those slots runs empty,
   * and then every slot that had a holder still has one.
   */
  ghost predicate Upkeep(o0: map<Slot, set<int>>, occ: map<Slot, set<int>>, where: int, diff: set<int>, ok: bool)
    requires IsCell(where)
  {
    && (forall s :: IsSlot(s) ==>
          (&& s in o0 && s in occ
           && (occ[s] == o0[s] || (Touched(s, where, diff) && occ[s] == o0[s] - {where}))))
    && (ok <==> forall s :: IsSlot(s) && Touched(s, where, diff) ==> o0[s] - {where} != {})
    && (ok ==> forall s :: IsSlot(s) && Touched(s, where, diff) ==> occ[s] == o0[s] - {where})
    && (ok ==> forall s :: IsSlot(s) && o0[s] != {} ==> occ[s] != {})
  }

  /** Taking o out of the pending digits adds it to the handled ones. */
  lemma TakeOne(all: set<int>, rest: set<int>, o: int)
    requires o in rest && rest <= all
    ensures all - (rest - {o}) == (all - rest) + {o}
  {
  }

  /** With nothing pending, everything is handled. */
  lemma TakeNone(all: set<int>, rest: set<int>)
    requires rest == {}
    ensures all - rest == all
  {
  }

  /** Slot s is one the upkeep has handled: of a kind before the k-th, or of `kind` with its digit in `done`. */
  predicate Handled(s: Slot, where: int, diff: set<int>, k: int, kind: Kind, done: set<int>)
    requires IsCell(where)
  {
    Touched(s, where, diff) && (KindIndex(s.kind) < k || (s.kind == kind && s.d in done))
  }

  /**
   * Where the upkeep stands: every handled slot has lost `where` without
   * running empty, and every other slot is as it was.
   */
  ghost predicate Upkept(o0: map<Slot, set<int>>, occ: map<Slot, set<int>>, where: int, diff: set<int>,
                         k: int, kind: Kind, done: set<int>)
    requires IsCell(where)
  {
    forall s :: IsSlot(s) ==>
      (&& s in o0 && s in occ
       && occ[s] == (if Handled(s, where, diff, k, kind, done) then o0[s] - {where} else o0[s])
       && (Handled(s, where, diff, k, kind, done) ==> o0[s] - {where} != {}))
  }

  lemma UpkeptInit(o0: map<Slot, set<int>>, where: int, diff: set<int>)
    requires IsCell(where) && forall s :: IsSlot(s) ==> s in o0
    ensures Upkept(o0, o0, where, diff, 0, Row, {})
  {
  }

  lemma UpkeptStart(o0: map<Slot, set<int>>, occ: map<Slot, set<int>>, where: int, diff: set<int>, k: int)
    requires IsCell(where) && 0 <= k < 3 && Upkept(o0, occ, where, diff, k, Row, {})
    ensures Upkept(o0, occ, where, diff, k, Kinds[k], {})
  {
  }

  lemma UpkeptEnd(o0: map<Slot, set<int>>, occ: map<Slot, set<int>>, where: int, diff: set<int>, k: int)
    requires IsCell(where) && 0 <= k < 3 && Upkept(o0, occ, where, diff, k, Kinds[k], diff)
    ensures Upkept(o0, occ, where, diff, k + 1, Row, {})
  {
  }

  /** The slot of digit o in the k-th kind's group of `where` is touched and not yet handled. */
  lemma UpkeptAt(o0: map<Slot, set<int>>, occ: map<Slot, set<int>>, where: int, diff: set<int>,
                 k: int, done: set<int>, o: int)
    requires IsCell(where) && 0 <= k < 3 && o in diff && o !in done && diff <= Digits
    requires Upkept(o0, occ, where, diff, k, Kinds[k], done)
    ensures var slot := Slot(Kinds[k], GroupOf(where, Kinds[k]), o);
            IsSlot(slot) && Touched(slot, where, diff) && slot in occ && occ[slot] == o0[slot]
  {
    var slot := Slot(Kinds[k], GroupOf(where, Kinds[k]), o);
    assert IsSlot(slot) && !Handled(slot, where, diff, k, Kinds[k], done);
  }

  /** Taking `where` out of the slot of digit o without emptying it advances the upkeep by o. */
  lemma UpkeptStep(o0: map<Slot, set<int>>, occ: map<Slot, set<int>>, where: int, diff: set<int>,
                   k: int, done: set<int>, o: int)
    requires IsCell(where) && 0 <= k < 3 && o in diff && o !in done && diff <= Digits
    requires Upkept(o0, occ, where, diff, k, Kinds[k], done)
    requires var slot := Slot(Kinds[k], GroupOf(where, Kinds[k]), o); slot in occ && occ[slot] - {where} != {}
    ensures var slot := Slot(Kinds[k], GroupOf(where, Kinds[k]), o);
            Upkept(o0, occ[slot := occ[slot] - {where}], where, diff, k, Kinds[k], done + {o})
  {
    var slot := Slot(Kinds[k], GroupOf(where, Kinds[k]), o);
    assert IsSlot(slot) && Touched(slot, where, diff);
  }

  /** Stopping right after taking `where` out of the slot of digit o leaves every slot kept or touched and reduced. */
  lemma UpkeptStop(o0: map<Slot, set<int>>, occ: map<Slot, set<int>>, where: int, diff: set<int>,
                   k: int, done: set<int>, o: int)
    requires IsCell(where) && 0 <= k < 3 && o in diff && o !in done && diff <= Digits
    requires Upkept(o0, occ, where, diff, k, Kinds[k], done)
    ensures var slot := Slot(Kinds[k], GroupOf(where, Kinds[k]), o);
            slot in occ &&
            var occ2 := occ[slot := occ[slot] - {where}];
            && (forall s :: IsSlot(s) ==>
                  (s in occ2 && (occ2[s] == o0[s] || (Touched(s, where, diff) && occ2[s] == o0[s] - {where}))))
            && (occ2[slot] == {} ==> !forall s :: IsSlot(s) && Touched(s, where, diff) ==> o0[s] - {where} != {})
  {
    var slot := Slot(Kinds[k], GroupOf(where, Kinds[k]), o);
    assert IsSlot(slot) && Touched(slot, where, diff);
  }

  lemma UpkeptDone(o0: map<Slot, set<int>>, occ: map<Slot, set<int>>, where: int, diff: set<int>)
    requires IsCell(where) && Upkept(o0, occ, where, diff, 3, Row, {})
    ensures forall s :: IsSlot(s) ==> s in occ && occ[s] == (if Touched(s, where, diff) then o0[s] - {where} else o0[s])
    ensures forall s :: IsSlot(s) && Touched(s, where, diff) ==> o0[s] - {where} != {}
    ensures forall s :: IsSlot(s) && o0[s] != {} ==> occ[s] != {}
  {
    forall s | IsSlot(s)
      ensures Touched(s, where, diff) ==> Handled(s, where, diff, 3, Row, {})
    {
      assert KindIndex(s.kind) < 3;
    }
  }

  /**
   * `_remove_and_check_violations` with `_update_and_check_violations`:
   * count the step, drop `diff` from the tile, and keep the index in step
   * unless the tile has no candidate left, which sets `violated`.
   */
  method RemoveAndCheck(g: Grid, st: Stepper, where: int, diff: set<int>) returns (ok: bool)
    requires g.Valid() && IsCell(where) && diff != {} && diff <= g.cand[where]
    modifies g, st
    ensures g.Valid()
    ensures Evolves(old(g.Snap()), g.Snap(), old(st.counter), st.counter)
    ensures st.counter == old(st.counter) + 1
    ensures g.cand == old(g.cand)[where := old(g.cand[where]) - diff]
    ensures Total(g.cand) < old(Total(g.cand))
    ensures RemovalStep(old(g.Snap()), g.Snap(), where, diff)
    ensures RemovalChecked(old(g.Snap()), g.Snap(), where, diff, ok)
  {
    ghost var a := g.Snap();
    st.ShowStep();
    g.SetOptions(where, g.cand[where] - diff);
    if g.nOpts[where] > 0 {
      assert g.occ == a.occ;
      ok := UpdateOccurrences(g, where, diff);
    } else {
      g.violated := true;
      ok := false;
    }
    UpkeepIsRemoval(a, g.Snap(), where, diff, ok, old(st.counter), st.counter);
  }

  /**
   * The outcome of removing `diff` from tile `where`, from state `a` to
   * `b`: the removal is clean (`ok`) exactly when the tile keeps a candidate
   * and every slot the removal touches keeps a place; a clean removal drops
   * `where` from every touched slot and leaves `violated` alone, any other
   * sets it.
   */
  ghost predicate RemovalChecked(a: State, b: State, where: int, diff: set<int>, ok: bool)
    requires IsCell(where) && Shape(a) && Shape(b)
  {
    && (ok <==> && a.cand[where] - diff != {}
                && forall s :: IsSlot(s) && Touched(s, where, diff) ==> a.occ[s] - {where} != {})
    && (ok ==> b.violated == a.violated)
    && (ok ==> forall s :: IsSlot(s) && Touched(s, where, diff) ==> b.occ[s] == a.occ[s] - {where})
    && (!ok ==> b.violated)
  }

  /** A candidate removal whose index upkeep behaved as `Upkeep` says is a `RemovalStep`. */
  lemma UpkeepIsRemoval(a: State, b: State, where: int, diff: set<int>, ok: bool, c0: nat, c1: nat)
    requires IsCell(where) && Sound(a) && diff != {} && diff <= a.cand[where] && c0 <= c1
    requires b.cand == a.cand[where := a.cand[where] - diff] && b.solvedAt == a.solvedAt
    requires a.violated ==> b.violated
    requires ok ==> b.violated == a.violated
    requires !ok ==> b.violated
    requires b.cand[where] != {} ==> Upkeep(a.occ, b.occ, where, diff, ok)
    requires b.cand[where] == {} ==> b.occ == a.occ && !ok
    ensures RemovalStep(a, b, where, diff)
    ensures Sound(b) && RemovalChecked(a, b, where, diff, ok)
    ensures Evolves(a, b, c0, c1) && Total(b.cand) < Total(a.cand)
  {
    assert RemovalStep(a, b, where, diff);
    if ok && !a.violated {
      RemovalConsistent(a, b, where, diff);
    }
    RemovalEvolves(a, b, where, diff, c0, c1);
  }

  /**
   * `RemoveAndUpdate.launch(S, where, which)`. A call that finds none of
   * `which` among the tile's candidates changes nothing and answers false.
   * Otherwise the requested digits leave the tile, the total candidate count
   * drops, and the answer is true exactly when no violation ended the
   * cascade. A true answer also carries the cascade's two effects: every
   * group of the tile in which a removed digit is left with one place has
   * that place fixed to the digit, and a tile left with one candidate has
   * its `solved_at` set during this call and its digit gone from all peers.
   */
  method Remove(g: Grid, st: Stepper, where: int, which: set<int>) returns (r: bool)
    requires g.Valid() && IsCell(where)
    modifies g, st
    decreases Total(g.cand), 4
    ensures g.Valid()
    ensures Evolves(old(g.Snap()), g.Snap(), old(st.counter), st.counter)
    ensures old(g.cand[where]) * which == {} ==>
              !r && g.Snap() == old(g.Snap()) && st.counter == old(st.counter)
    ensures old(g.cand[where]) * which != {} ==>
              && g.cand[where] <= old(g.cand[where]) - which
              && Total(g.cand) < old(Total(g.cand))
              && st.counter > old(st.counter)
              && (r || g.violated)
    ensures r ==> !g.violated
    ensures !r && !g.violated ==> g.Snap() == old(g.Snap()) && st.counter == old(st.counter)
    ensures r ==> forall s, p ::
                    (&& IsSlot(s) && Touched(s, where, old(g.cand[where]) * which)
                     && |old(g.occ[s]) - {where}| == 1 && p in old(g.occ[s]) - {where})
                    ==> g.cand[p] == {s.d}
    ensures r && |g.cand[where]| == 1 ==>
              old(st.counter) <= g.solvedAt[where] <= st.counter && NeighborsCleared(g.Snap(), where)
  {
    var diff := g.cand[where] * which;
    if diff == {} {
      return false;
    }
    ghost var a, c0 := g.Snap(), st.counter;
    var ok := RemoveAndCheck(g, st, where, diff);
    if !ok {
      return false;
    }
    ghost var b, c1 := g.Snap(), st.counter;
    r := UpdateChainRemoval(g, st, where, diff, Total(a.cand));
    EvolvesTrans(a, b, g.Snap(), c0, c1, st.counter);
    EvolvesTotal(b, g.Snap(), c1, st.counter);
    if r {
      SettledAfterRemoval(a, b, g.Snap(), where, diff);
    }
  }

  /**
   * The single-place effect after the cascade: in every group of `where`
   * and for every digit of `diff`, a slot that had exactly one place in
   * `o` has that place down to the slot's digit in `b`.
   */
  ghost predicate Settled(o: map<Slot, set<int>>, b: State, where: int, diff: set<int>)
    requires IsCell(where) && Shape(b)
    requires forall s :: IsSlot(s) ==> s in o && o[s] <= Members(s.kind, s.g)
  {
    forall s, p {:trigger b.cand[p], o[s]} ::
      IsSlot(s) && Touched(s, where, diff) && |o[s]| == 1 && p in o[s] ==> b.cand[p] == {s.d}
  }

  /** The fixed tile's candidates are gone from every other tile of its row, column and box. */
  ghost predicate NeighborsCleared(b: State, where: int)
    requires IsCell(where) && Shape(b)
  {
    forall kind, x :: x in Peers(where, kind) ==> b.cand[x] * b.cand[where] == {}
  }

  /** The single-place effect measured after the removal step, restated on the index before it. */
  lemma SettledAfterRemoval(a: State, b: State, c: State, where: int, diff: set<int>)
    requires IsCell(where) && Shape(a) && Shape(b) && Shape(c)
    requires RemovalChecked(a, b, where, diff, true) && Settled(b.occ, c, where, diff)
    ensures forall s, p ::
              (&& IsSlot(s) && Touched(s, where, diff)
               && |a.occ[s] - {where}| == 1 && p in a.occ[s] - {where})
              ==> c.cand[p] == {s.d}
  {
    forall s, p | IsSlot(s) && Touched(s, where, diff) && |a.occ[s] - {where}| == 1 && p in a.occ[s] - {where}
      ensures c.cand[p] == {s.d}
    {
      assert b.occ[s] == a.occ[s] - {where};
    }
  }

  /**
   * `_update_chain_removal`: first the single-place cascade for the removed
   * digits, then, if the tile is down to one candidate, record the step in
   * `solved_at` and clear its digit from every peer.
   */
  method UpdateChainRemoval(g: Grid, st: Stepper, where: int, diff: set<int>, ghost bound: nat) returns (r: bool)
    requires g.Valid() && IsCell(where) && diff != {} && diff <= Digits
    requires Total(g.cand) < bound
    modifies g, st
    decreases bound, 3
    ensures g.Valid()
    ensures Evolves(old(g.Snap()), g.Snap(), old(st.counter), st.counter)
    ensures r <==> !g.violated
    ensures r ==> Settled(old(g.occ), g.Snap(), where, diff)
    ensures r && |g.cand[where]| == 1 ==>
              old(st.counter) <= g.solvedAt[where] <= st.counter && NeighborsCleared(g.Snap(), where)
  {
    ghost var a, c0 := g.Snap(), st.counter;
    var ok := SingleOccurrence(g, st, where, diff, bound);
    if !ok {
      return false;
    }
    if g.nOpts[where] == 1 {
      ghost var b, c1 := g.Snap(), st.counter;
      g.SetSolvedAt(where, st.counter);
      ghost var b2 := g.Snap();
      MarkSolved(a, b, b2, where, c0, c1);
      ok := RemoveFromNeighbors(g, st, where, bound);
      ChainDone(a, b, b2, g.Snap(), where, diff, c0, c1, st.counter);
      if !ok {
        return false;
      }
    }
    return true;
  }

  /** Recording `solved_at` on a tile left with one candidate is a step the grid may take. */
  lemma MarkSolved(a: State, b: State, b2: State, where: int, c0: nat, c1: nat)
    requires IsCell(where) && Evolves(a, b, c0, c1) && |b.cand[where]| == 1 && Sound(b)
    requires b2 == b.(solvedAt := b.solvedAt[where := c1])
    ensures Evolves(a, b2, c0, c1) && Sound(b2) && Total(b2.cand) <= Total(a.cand)
  {
    EvolvesTrans(a, b, b2, c0, c1, c1);
    EvolvesTotal(a, b2, c0, c1);
  }

  /** After the peers are cleared, the single-place effect and the `solved_at` mark still hold. */
  lemma ChainDone(a: State, b: State, b2: State, c: State, where: int, diff: set<int>, c0: nat, c1: nat, c2: nat)
    requires IsCell(where) && Shape(a) && Shape(b)
    requires Evolves(a, b2, c0, c1) && Evolves(b2, c, c1, c2)
    requires b2.cand == b.cand && b2.solvedAt[where] == c1 && |b.cand[where]| == 1
    requires Settled(a.occ, b, where, diff)
    requires !c.violated ==> Sound(c) && NeighborsCleared(c, where) && c.cand[where] == b2.cand[where]
    ensures Evolves(a, c, c0, c2)
    ensures !c.violated ==>
              && Settled(a.occ, c, where, diff) && |c.cand[where]| == 1
              && c0 <= c.solvedAt[where] <= c2 && NeighborsCleared(c, where)
  {
    EvolvesTrans(a, b2, c, c0, c1, c2);
    if !c.violated {
      forall s, p | IsSlot(s) && Touched(s, where, diff) && |a.occ[s]| == 1 && p in a.occ[s]
        ensures c.cand[p] == {s.d}
      {
        assert c.cand[p] <= b.cand[p] && c.cand[p] != {};
      }
    }
  }

  /**
   * `_single_occurrence_of_option`: when a removed digit has one place left
   * in one of the tile's groups, every other candidate of that place goes.
   * On success every slot of the tile's groups and the removed digits that
   * had one place on entry has that place fixed to the slot's digit.
   */
  method SingleOccurrence(g: Grid, st: Stepper, where: int, diff: set<int>, ghost bound: nat) returns (r: bool)
    requires g.Valid() && IsCell(where) && diff != {} && diff <= Digits
    requires Total(g.cand) < bound
    modifies g, st
    decreases bound, 2
    ensures g.Valid()
    ensures Evolves(old(g.Snap()), g.Snap(), old(st.counter), st.counter)
    ensures r <==> !g.violated
    ensures r ==> Settled(old(g.occ), g.Snap(), where, diff)
  {
    ghost var a, c0 := g.Snap(), st.counter;
    EvolvesRefl(a, c0);
    var k := 0;
    while k < 3
      invariant 0 <= k <= 3
      invariant g.Valid() && Evolves(a, g.Snap(), c0, st.counter) && Total(g.cand) < bound
      invariant k > 0 ==> !g.violated
      invariant !g.violated ==> SinglesFixed(a, g.Snap(), where, diff, k, diff)
    {
      var ok := SingleOccurrenceKind(g, st, where, diff, k, bound, a, c0);
      if !ok {
        return false;
      }
      SinglesEnd(a, g.Snap(), where, diff, k);
      k := k + 1;
    }
    SinglesDone(a, g.Snap(), where, diff);
    return true;
  }

  /** The single-place rule for the removed digits in the tile's group of the `k`-th kind. */
  method SingleOccurrenceKind(g: Grid, st: Stepper, where: int, diff: set<int>, k: int, ghost bound: nat,
                              ghost a: State, ghost c0: nat) returns (ok: bool)
    requires g.Valid() && IsCell(where) && diff != {} && diff <= Digits && 0 <= k < 3
    requires Total(g.cand) < bound
    requires Evolves(a, g.Snap(), c0, st.counter)
    requires !g.violated ==> SinglesFixed(a, g.Snap(), where, diff, k, diff)
    modifies g, st
    decreases bound, 1
    ensures g.Valid() && Evolves(a, g.Snap(), c0, st.counter) && Total(g.cand) < bound
    ensures ok <==> !g.violated
    ensures ok ==> SinglesFixed(a, g.Snap(), where, diff, k, {})
  {
    var rest := diff;
    while rest != {}
      invariant rest <= diff
      invariant g.Valid() && Evolves(a, g.Snap(), c0, st.counter) && Total(g.cand) < bound
      invariant rest != diff ==> !g.violated
      invariant !g.violated ==> SinglesFixed(a, g.Snap(), where, diff, k, rest)
      decreases |rest|
    {
      var o :| o in rest;
      ok := SinglePlace(g, st, where, diff, k, rest, o, bound, a, c0);
      if !ok {
        return false;
      }
      rest := rest - {o};
    }
    return true;
  }

  /**
   * The single-place rule for one slot: if digit o has exactly one place
   * left in the tile's group of the `k`-th kind, every other candidate of
   * that place is removed.
   */
  method SinglePlace(g: Grid, st: Stepper, where: int, diff: set<int>, k: int, ghost pending: set<int>, o: int,
                     ghost bound: nat, ghost a: State, ghost c0: nat) returns (ok: bool)
    requires g.Valid() && IsCell(where) && diff <= Digits && 0 <= k < 3 && o in pending && pending <= diff
    requires Total(g.cand) < bound
    requires Evolves(a, g.Snap(), c0, st.counter)
    requires !g.violated ==> SinglesFixed(a, g.Snap(), where, diff, k, pending)
    modifies g, st
    decreases bound, 0
    ensures g.Valid() && Evolves(a, g.Snap(), c0, st.counter) && Total(g.cand) < bound
    ensures ok <==> !g.violated
    ensures ok ==> SinglesFixed(a, g.Snap(), where, diff, k, pending - {o})
  {
    var slot := Slot(Kinds[k], GroupOf(where, Kinds[k]), o);
    ghost var b, c1 := g.Snap(), st.counter;
    ghost var only := -1;
    if |g.occ[slot]| == 1 {
      HasElement(g.occ[slot]);
      var p :| p in g.occ[slot];
      only := p;
      var _ := Remove(g, st, p, g.cand[p] - {o});
      assert g.cand[p] <= {o};
      EvolvesTrans(a, b, g.Snap(), c0, c1, st.counter);
      EvolvesTotal(a, g.Snap(), c0, st.counter);
    } else {
      EvolvesRefl(b, c1);
    }
    if g.violated {
      return false;
    }
    SinglesStep(a, b, g.Snap(), where, diff, k, pending, o, only, c1, st.counter);
    return true;
  }

  /**
   * Where the single-place rule stands: every slot of the tile's groups of
   * kinds before the `k`-th, and of the `k`-th for the digits no longer
   * `pending`, that had one place in `a` has that place down to (at most)
   * the slot's digit in `b`.
   */
  ghost predicate SinglesFixed(a: State, b: State, where: int, diff: set<int>, k: int, pending: set<int>)
    requires IsCell(where)
  {
    forall s, p {:trigger b.cand[p], a.occ[s]} ::
      (&& IsSlot(s) && Touched(s, where, diff)
       && (KindIndex(s.kind) < k || (KindIndex(s.kind) == k && s.d !in pending))
       && s in a.occ && |a.occ[s]| == 1 && p in a.occ[s] && 0 <= p < |b.cand|)
      ==> b.cand[p] <= {s.d}
  }

  lemma SinglesEnd(a: State, b: State, where: int, diff: set<int>, k: int)
    requires IsCell(where) && 0 <= k < 3
    requires SinglesFixed(a, b, where, diff, k, {})
    ensures SinglesFixed(a, b, where, diff, k + 1, diff)
  {
  }

  /**
   * Examining the slot of digit o advances the rule by o: if that slot had
   * one place on entry and no violation arose, its place is the one the
   * rule fixed, and the places fixed before only lost candidates since.
   */
  lemma SinglesStep(a: State, b: State, c: State, where: int, diff: set<int>, k: int, pending: set<int>,
                    o: int, only: int, c1: nat, c2: nat)
    requires IsCell(where) && 0 <= k < 3 && o in pending && pending <= diff && diff <= Digits
    requires Shape(a) && Shape(b) && Evolves(b, c, c1, c2) && !c.violated
    requires (forall s :: IsSlot(s) && a.occ[s] != {} && b.occ[s] == {} ==> b.violated)
    requires forall s :: IsSlot(s) ==> b.occ[s] <= a.occ[s]
    requires SinglesFixed(a, b, where, diff, k, pending)
    requires var slot := Slot(Kinds[k], GroupOf(where, Kinds[k]), o);
             |b.occ[slot]| == 1 ==> only in b.occ[slot] && 0 <= only < 81 && c.cand[only] <= {o}
    ensures SinglesFixed(a, c, where, diff, k, pending - {o})
  {
    var slot := Slot(Kinds[k], GroupOf(where, Kinds[k]), o);
    assert IsSlot(slot) && Touched(slot, where, diff);
    forall s, p | && IsSlot(s) && Touched(s, where, diff)
                  && (KindIndex(s.kind) < k || (KindIndex(s.kind) == k && s.d !in pending - {o}))
                  && |a.occ[s]| == 1 && p in a.occ[s]
      ensures c.cand[p] <= {s.d}
    {
      if s == slot {
        assert !b.violated;
        assert b.occ[slot] != {};
        SingletonSubset(b.occ[slot], a.occ[slot]);
        SingletonSubset({p}, a.occ[slot]);
      } else {
        assert KindIndex(s.kind) == k ==> s.d != o;
        assert c.cand[p] <= b.cand[p];
      }
    }
  }

  /** A non-empty subset of a one-element set is that set. */
  lemma SingletonSubset(x: set<int>, y: set<int>)
    requires x != {} && x <= y && |y| == 1
    ensures x == y
  {
    HasElement(x);
    var e :| e in x;
    assert y == {e} by {
      if exists f :: f in y && f != e {
        var f :| f in y && f != e;
        assert {e, f} <= y;
        SubsetCard({e, f}, y);
      }
    }
  }

  lemma SinglesDone(a: State, b: State, where: int, diff: set<int>)
    requires IsCell(where) && Shape(a) && Sound(b) && !b.violated
    requires SinglesFixed(a, b, where, diff, 3, diff)
    ensures Settled(a.occ, b, where, diff)
  {
    forall s, p | IsSlot(s) && Touched(s, where, diff) && |a.occ[s]| == 1 && p in a.occ[s]
      ensures b.cand[p] == {s.d}
    {
      assert KindIndex(s.kind) < 3;
      assert b.cand[p] != {};
    }
  }

  /** `set(container) - {tile_index}`: the other cells of the tile's group of one kind. */
  function Peers(where: int, kind: Kind): (ps: set<int>)
    requires IsCell(where)
    ensures forall x :: x in ps ==> IsCell(x) && x != where && GroupOf(x, kind) == GroupOf(where, kind)
  {
    var container := Container(kind, GroupOf(where, kind));
    ContainerIsGroup(kind, GroupOf(where, kind));
    (set x | x in container) - {where}
  }

  /**
   * `_remove_option_from_neighbors`: the digit of a fixed tile is removed
   * from every other tile of its row, column and box. On success no peer
   * shares a candidate with the tile, and the tile's candidates are the ones
   * it came with.
   */
  method RemoveFromNeighbors(g: Grid, st: Stepper, where: int, ghost bound: nat) returns (r: bool)
    requires g.Valid() && IsCell(where) && !g.violated
    requires Total(g.cand) < bound
    modifies g, st
    decreases bound, 2
    ensures g.Valid()
    ensures Evolves(old(g.Snap()), g.Snap(), old(st.counter), st.counter)
    ensures r <==> !g.violated
    ensures r ==> NeighborsCleared(g.Snap(), where)
    ensures r && |old(g.cand[where])| == 1 ==> g.cand[where] == old(g.cand[where])
  {
    ghost var a, c0 := g.Snap(), st.counter;
    EvolvesRefl(a, c0);
    var k := 0;
    while k < 3
      invariant 0 <= k <= 3
      invariant g.Valid() && Evolves(a, g.Snap(), c0, st.counter) && Total(g.cand) < bound
      invariant !g.violated
      invariant PeersCleared(g.Snap(), where, k, {})
    {
      var kind := Kinds[k];
      var peers := Peers(where, kind);
      while peers != {}
        invariant peers <= Peers(where, kind)
        invariant g.Valid() && Evolves(a, g.Snap(), c0, st.counter) && Total(g.cand) < bound
        invariant !g.violated
        invariant PeersCleared(g.Snap(), where, k, Peers(where, kind) - peers)
        decreases |peers|
      {
        HasElement(peers);
        var t :| t in peers;
        ghost var cleared := Peers(where, kind) - peers;
        TakeOne(Peers(where, kind), peers, t);
        peers := peers - {t};
        ghost var b, c1 := g.Snap(), st.counter;
        var _ := Remove(g, st, t, g.cand[where]);
        EvolvesTrans(a, b, g.Snap(), c0, c1, st.counter);
        EvolvesTotal(a, g.Snap(), c0, st.counter);
        if g.violated {
          return false;
        }
        PeersStep(b, g.Snap(), where, k, cleared, t, c1, st.counter);
      }
      TakeNone(Peers(where, kind), peers);
      PeersEnd(g.Snap(), where, k);
      k := k + 1;
    }
    PeersDone(a, g.Snap(), where, c0, st.counter);
    return true;
  }

  /**
   * Where the clearing of peers stands: the peers of kinds before the
   * `k`-th, and those of the `k`-th in `cleared`, share no candidate with
   * the tile.
   */
  ghost predicate PeersCleared(b: State, where: int, k: int, cleared: set<int>)
    requires IsCell(where) && Shape(b)
  {
    forall j, x {:trigger b.cand[x], Peers(where, Kinds[j])} ::
      0 <= j < 3 && x in Peers(where, Kinds[j]) && (j < k || (j == k && x in cleared)) ==> b.cand[x] * b.cand[where] == {}
  }

  lemma PeersEnd(b: State, where: int, k: int)
    requires IsCell(where) && Shape(b) && 0 <= k < 3 && PeersCleared(b, where, k, Peers(where, Kinds[k]))
    ensures PeersCleared(b, where, k + 1, {})
  {
  }

  /** Clearing peer t keeps the cleared peers cleared, since candidates only shrink. */
  lemma PeersStep(b: State, c: State, where: int, k: int, cleared: set<int>, t: int, c1: nat, c2: nat)
    requires IsCell(where) && 0 <= k < 3 && t in Peers(where, Kinds[k])
    requires Shape(b) && Evolves(b, c, c1, c2)
    requires PeersCleared(b, where, k, cleared)
    requires c.cand[t] * b.cand[where] == {}
    ensures PeersCleared(c, where, k, cleared + {t})
  {
    forall j, x | 0 <= j < 3 && x in Peers(where, Kinds[j]) && (j < k || (j == k && x in cleared + {t}))
      ensures c.cand[x] * c.cand[where] == {}
    {
      assert c.cand[x] <= b.cand[x] && c.cand[where] <= b.cand[where];
    }
  }

  lemma PeersDone(a: State, b: State, where: int, c0: nat, c1: nat)
    requires IsCell(where) && Shape(b) && PeersCleared(b, where, 3, {})
    requires Evolves(a, b, c0, c1) && Sound(b) && !b.violated
    ensures NeighborsCleared(b, where)
    ensures |a.cand[where]| == 1 ==> b.cand[where] == a.cand[where]
  {
    forall kind, x | x in Peers(where, kind)
      ensures b.cand[x] * b.cand[where] == {}
    {
      assert Kinds[KindIndex(kind)] == kind;
    }
    if |a.cand[where]| == 1 {
      SingletonSubset(b.cand[where], a.cand[where]);
    }
  }
}
