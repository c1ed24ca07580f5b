/**
 * The `Sudoku` grid of 81 tiles: candidate sets with their cached sizes
 * (`Tile.options` / `Tile.n_options`), `solved_at` markers, the occurrence
 * index and the sticky `violated` flag, plus the read-only queries `done`,
 * `max_options`, `is_valid`, `get_solved` and `get_complexity_map`.
 */
module Structure {
  import opened Positions
  import opened Wrappers
  import opened GridState

  /** A fresh tile holds every digit; a clue tile holds only its clue. */
  function InitialCandidates(v: int): set<int>
  {
    if v != 0 then {v} else Digits
  }

  /** `given_tiles`: the clue cells below n, in ascending order. */
  function ClueList(content: seq<int>, n: nat): (cs: seq<int>)
    requires n <= |content|
    ensures forall j :: 0 <= j < |cs| ==> 0 <= cs[j] < n && content[cs[j]] != 0
  {
    if n == 0 then []
    else ClueList(content, n - 1) + (if content[n - 1] != 0 then [n - 1] else [])
  }

  predicate IsClueFor(content: seq<int>, i: int, s: Slot)
  {
    IsCell(i) && i < |content| && content[i] == s.d && GroupOf(i, s.kind) == s.g
  }

  /**
   * The last cell of cs that is a clue for the slot's digit inside the
   * slot's group: the clue whose overwrite of the occurrence set survives.
   */
  function LastClue(content: seq<int>, cs: seq<int>, s: Slot): (r: Option<int>)
    ensures r.Some? ==> IsClueFor(content, r.value, s)
  {
    if cs == [] then None
    else if IsClueFor(content, cs[|cs| - 1], s) then Some(cs[|cs| - 1])
    else LastClue(content, cs[..|cs| - 1], s)
  }

  /** The clue found is the last of cs that is a clue for the slot. */
  lemma {:induction false} LastClueIsLast(content: seq<int>, cs: seq<int>, s: Slot) returns (j: nat)
    requires LastClue(content, cs, s).Some?
    ensures j < |cs| && cs[j] == LastClue(content, cs, s).value
    ensures forall k :: j < k < |cs| ==> !IsClueFor(content, cs[k], s)
  {
    var last := |cs| - 1;
    if IsClueFor(content, cs[last], s) {
      j := last;
    } else {
      var prefix := cs[..last];
      j := LastClueIsLast(content, prefix, s);
      assert cs[j] == prefix[j];
      forall k | j < k < |cs|
        ensures !IsClueFor(content, cs[k], s)
      {
        if k < last {
          assert cs[k] == prefix[k];
        }
      }
    }
  }

  /** No clue is found exactly when no cell of cs is a clue for the slot. */
  lemma {:induction false} LastClueNone(content: seq<int>, cs: seq<int>, s: Slot)
    ensures LastClue(content, cs, s).None? <==> forall j :: 0 <= j < |cs| ==> !IsClueFor(content, cs[j], s)
  {
    if cs != [] {
      var prefix := cs[..|cs| - 1];
      LastClueNone(content, prefix, s);
      if LastClue(content, cs, s).Some? && !IsClueFor(content, cs[|cs| - 1], s) {
        var j :| 0 <= j < |prefix| && IsClueFor(content, prefix[j], s);
        assert cs[j] == prefix[j];
      }
      if LastClue(content, cs, s).None? {
        forall j | 0 <= j < |cs|
          ensures !IsClueFor(content, cs[j], s)
        {
          if j < |prefix| {
            assert cs[j] == prefix[j];
          }
        }
      }
    }
  }

  /** The occurrence set of a slot once the clue cells cs have overwritten theirs. */
  function OccAfterClues(content: seq<int>, cand: seq<set<int>>, cs: seq<int>, s: Slot): set<int>
  {
    match LastClue(content, cs, s)
    case Some(i) => {i}
    case None => Holders(cand, s)
  }

  ghost predicate IsPuzzle(content: seq<int>)
  {
    |content| >= 81 && forall t :: 0 <= t < 81 ==> 0 <= content[t] <= 9
  }

  function InitialCands(content: seq<int>): (c: seq<set<int>>)
    requires |content| >= 81
    ensures |c| == 81
  {
    seq(81, t requires 0 <= t < 81 => InitialCandidates(content[t]))
  }

  /** The occurrence index right after construction. */
  function InitialOccurrence(content: seq<int>, s: Slot): set<int>
    requires |content| >= 81
  {
    OccAfterClues(content, InitialCands(content), ClueList(content, 81), s)
  }

  lemma HoldersAppend(c: seq<set<int>>, opts: set<int>, s: Slot)
    requires |c| < 81
    ensures Holders(c + [opts], s)
         == Holders(c, s) + (if GroupOf(|c|, s.kind) == s.g && s.d in opts then {|c|} else {})
  {
  }

  function KindIndex(k: Kind): (i: int)
    ensures 0 <= i < 3 && Kinds[i] == k
  {
    match k
    case Row => 0
    case Col => 1
    case Box => 2
  }

  /** The inner loop of `__init__`: register cell t under every digit of opts in its group of one kind. */
  method AddToOccurrences(o: map<Slot, set<int>>, t: int, opts: set<int>, kind: Kind)
    returns (o2: map<Slot, set<int>>)
    requires IsCell(t) && opts <= Digits
    requires forall s :: IsSlot(s) ==> s in o
    ensures forall s :: IsSlot(s) ==>
      (s in o2 && o2[s] == (if s.kind == kind && s.g == GroupOf(t, kind) && s.d in opts then o[s] + {t} else o[s]))
  {
    o2 := o;
    var rest := opts;
    while rest != {}
      invariant rest <= opts
      invariant forall s :: IsSlot(s) ==>
        (s in o2 && o2[s] == (if s.kind == kind && s.g == GroupOf(t, kind) && s.d in opts - rest then o[s] + {t} else o[s]))
      decreases |rest|
    {
      var d :| d in rest;
      var slot := Slot(kind, GroupOf(t, kind), d);
      o2 := o2[slot := o2[slot] + {t}];
      rest := rest - {d};
    }
  }

  const AllSlots: set<Slot> := set k, g, d | k in Kinds && 0 <= g < 9 && 1 <= d <= 9 :: Slot(k, g, d)

  /**
   * After construction every occurrence set lists only cells of its group
   * that hold its digit (a clue overwrites its slot with the clue cell
   * alone), and it lists all of them when the group has no clue for that digit.
   */
  lemma InitialOccurrenceHeld(content: seq<int>, s: Slot)
    requires IsPuzzle(content) && IsSlot(s)
    ensures InitialOccurrence(content, s) <= Holders(InitialCands(content), s)
    ensures (forall i :: 0 <= i < 81 ==> !IsClueFor(content, i, s))
              ==> InitialOccurrence(content, s) == Holders(InitialCands(content), s)
  {
    match LastClue(content, ClueList(content, 81), s)
    case Some(i) =>
      assert InitialCands(content)[i] == {s.d};
    case None =>
  }

  /** A freshly constructed grid keeps the invariants of every grid. */
  lemma InitialSound(content: seq<int>, a: State)
    requires IsPuzzle(content) && IsInitial(content, a) && |a.solvedAt| == 81
    ensures Sound(a)
  {
    forall s | IsSlot(s)
      ensures a.occ[s] <= Holders(a.cand, s)
    {
      InitialOccurrenceHeld(content, s);
    }
  }

  /** The state of a grid freshly constructed from `content`. */
  ghost predicate IsInitial(content: seq<int>, a: State)
    requires IsPuzzle(content)
  {
    && a.cand == InitialCands(content) && !a.violated
    && forall s :: IsSlot(s) ==> s in a.occ && a.occ[s] == InitialOccurrence(content, s)
  }

  /**
   * The occurrence index of every grid a run reaches from a fresh one
   * without a violation: each set lists only cells of its group that hold
   * its digit, and all of them when the group has no clue for that digit.
   */
  lemma IndexFromStart(content: seq<int>, a: State, b: State, c0: nat, c1: nat)
    requires IsPuzzle(content) && IsInitial(content, a) && Evolves(a, b, c0, c1) && Sound(b) && !b.violated
    ensures forall s :: IsSlot(s) ==> b.occ[s] <= Holders(b.cand, s)
    ensures forall s :: IsSlot(s) && (forall i :: 0 <= i < 81 ==> !IsClueFor(content, i, s)) ==>
              b.occ[s] == Holders(b.cand, s)
  {
    forall s | IsSlot(s) && (forall i :: 0 <= i < 81 ==> !IsClueFor(content, i, s))
      ensures b.occ[s] == Holders(b.cand, s)
    {
      InitialOccurrenceHeld(content, s);
      SlotFromStart(a, b, c0, c1, s);
    }
  }

  /** A slot listing every holder at the start keeps listing every holder. */
  lemma SlotFromStart(a: State, b: State, c0: nat, c1: nat, s: Slot)
    requires Evolves(a, b, c0, c1) && Sound(b) && !b.violated && IsSlot(s)
    requires a.occ[s] == Holders(a.cand, s)
    ensures b.occ[s] == Holders(b.cand, s)
  {
    assert Missing(a, s) == {};
    var h := Holders(b.cand, s);
    assert h - b.occ[s] == Missing(b, s) == {};
    forall x | x in h
      ensures x in b.occ[s]
    {
      assert x !in h - b.occ[s];
    }
    assert b.occ[s] <= h;
  }

  /** The first loop of `__init__`: seed every tile and register it in the occurrence sets of its groups. */
  method SeedTiles(content: seq<int>) returns (c: seq<set<int>>, o: map<Slot, set<int>>, given: seq<int>)
    requires IsPuzzle(content)
    ensures c == InitialCands(content)
    ensures given == ClueList(content, 81)
    ensures forall s :: IsSlot(s) ==> s in o && o[s] == Holders(c, s)
  {
    c := [];
    o := map s | s in AllSlots :: {};
    forall s | IsSlot(s)
      ensures s in o && o[s] == Holders(c, s)
    {
      assert s.kind == Kinds[KindIndex(s.kind)];
      assert s == Slot(s.kind, s.g, s.d);
    }
    given := [];
    var t := 0;
    while t < 81
      invariant 0 <= t <= 81 && |c| == t
      invariant c == InitialCands(content)[..t]
      invariant given == ClueList(content, t)
      invariant forall s :: IsSlot(s) ==> s in o && o[s] == Holders(c, s)
    {
      var opts := InitialCandidates(content[t]);
      if content[t] != 0 {
        given := given + [t];
      }
      ghost var o0 := o;
      var k := 0;
      while k < 3
        invariant 0 <= k <= 3
        invariant forall s :: IsSlot(s) ==> (s in o && o[s] ==
          (if KindIndex(s.kind) < k && s.g == GroupOf(t, s.kind) && s.d in opts then o0[s] + {t} else o0[s]))
      {
        o := AddToOccurrences(o, t, opts, Kinds[k]);
        k := k + 1;
      }
      SeedStep(c, opts, o0, o);
      assert InitialCands(content)[..t + 1] == c + [opts];
      c := c + [opts];
      t := t + 1;
    }
  }

  /** Registering tile |c| with candidates opts in its three groups keeps the index equal to the holders. */
  lemma SeedStep(c: seq<set<int>>, opts: set<int>, o0: map<Slot, set<int>>, o: map<Slot, set<int>>)
    requires |c| < 81
    requires forall s :: IsSlot(s) ==> s in o0 && o0[s] == Holders(c, s)
    requires forall s :: IsSlot(s) ==> (s in o && o[s] ==
               (if KindIndex(s.kind) < 3 && s.g == GroupOf(|c|, s.kind) && s.d in opts then o0[s] + {|c|} else o0[s]))
    ensures forall s :: IsSlot(s) ==> s in o && o[s] == Holders(c + [opts], s)
  {
    forall s | IsSlot(s)
      ensures o[s] == Holders(c + [opts], s)
    {
      HoldersAppend(c, opts, s);
    }
  }

  /** The second loop of `__init__`: each clue, in index order, overwrites its three slots with itself alone. */
  method OverwriteClues(content: seq<int>, c: seq<set<int>>, o: map<Slot, set<int>>, given: seq<int>)
    returns (o2: map<Slot, set<int>>)
    requires IsPuzzle(content)
    requires forall j :: 0 <= j < |given| ==> IsCell(given[j]) && IsDigit(content[given[j]])
    requires forall s :: IsSlot(s) ==> s in o && o[s] == Holders(c, s)
    ensures forall s :: IsSlot(s) ==> s in o2 && o2[s] == OccAfterClues(content, c, given, s)
  {
    o2 := o;
    var j := 0;
    while j < |given|
      invariant 0 <= j <= |given|
      invariant forall s :: IsSlot(s) ==> s in o2 && o2[s] == OccAfterClues(content, c, given[..j], s)
    {
      var i := given[j];
      var v := content[i];
      ghost var o0 := o2;
      var k := 0;
      while k < 3
        invariant 0 <= k <= 3
        invariant forall s :: IsSlot(s) ==> (s in o2 && o2[s] ==
          (if KindIndex(s.kind) < k && s.g == GroupOf(i, s.kind) && s.d == v then {i} else o0[s]))
      {
        var kind := Kinds[k];
        o2 := o2[Slot(kind, GroupOf(i, kind), v) := {i}];
        k := k + 1;
      }
      assert given[..j + 1][..j] == given[..j];
      j := j + 1;
    }
    assert given[..j] == given;
  }

  class Grid {
    var cand: seq<set<int>>
    var nOpts: seq<nat>
    var solvedAt: seq<nat>
    var occ: map<Slot, set<int>>
    var violated: bool

    ghost function Snap(): State
      reads this
    {
      State(cand, solvedAt, occ, violated)
    }

    /** The grid invariant: fixed shape, `n_options == len(options)`, and consistency unless violated. */
    ghost predicate Valid()
      reads this
    {
      Sound(Snap()) && |nOpts| == 81 && forall t :: 0 <= t < 81 ==> nOpts[t] == |cand[t]|
    }

    /** `Sudoku(content)`: seed candidates from the clues and build the occurrence index. */
    constructor (content: seq<int>)
      requires IsPuzzle(content)
      ensures Valid() && !violated && IsInitial(content, Snap())
      ensures cand == InitialCands(content)
      ensures forall t :: 0 <= t < 81 ==> solvedAt[t] == 0
      ensures forall s :: IsSlot(s) ==> occ[s] == InitialOccurrence(content, s)
    {
      var c, o, given := SeedTiles(content);
      o := OverwriteClues(content, c, o, given);
      cand := c;
      nOpts := seq(81, t requires 0 <= t < 81 => |c[t]|);
      solvedAt := seq(81, t => 0);
      occ := o;
      violated := false;
      new;
      InitialSound(content, Snap());
    }

    /** `deepcopy(S)`: an independent grid with the same candidates, markers, index and flag. */
    constructor Copy(other: Grid)
      requires other.Valid()
      ensures Valid() && Snap() == other.Snap() && nOpts == other.nOpts
    {
      cand, nOpts, solvedAt, occ, violated := other.cand, other.nOpts, other.solvedAt, other.occ, other.violated;
    }

    /** The `Tile.options` setter: the cached size always follows the new set. */
    method SetOptions(t: int, s: set<int>)
      requires IsCell(t) && |cand| == 81 && |nOpts| == 81
      modifies this
      ensures cand == old(cand)[t := s] && nOpts == old(nOpts)[t := |s|]
      ensures solvedAt == old(solvedAt) && occ == old(occ) && violated == old(violated)
    {
      cand := cand[t := s];
      nOpts := nOpts[t := |s|];
    }

    /** `tile.solved_at = counter` once the remover has fixed a tile. */
    method SetSolvedAt(t: int, step: nat)
      requires IsCell(t) && |solvedAt| == 81
      modifies this
      ensures solvedAt == old(solvedAt)[t := step]
      ensures cand == old(cand) && nOpts == old(nOpts) && occ == old(occ) && violated == old(violated)
    {
      solvedAt := solvedAt[t := step];
    }

    /** `max_options`: the largest candidate count over all 81 tiles. */
    function MaxOptions(): (m: nat)
      reads this
      requires Valid()
      ensures forall t :: 0 <= t < 81 ==> |cand[t]| <= m
      ensures exists t :: 0 <= t < 81 && |cand[t]| == m
    {
      MaxOf(nOpts)
    }

    /** `done`: every tile is down to exactly one candidate and no violation was seen. */
    function Done(): (b: bool)
      reads this
      requires Valid()
      ensures b <==> !violated && forall t :: 0 <= t < 81 ==> |cand[t]| == 1
    {
      MaxOptions() == 1 && !violated
    }

    /** The digits found among the candidates of group g of the given kind. */
    function GroupUnion(kind: Kind, g: int): (u: set<int>)
      reads this
      requires Valid() && IsGroup(g)
      ensures forall d :: d in u <==> exists j :: 0 <= j < 9 && d in cand[Container(kind, g)[j]]
    {
      ContainerIsGroup(kind, g);
      UnionOver(cand, Container(kind, g))
    }

    /**
     * `is_valid`: false once violated; otherwise true exactly when every row,
     * column and box still has every digit 1..9 among its candidates.
     */
    function IsValid(): (b: bool)
      reads this
      requires Valid()
      ensures b <==> !violated && forall kind: Kind, g, d :: IsGroup(g) && IsDigit(d) ==> d in GroupUnion(kind, g)
    {
      AllDigitsIff();
      !violated && forall kind, g | kind in Kinds && 0 <= g < 9 :: GroupUnion(kind, g) == Digits
    }

    /** A group's union is {1..9} exactly when it contains every digit, as candidates never leave 1..9. */
    lemma AllDigitsIff()
      requires Valid()
      ensures forall kind: Kind, g :: IsGroup(g) ==>
        (kind in Kinds && (GroupUnion(kind, g) == Digits <==> forall d :: IsDigit(d) ==> d in GroupUnion(kind, g)))
    {
      forall kind: Kind, g | IsGroup(g)
        ensures kind in Kinds && (GroupUnion(kind, g) == Digits <==> forall d :: IsDigit(d) ==> d in GroupUnion(kind, g))
      {
        assert Kinds[KindIndex(kind)] == kind;
        GroupFull(kind, g);
      }
    }

    lemma GroupFull(kind: Kind, g: int)
      requires Valid() && IsGroup(g)
      ensures GroupUnion(kind, g) == Digits <==> forall d :: IsDigit(d) ==> d in GroupUnion(kind, g)
    {
      UnionWithinDigits(kind, g);
      FullIff(GroupUnion(kind, g));
    }

    lemma UnionWithinDigits(kind: Kind, g: int)
      requires Valid() && IsGroup(g)
      ensures GroupUnion(kind, g) <= Digits
    {
      ContainerIsGroup(kind, g);
      forall d | d in GroupUnion(kind, g)
        ensures d in Digits
      {
        var j :| 0 <= j < 9 && d in cand[Container(kind, g)[j]];
      }
    }

    /** `get_solved`: the single candidate of every tile, row by row; an error unless `done`. */
    function GetSolved(): (r: Result<seq<seq<int>>, Exception>)
      reads this
      requires Valid()
      ensures r.Err? <==> !Done()
      ensures r.Err? ==> r.error == RuntimeError
      ensures r.Ok? ==> |r.value| == 9 && forall row :: 0 <= row < 9 ==> |r.value[row]| == 9
      ensures r.Ok? ==> forall row, col :: 0 <= row < 9 && 0 <= col < 9 ==>
                          cand[RowColumnToIndex(row, col)] == {r.value[row][col]}
    {
      if Done() then
        var c := cand;
        Ok(seq(9, row requires 0 <= row < 9 =>
             seq(9, col requires 0 <= col < 9 => TheDigit(c[RowColumnToIndex(row, col)]))))
      else Err(RuntimeError)
    }

    /** `get_complexity_map`: every tile's `solved_at`, row by row. */
    function ComplexityMap(): (m: seq<seq<nat>>)
      reads this
      requires Valid()
      ensures |m| == 9 && forall row :: 0 <= row < 9 ==> |m[row]| == 9
      ensures forall row, col :: 0 <= row < 9 && 0 <= col < 9 ==> m[row][col] == solvedAt[RowColumnToIndex(row, col)]
    {
      var marks := solvedAt;
      seq(9, row requires 0 <= row < 9 => seq(9, col requires 0 <= col < 9 => marks[RowColumnToIndex(row, col)]))
    }
  }

  /** The solving-step counter of the stepper that the whole solver shares. */
  class Stepper {
    var counter: nat

    constructor ()
      ensures counter == 0
    {
      counter := 0;
    }

    /** `show_step` after an effective removal: the counter advances by one. */
    method ShowStep()
      modifies this
      ensures counter == old(counter) + 1
    {
      counter := counter + 1;
    }
  }

  function MaxOf(s: seq<nat>): (m: nat)
    requires |s| > 0
    ensures forall i :: 0 <= i < |s| ==> s[i] <= m
    ensures exists i :: 0 <= i < |s| && s[i] == m
  {
    if |s| == 1 then s[0]
    else
      var rest := MaxOf(s[1..]);
      if s[0] >= rest then s[0] else rest
  }

  /** The union of the candidate sets of the listed cells. */
  function UnionOver(cand: seq<set<int>>, cells: seq<int>): (u: set<int>)
    requires forall j :: 0 <= j < |cells| ==> 0 <= cells[j] < |cand|
    ensures forall d :: d in u <==> exists j :: 0 <= j < |cells| && d in cand[cells[j]]
  {
    if cells == [] then {}
    else cand[cells[0]] + UnionOver(cand, cells[1..])
  }

  /** The only element of a one-element set. */
  function TheDigit(s: set<int>): (d: int)
    requires |s| == 1
    ensures s == {d}
  {
    HasElement(s);
    var d :| d in s;
    assert s == {d} by { SingletonSet(s, d); }
    d
  }

  lemma FullIff(u: set<int>)
    requires u <= Digits
    ensures u == Digits <==> forall d :: IsDigit(d) ==> d in u
  {
    if forall d :: IsDigit(d) ==> d in u {
      forall d | d in Digits ensures d in u { assert IsDigit(d); }
    }
  }

  lemma HasElement(s: set<int>)
    requires s != {}
    ensures exists d :: d in s
  {
    if forall d :: d !in s {
      assert false;
    }
  }

  lemma SingletonSet(s: set<int>, d: int)
    requires |s| == 1 && d in s
    ensures s == {d}
  {
    assert |s - {d}| == 0;
  }
}
