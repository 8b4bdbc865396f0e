/** The computer player that moves at random: it picks one of the active player's non-empty
    regular pits, each with the chance the random source gives it. The random source is a
    parameter: `nextInt(bound)` stands for `Random.nextInt(bound)`, a number in [0, bound). */
module RandomPlayers {
  import opened Ring
  import opened Outcomes
  import opened Rules
  import opened Players
  import opened Boards

  /** The indices of the pits holding stones, in ascending order. */
  function Candidates(counts: seq<int>): (c: seq<nat>)
    ensures |c| <= |counts|
  {
    if counts == [] then []
    else Candidates(counts[..|counts| - 1]) + (if counts[|counts| - 1] > 0 then [|counts| - 1] else [])
  }

  /** An index is a candidate exactly when it names a pit holding stones. */
  lemma {:induction false} CandidatesExact(counts: seq<int>)
    ensures forall i :: i in Candidates(counts) <==> 0 <= i < |counts| && counts[i] > 0
  {
    if counts != [] {
      var init := counts[..|counts| - 1];
      CandidatesExact(init);
      forall i ensures i in Candidates(counts) <==> 0 <= i < |counts| && counts[i] > 0 {
        if 0 <= i < |init| {
          assert counts[i] == init[i];
        }
      }
    }
  }

  /** The candidates rise strictly, so none occurs twice. */
  lemma {:induction false} CandidatesAscending(counts: seq<int>)
    ensures forall a, b :: 0 <= a < b < |Candidates(counts)| ==> Candidates(counts)[a] < Candidates(counts)[b]
  {
    if counts != [] {
      var init := counts[..|counts| - 1];
      CandidatesAscending(init);
      CandidatesExact(init);
      var c := Candidates(counts);
      var c0 := Candidates(init);
      forall a, b | 0 <= a < b < |c| ensures c[a] < c[b] {
        if b >= |c0| {
          assert c[a] == c0[a] && c0[a] in c0;
        }
      }
    }
  }

  /** Every pit holding stones is some draw's choice. */
  lemma CandidatesReach(counts: seq<int>, i: int)
    requires 0 <= i < |counts| && counts[i] > 0
    ensures exists k :: 0 <= k < |Candidates(counts)| && Candidates(counts)[k] == i
  {
    CandidatesExact(counts);
    assert i in Candidates(counts);
  }

  /** A candidate among the active side's regular pits is a move `turn` accepts. */
  lemma CandidateLegal(g: Game, k: nat)
    requires Fits(g.counts, g.n) && g.active.Some?
    requires k < |Candidates(Regulars(g.counts, g.n, g.active.value))|
    ensures Legal(g, Candidates(Regulars(g.counts, g.n, g.active.value))[k])
  {
    var regs := Regulars(g.counts, g.n, g.active.value);
    CandidatesExact(regs);
    assert Candidates(regs)[k] in Candidates(regs);
  }

  /** A pit of the active player's snapshot that holds stones is a move `turn` accepts. */
  lemma SnapshotLegal(board: Board, idx: nat)
    requires board.Walkable() && board.activePlayer != null
    requires board.activePlayer in board.RegularSnapshot()
    requires idx < |board.RegularSnapshot()[board.activePlayer]|
    requires board.RegularSnapshot()[board.activePlayer][idx] > 0
    ensures board.N > 0 && Legal(board.Abs(), idx)
  {
    var side := board.SideOf(board.activePlayer);
    assert board.RegularSnapshot()[board.activePlayer] == Regulars(board.Counts(), board.N, side);
  }

  /** The loop of `getNextTurnPitNum`: the indices of the pits holding stones, collected from
      the first pit to the last. */
  method NonEmptyIndices(regPits: seq<int>) returns (nonempty: seq<nat>)
    ensures nonempty == Candidates(regPits)
  {
    nonempty := [];
    for i := 0 to |regPits|
      invariant nonempty == Candidates(regPits[..i])
    {
      assert regPits[..i + 1][..i] == regPits[..i];
      if regPits[i] > 0 {
        nonempty := nonempty + [i];
      }
    }
    assert regPits[..|regPits|] == regPits;
  }

  /** `getNextTurnPitNum`: the active player's regular-pit counts, from the board's snapshot, are
      scanned for pits holding stones, and the draw picks one of them. No active player, or a
      board without pits, fails with NullPointer; no pit holding stones fails with
      IllegalArgument. The board is only read; `SnapshotLegal` shows the pit chosen is a move
      `turn` accepts. */
  method NextTurnPitNum(board: Board, nextInt: nat -> nat) returns (r: Result<nat>)
    requires board.Walkable()
    requires forall bound: nat :: 0 < bound ==> nextInt(bound) < bound
    ensures var snap := board.RegularSnapshot();
            var active := board.activePlayer;
            (r.Err? ==> r.error == NullPointer || r.error == IllegalArgument)
            && (active == null || active !in snap <==> r == Err(NullPointer))
            && (r == Err(IllegalArgument) <==>
                  active != null && active in snap && forall i :: 0 <= i < |snap[active]| ==> snap[active][i] <= 0)
            && (r.Ok? ==>
                  active != null && active in snap && r.value < |snap[active]| && snap[active][r.value] > 0
                  && Candidates(snap[active]) != [] && r.value == Candidates(snap[active])[nextInt(|Candidates(snap[active])|)])
  {
    var snap := board.GetRegularPits();
    var active := board.activePlayer;
    if active == null || active !in snap {
      return Err(NullPointer);
    }
    var regPits := snap[active];
    var nonempty := NonEmptyIndices(regPits);
    CandidatesExact(regPits);
    if nonempty == [] {
      return Err(IllegalArgument);
    }
    var pos := nextInt(|nonempty|);
    assert nonempty[pos] in nonempty;
    return Ok(nonempty[pos]);
  }
}
