/** The concrete games of the engine's own board tests, replayed on the rules. Each lemma
    states the boards and outcomes those tests expect after each `turn` call. Counts are in
    the layout of module Ring: the first player's pits, their store, the second player's pits,
    their store. */
module Scenarios {
  import opened Ring
  import opened Outcomes
  import opened Rules

  /** Two pits per side, [1, 2] store 3 against [4, 5] store 6: three turns that each end in a
      pit the capture rule does not apply to, so the players alternate. */
  lemma TurnEndsOnNonEmptyRegularPit()
    ensures Turn(Game(2, [1, 2, 3, 4, 5, 6], Some(First), 0), 0)
            == Step(Game(2, [0, 3, 3, 4, 5, 6], Some(Second), 1), Pass)
    ensures Turn(Game(2, [0, 3, 3, 4, 5, 6], Some(Second), 1), 0)
            == Step(Game(2, [1, 4, 3, 0, 6, 7], Some(First), 2), Pass)
    ensures Turn(Game(2, [1, 4, 3, 0, 6, 7], Some(First), 2), 1)
            == Step(Game(2, [2, 0, 4, 1, 7, 7], Some(Second), 3), Pass)
    ensures Winner(Game(2, [2, 0, 4, 1, 7, 7], Some(Second), 3)) == None
  {
    FirstSowsIntoOwnPit();
    SecondSowsAcrossStore();
    FirstSowsIntoOpponentPits();
  }

  lemma FirstSowsIntoOwnPit()
    ensures Turn(Game(2, [1, 2, 3, 4, 5, 6], Some(First), 0), 0)
            == Step(Game(2, [0, 3, 3, 4, 5, 6], Some(Second), 1), Pass)
  {
    var g := Game(2, [1, 2, 3, 4, 5, 6], Some(First), 0);
    var c1 := [0, 3, 3, 4, 5, 6];
    assert Sown(g, 0) == c1 && LastPit(g, 0) == 1;
    assert c1[PitPos(2, First, 1)] > 0 && c1[PitPos(2, Second, 0)] > 0;
  }

  lemma SecondSowsAcrossStore()
    ensures Turn(Game(2, [0, 3, 3, 4, 5, 6], Some(Second), 1), 0)
            == Step(Game(2, [1, 4, 3, 0, 6, 7], Some(First), 2), Pass)
  {
    var g := Game(2, [0, 3, 3, 4, 5, 6], Some(Second), 1);
    var c1 := [1, 4, 3, 0, 6, 7];
    assert From(g, 0) == 3;
    assert Sown(g, 0) == c1 && LastPit(g, 0) == 1;
    assert c1[PitPos(2, First, 0)] > 0 && c1[PitPos(2, Second, 1)] > 0;
  }

  lemma FirstSowsIntoOpponentPits()
    ensures Turn(Game(2, [1, 4, 3, 0, 6, 7], Some(First), 2), 1)
            == Step(Game(2, [2, 0, 4, 1, 7, 7], Some(Second), 3), Pass)
    ensures Winner(Game(2, [2, 0, 4, 1, 7, 7], Some(Second), 3)) == None
  {
    var g := Game(2, [1, 4, 3, 0, 6, 7], Some(First), 2);
    var c1 := [2, 0, 4, 1, 7, 7];
    assert Sown(g, 1) == c1 && LastPit(g, 1) == 0;
    assert c1[PitPos(2, First, 0)] > 0 && c1[PitPos(2, Second, 0)] > 0;
  }

  /** The last stone lands in the mover's own empty pit: it and the opposite pit's three
      stones go to the mover's store. */
  lemma TurnEndsOnEmptyRegularPit()
    ensures Turn(Game(3, [5, 1, 0, 2, 3, 4, 6, 7], Some(First), 0), 1)
            == Step(Game(3, [5, 0, 0, 6, 0, 4, 6, 7], Some(Second), 1), Pass)
  {
    var g := Game(3, [5, 1, 0, 2, 3, 4, 6, 7], Some(First), 0);
    var c1 := [5, 0, 1, 2, 3, 4, 6, 7];
    assert Sown(g, 1) == c1 && LastPit(g, 1) == 2;
    assert c1[PitPos(3, First, 0)] > 0 && c1[PitPos(3, Second, 0)] > 0;
    var c2 := [5, 0, 0, 6, 0, 4, 6, 7];
    assert Capture(c1, 3, First, 2) == c2;
    assert c2[PitPos(3, First, 0)] > 0 && c2[PitPos(3, Second, 1)] > 0;
    CaptureSwitches(g, 1, c1, 2, c2);
  }

  /** A turn whose last stone is captured and whose capture leaves the game going, in terms of
      its intermediate boards. */
  lemma CaptureSwitches(g: Game, idx: int, c1: seq<int>, last: nat, c2: seq<int>)
    requires Fits(g.counts, g.n) && Legal(g, idx) && Sown(g, idx) == c1 && LastPit(g, idx) == last
    requires !GameOver(c1, g.n) && !IsStore(g.n, last) && OwnRegular(g.n, g.active.value, last) && c1[last] == 1
    requires Capture(c1, g.n, g.active.value, last) == c2 && !GameOver(c2, g.n)
    ensures Turn(g, idx) == Step(g.(counts := c2, active := Some(Other(g.active.value)), turn := g.turn + 1), Pass)
  {
  }

  /** The last stone falls into an empty pit of the opponent: no capture, and the opponent
      moves next. */
  lemma TurnEndsOnEmptyOppositeRegularPit()
    ensures Turn(Game(3, [5, 1, 2, 3, 4, 0, 6, 7], Some(First), 0), 0)
            == Step(Game(3, [0, 2, 3, 4, 5, 1, 6, 7], Some(Second), 1), Pass)
  {
    var g := Game(3, [5, 1, 2, 3, 4, 0, 6, 7], Some(First), 0);
    var c1 := [0, 2, 3, 4, 5, 1, 6, 7];
    assert Sown(g, 0) == c1 && LastPit(g, 0) == 5;
    assert c1[PitPos(3, First, 1)] > 0 && c1[PitPos(3, Second, 0)] > 0;
  }

  /** A capture that empties the mover's side ends the game; the opponent's stones are swept
      into the opponent's store and the opponent wins. */
  lemma TurnGameOverOnEmptyRegularPit()
    ensures Turn(Game(3, [0, 1, 0, 2, 3, 4, 6, 7], Some(First), 0), 1)
            == Step(Game(3, [0, 0, 0, 6, 0, 0, 0, 17], None, 1), Pass)
  {
    var g := Game(3, [0, 1, 0, 2, 3, 4, 6, 7], Some(First), 0);
    var c1 := [0, 0, 1, 2, 3, 4, 6, 7];
    assert Sown(g, 1) == c1 && LastPit(g, 1) == 2;
    assert c1[PitPos(3, First, 2)] > 0 && c1[PitPos(3, Second, 0)] > 0;
    var c2 := [0, 0, 0, 6, 0, 4, 6, 7];
    assert Capture(c1, 3, First, 2) == c2;
    FinishAfterCapture(c2);
    CaptureEndsGame(g, 1, c1, 2, c2, [0, 0, 0, 6, 0, 0, 0, 17]);
  }

  /** The end of that game: the second player's remaining stones are swept. */
  lemma FinishAfterCapture(c2: seq<int>)
    requires c2 == [0, 0, 0, 6, 0, 4, 6, 7]
    ensures GameOver(c2, 3) && Finish(c2, 3) == [0, 0, 0, 6, 0, 0, 0, 17]
  {
    assert SideEmpty(c2, 3, First);
  }

  /** A turn whose last stone is captured and whose capture ends the game, in terms of its
      intermediate boards. */
  lemma CaptureEndsGame(g: Game, idx: int, c1: seq<int>, last: nat, c2: seq<int>, c3: seq<int>)
    requires Fits(g.counts, g.n) && Legal(g, idx) && Sown(g, idx) == c1 && LastPit(g, idx) == last
    requires !GameOver(c1, g.n) && !IsStore(g.n, last) && OwnRegular(g.n, g.active.value, last) && c1[last] == 1
    requires Capture(c1, g.n, g.active.value, last) == c2 && GameOver(c2, g.n) && Finish(c2, g.n) == c3
    ensures Turn(g, idx) == Step(g.(counts := c3, active := None, turn := g.turn + 1), Pass)
  {
  }

  /** The board that game ends on: the second player's store is larger, so they win. */
  lemma SecondWinsAfterCapture()
    ensures Winner(Game(3, [0, 0, 0, 6, 0, 0, 0, 17], None, 1)) == Some(Second)
  {
    assert SideEmpty([0, 0, 0, 6, 0, 0, 0, 17], 3, First);
  }

  /** The last stone lands in the mover's store: the same player moves again. */
  lemma TurnEndsOnBigPit()
    ensures Turn(Game(2, [2, 1, 3, 4, 5, 6], Some(First), 0), 0)
            == Step(Game(2, [0, 2, 4, 4, 5, 6], Some(First), 1), Pass)
  {
    var g := Game(2, [2, 1, 3, 4, 5, 6], Some(First), 0);
    var c1 := [0, 2, 4, 4, 5, 6];
    assert Sown(g, 0) == c1 && LastPit(g, 0) == 2;
    assert c1[PitPos(2, First, 1)] > 0 && c1[PitPos(2, Second, 0)] > 0;
  }

  /** Moving from an empty pit is rejected, and the counter has still risen. */
  lemma TurnOnEmptyPit()
    ensures Turn(Game(2, [0, 1, 2, 3, 4, 5], Some(First), 0), 0)
            == Step(Game(2, [0, 1, 2, 3, 4, 5], Some(First), 1), Fail(IllegalArgument))
  {
    assert [0, 1, 2, 3, 4, 5][0 := 0] == [0, 1, 2, 3, 4, 5];
  }

  /** The mover's last stones empty their side: the game ends and the opponent wins. */
  lemma LastTurn()
    ensures Turn(Game(2, [0, 2, 2, 3, 4, 5], Some(First), 0), 1)
            == Step(Game(2, [0, 0, 3, 0, 0, 13], None, 1), Pass)
    ensures Winner(Game(2, [0, 0, 3, 0, 0, 13], None, 1)) == Some(Second)
  {
    var g := Game(2, [0, 2, 2, 3, 4, 5], Some(First), 0);
    var c1 := [0, 0, 3, 4, 4, 5];
    assert Sown(g, 1) == c1;
    assert SideEmpty(c1, 2, First);
    assert Finish(c1, 2) == [0, 0, 3, 0, 0, 13];
  }

  /** Same, ending level: no winner. */
  lemma LastTurnNoWinner()
    ensures Turn(Game(2, [0, 1, 2, 1, 1, 1], Some(First), 0), 1)
            == Step(Game(2, [0, 0, 3, 0, 0, 3], None, 1), Pass)
    ensures Winner(Game(2, [0, 0, 3, 0, 0, 3], None, 1)) == None
  {
    var g := Game(2, [0, 1, 2, 1, 1, 1], Some(First), 0);
    var c1 := [0, 0, 3, 1, 1, 1];
    assert Sown(g, 1) == c1;
    assert SideEmpty(c1, 2, First);
    assert Finish(c1, 2) == [0, 0, 3, 0, 0, 3];
  }

  /** A last stone in the own store that empties the mover's side ends the game instead of
      granting another turn. */
  lemma StoreLandingEndsGame()
    ensures Turn(Game(2, [0, 1, 2, 3, 4, 5], Some(First), 0), 1)
            == Step(Game(2, [0, 0, 3, 0, 0, 12], None, 1), Pass)
  {
    var g := Game(2, [0, 1, 2, 3, 4, 5], Some(First), 0);
    var c1 := [0, 0, 3, 3, 4, 5];
    assert Sown(g, 1) == c1 && LastPit(g, 1) == 2;
    assert SideEmpty(c1, 2, First);
    assert Finish(c1, 2) == [0, 0, 3, 0, 0, 12];
  }

  /** Game over and winner on boards set up directly: a board without pits is over with no
      winner, a running board has no winner, and a board with empty pits is won on the
      stores. */
  lemma GameOverAndWinner()
    ensures GameOver([], 0) && Winner(Game(0, [], Some(First), 0)) == None
    ensures !GameOver([1, 2, 3, 4, 5, 6], 2)
    ensures Winner(Game(2, [1, 2, 3, 4, 5, 6], Some(First), 0)) == None
    ensures GameOver([0, 0, 1, 0, 0, 0], 2)
    ensures Winner(Game(2, [0, 0, 1, 0, 0, 0], Some(First), 0)) == Some(First)
  {
    assert [1, 2, 3, 4, 5, 6][PitPos(2, First, 0)] > 0 && [1, 2, 3, 4, 5, 6][PitPos(2, Second, 0)] > 0;
  }

  /** Once the game has ended every further turn is rejected as out of range. */
  lemma TurnAfterGameOver(idx: int)
    ensures Turn(Game(2, [0, 0, 3, 0, 0, 13], None, 1), idx)
            == Step(Game(2, [0, 0, 3, 0, 0, 13], None, 2), Fail(IndexOutOfBounds))
  {
  }
}
