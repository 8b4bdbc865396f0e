/** The Kalah board: two players, the active player, a turn counter and the pits, linked into
    one sowing ring per player.

    The pits are heap objects reachable only through the links the board sets up. For the
    proofs the board also keeps, as ghost state, the pits in the layout of module Ring
    (`Cells`) and the number of regular pits per side (`N`); `Abs()` reads the board as a
    `Rules.Game`, and every operation is proved to do to that game what module Rules says. */
module Boards {
  import opened Ring
  import opened Outcomes
  import opened Rules
  import opened Players
  import opened Pits
  import opened Links

  class Board {
    const player1: Player
    const player2: Player
    /** The player to move; null once the game has ended. */
    var activePlayer: Player?
    var turn: int
    /** Each player's first regular pit. */
    var firstPit: map<Player, Pit>
    /** Each player's store. */
    var bigPit: map<Player, Pit>

    ghost var Cells: seq<Pit>
    ghost var N: nat
    /** The layout position of each pit: inverse of Cells, so the pits are all different. */
    ghost var Slot: map<Pit, nat>

    function PlayerOf(side: Side): Player
    {
      if side == First then player1 else player2
    }

    /** The side a board player plays. */
    function SideOf(player: Player): Side
    {
      if player == player1 then First else Second
    }

    /** The pits are laid out as in module Ring, all different, stores exactly at the store
        positions, and the board's maps name each player's first pit and store. */
    ghost predicate Laid()
      reads this`N, this`Cells, this`Slot, this`firstPit, this`bigPit
    {
      N > 0 && |Cells| == 2 * N + 2 && player1 != player2
      && (forall i :: 0 <= i < |Cells| ==> Cells[i] in Slot && Slot[Cells[i]] == i)
      && (forall i :: 0 <= i < |Cells| ==> (Cells[i].kind == BigPit <==> IsStore(N, i)))
      && firstPit.Keys == {player1, player2} && bigPit.Keys == {player1, player2}
      && firstPit[player1] == Cells[PitPos(N, First, 0)] && firstPit[player2] == Cells[PitPos(N, Second, 0)]
      && bigPit[player1] == Cells[StorePos(N, First)] && bigPit[player2] == Cells[StorePos(N, Second)]
    }

    /** Position i links, on the ring of `side`, to the pit Next says. */
    ghost predicate LinkedAt(side: Side, i: int)
      requires Laid() && OnRing(N, side, i)
      reads this`N, this`Cells, this`Slot, this`firstPit, this`bigPit, Cells`next
    {
      PlayerOf(side) in Cells[i].next && Cells[i].next[PlayerOf(side)] == Cells[Next(N, side, i)]
    }

    /** On the side's own stretch of its ring (its regular pits), the links follow Next. */
    ghost predicate OwnChain(side: Side)
      requires Laid()
      reads this`N, this`Cells, this`Slot, this`firstPit, this`bigPit, Cells`next
    {
      forall i {:trigger LinkedAt(side, i)} :: OwnRegular(N, side, i) ==> LinkedAt(side, i)
    }

    /** On the rest of the side's ring (its store and the other side's pits), the links follow
        Next. */
    ghost predicate CrossChain(side: Side)
      requires Laid()
      reads this`N, this`Cells, this`Slot, this`firstPit, this`bigPit, Cells`next
    {
      forall i {:trigger LinkedAt(side, i)} :: OnRing(N, side, i) && !OwnRegular(N, side, i) ==> LinkedAt(side, i)
    }

    /** Every regular pit is linked to the mirror pit across the board. */
    ghost predicate Paired()
      requires Laid()
      reads this`N, this`Cells, this`Slot, this`firstPit, this`bigPit, Cells`opposite
    {
      forall i :: IsRegular(N, i) ==> Cells[i].opposite == Cells[Opposite(N, i)]
    }

    /** What the pointer walks along a player's own pits rely on: no pits at all, or pits laid
        out with each side's own stretch linked. */
    ghost predicate Walkable()
      reads this`N, this`Cells, this`Slot, this`firstPit, this`bigPit, Cells`next
    {
      (N == 0 ==> Cells == [] && firstPit == map[] && bigPit == map[])
      && (N > 0 ==> Laid() && OwnChain(First) && OwnChain(Second))
    }

    /** The pits: none at all, or a fully linked board. */
    ghost predicate Shape()
      reads this`N, this`Cells, this`Slot, this`firstPit, this`bigPit, Cells`next, Cells`opposite
    {
      (N == 0 ==> Cells == [] && firstPit == map[] && bigPit == map[])
      && (N > 0 ==>
            Laid() && OwnChain(First) && OwnChain(Second) && CrossChain(First) && CrossChain(Second)
            && Paired())
    }

    /** The board invariant: two players with different ids, an active player that is one of
        them or null, and the pits in shape. */
    ghost predicate Valid()
      reads this`activePlayer, this`N, this`Cells, this`Slot, this`firstPit, this`bigPit, Cells`next, Cells`opposite
    {
      player1.id != player2.id
      && (activePlayer == null || activePlayer == player1 || activePlayer == player2)
      && Shape()
    }

    /** What `init` needs of a board: the players and the maps of its pits, whatever the pits. */
    predicate Seated()
      reads this`activePlayer, this`firstPit, this`bigPit
    {
      player1.id != player2.id
      && (activePlayer == null || activePlayer == player1 || activePlayer == player2)
      && firstPit.Keys <= {player1, player2} && bigPit.Keys <= {player1, player2}
    }

    /** Every valid board is seated. */
    lemma ValidSeated()
      requires Valid()
      ensures Seated()
    {
    }

    /** The stones of every pit, in layout order. */
    ghost function Counts(): (c: seq<int>)
      reads this`Cells, Cells
      ensures |c| == |Cells|
    {
      StonesOf(Cells)
    }

    ghost function ActiveSide(): Option<Side>
      reads this`activePlayer
    {
      if activePlayer == null then None else Some(SideOf(activePlayer))
    }

    /** The board as a game of module Rules. */
    ghost function Abs(): Game
      reads this`N, this`Cells, this`activePlayer, this`turn, Cells
    {
      Game(N, Counts(), ActiveSide(), turn)
    }

    /** The pits' shape survives any change that leaves the layout and every link alone. */
    twostate lemma ShapeKept()
      requires old(Shape())
      requires unchanged(this`N, this`Cells, this`Slot, this`firstPit, this`bigPit)
      requires forall p: Pit :: p in Cells ==> unchanged(p`next, p`opposite)
      ensures Shape()
    {
      if N > 0 {
        forall side: Side, i | OnRing(N, side, i) ensures LinkedAt(side, i) {
          assert Cells[i] in Cells && old(LinkedAt(side, i));
        }
        forall i | IsRegular(N, i) ensures Cells[i].opposite == Cells[Opposite(N, i)] {
          assert Cells[i] in Cells;
        }
      }
    }

    /** The linked ring of `side` is the ring of module Ring. */
    lemma RingLinks(side: Side, i: nat)
      requires Shape() && N > 0 && OnRing(N, side, i)
      ensures PlayerOf(side) in Cells[i].next && Cells[i].next[PlayerOf(side)] == Cells[Next(N, side, i)]
    {
      assert LinkedAt(side, i);
    }

    /** The board of `new Board(player1, player2, startPlayer)`: no pits yet. */
    constructor (player1: Player, player2: Player, startPlayer: Player)
      requires player1.id != player2.id
      requires startPlayer == player1 || startPlayer == player2
      ensures this.player1 == player1 && this.player2 == player2 && activePlayer == startPlayer
      ensures Valid() && Abs() == Game(0, [], Some(SideOf(startPlayer)), 0)
    {
      this.player1 := player1;
      this.player2 := player2;
      activePlayer := startPlayer;
      turn := 0;
      firstPit := map[];
      bigPit := map[];
      Cells := [];
      N := 0;
      Slot := map[];
    }

    /** The constructor's checks: both players present, players not equal (by id), and the
        start player one of the two (by reference); each failure is IllegalArgument. */
    static method Create(player1: Player?, player2: Player?, startPlayer: Player?) returns (r: Result<Board>)
      ensures r.Err? <==>
                player1 == null || player2 == null || player1.id == player2.id
                || (startPlayer != player1 && startPlayer != player2)
      ensures r.Err? ==> r.error == IllegalArgument
      ensures r.Ok? ==>
                fresh(r.value) && r.value.Valid()
                && r.value.player1 == player1 && r.value.player2 == player2
                && r.value.activePlayer == startPlayer
                && r.value.Abs() == Game(0, [], Some(if startPlayer == player1 then First else Second), 0)
    {
      if player1 == null || player2 == null {
        return Err(IllegalArgument);
      }
      if player1.id == player2.id {
        return Err(IllegalArgument);
      }
      if startPlayer != player1 && startPlayer != player2 {
        return Err(IllegalArgument);
      }
      var b := new Board(player1, player2, startPlayer);
      return Ok(b);
    }

    /** `addRegPits`: a new regular pit per size, in order, each linked for `player` to the
        one after it; the first becomes the player's first pit. Answers the last pit, null
        when there are no sizes (and then the first pits stay as they were). */
    method AddRegPits(player: Player, sizes: seq<int>) returns (last: Pit?, ghost pits: seq<Pit>)
      modifies this`firstPit
      ensures Row(pits, sizes, player) && Distinct(pits)
      ensures forall k :: 0 <= k < |pits| ==> fresh(pits[k])
      ensures last == if sizes == [] then null else pits[|pits| - 1]
      ensures firstPit == if sizes == [] then old(firstPit) else old(firstPit)[player := pits[0]]
    {
      var curPit: Pit? := null;
      pits := [];
      for i := 0 to |sizes|
        invariant |pits| == i && Row(pits, sizes[..i], player) && Distinct(pits)
        invariant forall k :: 0 <= k < i ==> fresh(pits[k])
        invariant curPit == if i == 0 then null else pits[i - 1]
        invariant firstPit == if i == 0 then old(firstPit) else old(firstPit)[player := pits[0]]
      {
        var newPit;
        if curPit == null {
          newPit := new Pit.Regular(sizes[i]);
          firstPit := firstPit[player := newPit];
        } else {
          newPit := Extend(pits, sizes[..i], player, curPit, sizes[i]);
        }
        assert sizes[..i + 1] == sizes[..i] + [sizes[i]];
        curPit := newPit;
        pits := pits + [newPit];
      }
      last := curPit;
      assert sizes[..|sizes|] == sizes;
    }

    /** `addBigPit`: a new store becomes the player's store and `regPit` links to it for the
        player; a null `regPit` (a player without regular pits) fails with NullPointer after
        the store is recorded. */
    method AddBigPit(player: Player, regPit: Pit?, size: int) returns (o: Outcome)
      modifies this`bigPit, ({regPit} - {null})`next
      ensures player in bigPit && bigPit == old(bigPit)[player := bigPit[player]] && fresh(bigPit[player])
      ensures bigPit[player].kind == BigPit && bigPit[player].stones == size
      ensures bigPit[player].next == map[] && bigPit[player].opposite == null
      ensures o == if regPit == null then Fail(NullPointer) else Pass
      ensures regPit != null ==> regPit.next == old(regPit.next)[player := bigPit[player]]
    {
      var newBigPit := new Pit.Big(size);
      bigPit := bigPit[player := newBigPit];
      if regPit == null {
        return Fail(NullPointer);
      }
      regPit.SetNextPit(player, newBigPit);
      o := Pass;
    }

    /** `init`: pits of unequal numbers fail with IllegalArgument and change nothing; no pits
        at all fail with NullPointer once the first player has a new, unlinked store;
        otherwise the board holds new pits with the given stones, each player's sowing ring
        and the opposite pits linked, and the move and the turn counter stay. */
    method Init(sizes1: seq<int>, store1: int, sizes2: seq<int>, store2: int) returns (o: Outcome)
      requires Seated()
      modifies this`firstPit, this`bigPit, this`Cells, this`N, this`Slot
      ensures |sizes1| != |sizes2| ==> o == Fail(IllegalArgument) && unchanged(this)
      ensures |sizes1| == |sizes2| == 0 ==>
                o == Fail(NullPointer) && unchanged(this`firstPit, this`Cells, this`N, this`Slot)
                && player1 in bigPit && bigPit == old(bigPit)[player1 := bigPit[player1]] && fresh(bigPit[player1])
                && bigPit[player1].stones == store1 && bigPit[player1].next == map[]
      ensures |sizes1| == |sizes2| > 0 ==>
                o == Pass && Valid() && fresh(Members(Cells))
                && Abs() == old(Abs()).(n := |sizes1|, counts := Layout(sizes1, store1, sizes2, store2))
    {
      if |sizes1| != |sizes2| {
        return Fail(IllegalArgument);
      }
      ghost var before := Abs();
      ghost var cells;
      o, cells := Populate(sizes1, store1, sizes2, store2);
      assert activePlayer == old(activePlayer) && turn == old(turn);
      if o.Pass? {
        Assemble(cells, |sizes1|, Layout(sizes1, store1, sizes2, store2));
        assert activePlayer == old(activePlayer) && turn == old(turn);
        assert Abs() == before.(n := |sizes1|, counts := Layout(sizes1, store1, sizes2, store2));
      }
    }

    /** The four calls of `init` that make the pits, as `AddRows`; on success the new pits,
        as `cells`, are laid out as in module Ring and hold the
        stones `Layout` lays out, with each player's regular pits linked for that player. */
    method Populate(sizes1: seq<int>, store1: int, sizes2: seq<int>, store2: int)
      returns (o: Outcome, ghost cells: seq<Pit>)
      requires |sizes1| == |sizes2| && player1 != player2
      requires firstPit.Keys <= {player1, player2} && bigPit.Keys <= {player1, player2}
      modifies this`firstPit, this`bigPit
      ensures o == if sizes1 == [] then Fail(NullPointer) else Pass
      ensures sizes1 == [] ==>
                firstPit == old(firstPit) && player1 in bigPit && bigPit == old(bigPit)[player1 := bigPit[player1]]
                && fresh(bigPit[player1]) && bigPit[player1].stones == store1 && bigPit[player1].next == map[]
      ensures sizes1 != [] ==>
                var n := |sizes1|;
                |cells| == 2 * n + 2 && Distinct(cells) && Kinds(cells, n)
                && fresh(Members(cells))
                && OwnLaid(NextsOf(cells), cells, n, player1, player2) && Hold(cells, Layout(sizes1, store1, sizes2, store2))
                && firstPit.Keys == {player1, player2} && bigPit.Keys == {player1, player2}
                && firstPit[player1] == cells[PitPos(n, First, 0)] && firstPit[player2] == cells[PitPos(n, Second, 0)]
                && bigPit[player1] == cells[StorePos(n, First)] && bigPit[player2] == cells[StorePos(n, Second)]
    {
      ghost var pits1, big1, pits2, big2;
      o, pits1, big1, pits2, big2 := AddRows(sizes1, store1, sizes2, store2);
      cells := pits1 + [big1] + pits2 + [big2];
      if o.Pass? {
        Joined(pits1, big1, pits2, big2, player1, player2, sizes1, store1, sizes2, store2, cells);
      }
    }

    /** The four calls of `init` that make the pits: both players' regular pits, then both
        stores; the first store fails with NullPointer when there are no regular pits, and
        the second store is then never made. */
    method AddRows(sizes1: seq<int>, store1: int, sizes2: seq<int>, store2: int)
      returns (o: Outcome, ghost pits1: seq<Pit>, ghost big1: Pit, ghost pits2: seq<Pit>, ghost big2: Pit)
      requires |sizes1| == |sizes2| && player1 != player2
      modifies this`firstPit, this`bigPit
      ensures o == if sizes1 == [] then Fail(NullPointer) else Pass
      ensures sizes1 == [] ==>
                firstPit == old(firstPit) && bigPit == old(bigPit)[player1 := big1]
                && fresh(big1) && big1.stones == store1 && big1.next == map[]
      ensures sizes1 != [] ==>
                |pits1| == |pits2| == |sizes1| && Chained(pits1, sizes1, player1, big1) && Chained(pits2, sizes2, player2, big2)
                && Distinct(pits1) && Distinct(pits2) && big1 != big2
                && (forall i, j :: 0 <= i < |pits1| && 0 <= j < |pits2| ==> pits1[i] != pits2[j])
                && big1 !in pits1 && big1 !in pits2 && big2 !in pits1 && big2 !in pits2
                && big1.kind == BigPit && big2.kind == BigPit && big1.stones == store1 && big2.stones == store2
                && big1.next == map[] && big2.next == map[]
                && (forall k :: 0 <= k < |pits1| ==> fresh(pits1[k])) && (forall k :: 0 <= k < |pits2| ==> fresh(pits2[k]))
                && fresh(big1) && fresh(big2)
                && firstPit == old(firstPit)[player1 := pits1[0]][player2 := pits2[0]]
                && bigPit == old(bigPit)[player1 := big1][player2 := big2]
    {
      var last1, last2;
      last1, pits1 := AddRegPits(player1, sizes1);
      last2, pits2 := AddRegPits(player2, sizes2);
      assert forall i, j :: 0 <= i < |pits1| && 0 <= j < |pits2| ==> pits1[i] != pits2[j];
      o, big1 := CapRow(player1, last1, store1, pits1, sizes1);
      big2 := big1;
      if o.Fail? {
        return;
      }
      assert last2 !in pits1;
      o, big2 := CapRow(player2, last2, store2, pits2, sizes2);
    }

    /** `addBigPit` for the last pit of `pits`, which `addRegPits` made. */
    method CapRow(player: Player, last: Pit?, size: int, ghost pits: seq<Pit>, ghost sizes: seq<int>)
      returns (o: Outcome, ghost big: Pit)
      requires Row(pits, sizes, player) && Distinct(pits) && last == if pits == [] then null else pits[|pits| - 1]
      modifies this`bigPit, ({last} - {null})`next
      ensures bigPit == old(bigPit)[player := big] && fresh(big)
      ensures big.kind == BigPit && big.stones == size && big.next == map[]
      ensures o == if pits == [] then Fail(NullPointer) else Pass
      ensures pits != [] ==> Chained(pits, sizes, player, big)
    {
      o := AddBigPit(player, last, size);
      big := bigPit[player];
      if pits != [] {
        forall k | 0 <= k < |pits| - 1 ensures pits[k].next == old(pits[k].next) {
          assert pits[k] != last;
        }
        assert Hold(pits, sizes);
      }
    }

    /** The new pits, laid out as in module Ring, become the ghost state of the board. */
    ghost method Place(cells: seq<Pit>, n: nat, cnt: seq<int>)
      requires n > 0 && |cells| == 2 * n + 2 && player1 != player2 && Distinct(cells) && Kinds(cells, n)
      requires Hold(cells, cnt)
      requires firstPit.Keys == {player1, player2}
      requires firstPit[player1] == cells[PitPos(n, First, 0)] && firstPit[player2] == cells[PitPos(n, Second, 0)]
      requires bigPit.Keys == {player1, player2}
      requires bigPit[player1] == cells[StorePos(n, First)] && bigPit[player2] == cells[StorePos(n, Second)]
      modifies this`Cells, this`N, this`Slot
      ensures Cells == cells && N == n && Laid() && Counts() == cnt
    {
      HeldStones(cells, cnt);
      Cells := cells;
      N := n;
      Slot := SlotsOf(cells);
    }

    /** The new pits become the board's pits and are linked by `addNxtPit` and
        `addOppRegPit`. */
    method Assemble(ghost cells: seq<Pit>, ghost n: nat, ghost cnt: seq<int>)
      requires n > 0 && |cells| == 2 * n + 2 && player1 != player2 && Distinct(cells) && Kinds(cells, n)
      requires OwnLaid(NextsOf(cells), cells, n, player1, player2) && Hold(cells, cnt)
      requires firstPit.Keys == {player1, player2} && bigPit.Keys == {player1, player2}
      requires firstPit[player1] == cells[PitPos(n, First, 0)] && firstPit[player2] == cells[PitPos(n, Second, 0)]
      requires bigPit[player1] == cells[StorePos(n, First)] && bigPit[player2] == cells[StorePos(n, Second)]
      modifies this`Cells, this`N, this`Slot, Members(cells)`next, Members(cells)`opposite
      ensures Cells == cells && N == n && Shape() && Counts() == cnt
      ensures activePlayer == old(activePlayer) && turn == old(turn)
    {
      Place(cells, n, cnt);
      Link();
    }

    /** `addNxtPit` and then `addOppRegPit` on freshly laid pits: afterwards the pits are in
        shape, with their stones as they were. */
    method Link()
      requires Laid() && OwnLaid(NextsOf(Cells), Cells, N, player1, player2)
      modifies Cells`next, Cells`opposite
      ensures Shape() && Counts() == old(Counts())
    {
      AddNxtPit();
      AddOppRegPit();
    }

    /** `addNxtPit`: for the first player and then the second, link the player's store to the
        other player's first pit, each of the other player's regular pits to the next one
        along the other player's links, and the last of them back to the player's first pit.
        Afterwards each player's links follow that player's whole sowing ring. */
    method AddNxtPit()
      requires Laid() && OwnLaid(NextsOf(Cells), Cells, N, player1, player2)
      modifies Cells`next
      ensures RingLinked(Cells, N, First, player1) && RingLinked(Cells, N, Second, player2)
      ensures Counts() == old(Counts())
    {
      assert Kinds(Cells, N) && Indexed(Cells, Slot);
      LinkRings(Cells, Slot, player1, player2, bigPit[player1], bigPit[player2], firstPit[player1], firstPit[player2], N);
      StonesKept(Cells);
    }

    /** `addOppRegPit`: stack the regular pits met along the second player's links from the
        first player's first pit, then walk the first player's pits, pairing each with the pit
        popped from the stack. Afterwards every regular pit knows its mirror pit, and the
        pits are in shape. */
    method AddOppRegPit()
      requires Laid() && RingLinked(Cells, N, First, player1) && RingLinked(Cells, N, Second, player2)
      modifies Cells`opposite
      ensures Shape() && Counts() == old(Counts())
    {
      assert Kinds(Cells, N);
      RingOwn(Cells, N, First, player1);
      var oppPits := StackAlong(Cells, player2, firstPit[player1], N);
      PairOff(Cells, Slot, player1, firstPit[player1], oppPits, N);
      ShapeFrom();
      StonesKept(Cells);
    }

    /** Laid-out pits with both rings linked and the opposite pits paired are in shape. */
    lemma ShapeFrom()
      requires Laid() && RingLinked(Cells, N, First, player1) && RingLinked(Cells, N, Second, player2) && Paired()
      ensures Shape()
    {
    }

    /** `init()`: six regular pits of six stones per player and empty stores. */
    method InitDefault() returns (o: Outcome)
      requires Seated()
      modifies this`firstPit, this`bigPit, this`Cells, this`N, this`Slot
      ensures o == Pass && Valid() && fresh(Members(Cells))
      ensures Abs() == old(Abs()).(n := 6, counts := Layout(Filled(6, 6), 0, Filled(6, 6), 0))
      ensures old(ActiveSide()).Some? && old(turn) == 0 ==> Abs() == DefaultGame(old(ActiveSide()).value)
    {
      o := Init(Filled(6, 6), 0, Filled(6, 6), 0);
    }

    /** Hand the move to the other player; nothing happens once the game has ended. */
    method NextPlayer()
      requires Valid()
      modifies this`activePlayer
      ensures Valid()
      ensures ActiveSide() == if old(ActiveSide()).None? then None else Some(Other(old(ActiveSide()).value))
      ensures Counts() == old(Counts())
    {
      if activePlayer != null {
        activePlayer := if activePlayer == player1 then player2 else player1;
      }
    }

    /** Whether none of the player's regular pits holds a positive number of stones, found by
        following the player's links from their first pit until a store; true without pits. */
    method IsEmptyPits(player: Player) returns (empty: bool)
      requires player == player1 || player == player2
      requires N == 0 ==> firstPit == map[]
      requires N > 0 ==> Laid() && OwnChain(SideOf(player))
      ensures empty <==> N == 0 || SideEmpty(Counts(), N, SideOf(player))
    {
      var cur: Pit? := if player in firstPit then firstPit[player] else null;
      if cur == null {
        return true;
      }
      ghost var side := SideOf(player);
      OwnFacts(side);
      assert player == PlayerOf(side);
      empty := NoStonesAlong(Cells, player, cur, N, side);
    }

    /** The game is over when either player's regular pits are all empty. */
    method IsGameOver() returns (over: bool)
      requires Valid()
      ensures over <==> GameOver(Counts(), N)
    {
      var empty := IsEmptyPits(player1);
      if empty {
        return true;
      }
      empty := IsEmptyPits(player2);
      if empty {
        return true;
      }
      return false;
    }

    /** The winner of module Rules, as a player; null for no winner. */
    method GetWinner() returns (winner: Player?)
      requires Valid()
      ensures winner == if Winner(Abs()).None? then null else PlayerOf(Winner(Abs()).value)
    {
      var over := IsGameOver();
      if !over {
        return null;
      }
      if player1 !in bigPit {
        return null;
      }
      var bp1 := bigPit[player1];
      if player2 !in bigPit {
        return null;
      }
      var bp2 := bigPit[player2];
      var s1 := bp1.stones;
      var s2 := bp2.stones;
      winner := if s1 > s2 then player1 else if s1 < s2 then player2 else null;
    }

    /** The regular pits of a player, in sowing order, found by following the player's links
        from their first pit until a store; none for null or on a board without pits. */
    method GetRegularPitsOf(player: Player?) returns (pits: seq<Pit>)
      requires player == null || player == player1 || player == player2
      requires N == 0 ==> firstPit == map[]
      requires N > 0 && player != null ==> Laid() && OwnChain(SideOf(player))
      ensures player == null || N == 0 ==> pits == []
      ensures player != null && N > 0 ==>
                pits == Cells[PitPos(N, SideOf(player), 0)..PitPos(N, SideOf(player), 0) + N]
    {
      pits := [];
      var cur: Pit? := if player != null && player in firstPit then firstPit[player] else null;
      if cur == null {
        return;
      }
      ghost var side := SideOf(player);
      OwnFacts(side);
      assert player == PlayerOf(side);
      pits := PitsAlong(Cells, player, cur, N, side);
    }

    /** The stone counts of the given pits. */
    static method CountsOf(pits: seq<Pit>) returns (counts: seq<int>)
      ensures counts == StonesOf(pits)
    {
      counts := [];
      for i := 0 to |pits|
        invariant counts == StonesOf(pits[..i])
      {
        assert pits[..i + 1] == pits[..i] + [pits[i]];
        StonesOfAppend(pits[..i], [pits[i]]);
        counts := counts + [pits[i].stones];
      }
      assert pits[..|pits|] == pits;
    }

    /** One player's entry of the regular-pit snapshot. */
    method RegularCountsOf(player: Player) returns (counts: seq<int>)
      requires Walkable() && N > 0 && (player == player1 || player == player2)
      ensures counts == RegularSnapshot()[player]
    {
      var pits := GetRegularPitsOf(player);
      counts := CountsOf(pits);
    }

    /** What `getRegularPits()` answers: each player's regular-pit counts in sowing order, and
        nothing on a board without pits. */
    ghost function RegularSnapshot(): (m: map<Player, seq<int>>)
      requires Walkable()
      reads this`N, this`Cells, this`Slot, this`firstPit, this`bigPit, Cells
      ensures m.Keys == firstPit.Keys
    {
      if N == 0 then map[]
      else map[player1 := Regulars(Counts(), N, First), player2 := Regulars(Counts(), N, Second)]
    }

    /** The snapshot of every player's regular pits, built over the board's players in whatever
        order the first-pit map yields them. */
    method GetRegularPits() returns (m: map<Player, seq<int>>)
      requires Walkable()
      ensures m == RegularSnapshot()
    {
      ghost var snap := RegularSnapshot();
      m := map[];
      var keys := firstPit.Keys;
      while keys != {}
        invariant keys <= snap.Keys
        invariant m.Keys == snap.Keys - keys
        invariant forall p :: p in m ==> m[p] == snap[p]
        decreases keys
      {
        var p :| p in keys;
        assert N > 0 && (p == player1 || p == player2);
        var counts := RegularCountsOf(p);
        m := m[p := counts];
        keys := keys - {p};
      }
      SameMap(m, snap);
    }

    /** The snapshot of every player's store; no entry on a board without pits. */
    method GetBigPits() returns (m: map<Player, int>)
      requires Walkable()
      ensures N == 0 ==> m == map[]
      ensures N > 0 ==>
                m == map[player1 := Counts()[StorePos(N, First)], player2 := Counts()[StorePos(N, Second)]]
    {
      m := map[];
      var keys := firstPit.Keys;
      while keys != {}
        invariant keys <= firstPit.Keys
        invariant m.Keys == firstPit.Keys - keys
        invariant forall p :: p in m ==> m[p] == Counts()[StorePos(N, SideOf(p))]
        decreases keys
      {
        var p :| p in keys;
        m := m[p := bigPit[p].stones];
        keys := keys - {p};
      }
    }

    /** `getRegularPit`: the active player's regular pit `idx`, counted from zero along the
        player's links; out of range when no player is active or the board has no pits. */
    method GetRegularPit(idx: int) returns (r: Result<Pit>)
      requires activePlayer == null || activePlayer == player1 || activePlayer == player2
      requires N == 0 ==> firstPit == map[]
      requires N > 0 && activePlayer != null ==> Laid() && OwnChain(ActiveSide().value)
      ensures ActiveSide().None? || !(0 <= idx < N) ==> r == Err(IndexOutOfBounds)
      ensures ActiveSide().Some? && 0 <= idx < N ==> r == Ok(Cells[PitPos(N, ActiveSide().value, idx)])
    {
      var pits := GetRegularPitsOf(activePlayer);
      if !(0 <= idx < |pits|) {
        return Err(IndexOutOfBounds);
      }
      return Ok(pits[idx]);
    }


    /** `sowStones`: take up the active player's pit `pitNum` and drop its stones one by one
        along the active player's ring. Out of range (also once the game has ended, since no
        player is active) fails before anything changes; an empty pit is taken up and then
        fails. On success the last pit sown into is returned. */
    method SowStones(pitNum: int) returns (r: Result<Pit>)
      requires activePlayer == null || activePlayer == player1 || activePlayer == player2
      requires N == 0 ==> Cells == [] && firstPit == map[]
      requires N > 0 ==> |Cells| == 2 * N + 2
      requires N > 0 && activePlayer != null ==>
                 Laid() && OwnChain(ActiveSide().value) && CrossChain(ActiveSide().value)
      modifies Cells`stones
      ensures ActiveSide().None? || !(0 <= pitNum < N) ==>
                r == Err(IndexOutOfBounds) && Counts() == old(Counts())
      ensures ActiveSide().Some? && 0 <= pitNum < N ==>
                var side := ActiveSide().value;
                var from := PitPos(N, side, pitNum);
                var s := old(Counts())[from];
                if s <= 0 then r == Err(IllegalArgument) && Counts() == old(Counts())[from := 0]
                else r.Ok? && Counts() == Sow(old(Counts())[from := 0], N, side, from, s)
                     && r.value == Cells[Walk(N, side, from, s)]
    {
      var start := GetRegularPit(pitNum);
      if start.Err? {
        return Err(start.error);
      }
      ghost var side := ActiveSide().value;
      RingFacts(side);
      r := SowFrom(activePlayer, start.value, side, PitPos(N, side, pitNum));
    }

    /** `sowStones` once the pit is found: take up the pit at position `from` and, if it held
        stones, drop them one by one along `player`'s ring. */
    method SowFrom(player: Player, pit: Pit, ghost side: Side, ghost from: nat) returns (r: Result<Pit>)
      requires N > 0 && Indexed(Cells, Slot) && RingLinked(Cells, N, side, player)
      requires OwnRegular(N, side, from) && pit == Cells[from] && pit.kind == RegularPit
      modifies Cells`stones
      ensures var s := old(Counts())[from];
              if s <= 0 then r == Err(IllegalArgument) && Counts() == old(Counts())[from := 0]
              else r.Ok? && Counts() == Sow(old(Counts())[from := 0], N, side, from, s)
                   && r.value == Cells[Walk(N, side, from, s)]
    {
      ghost var cells := Cells;
      ghost var c0 := Counts();
      HoldsStones(cells);
      var stones := TakeUp(cells, Slot, pit, from, c0);
      if stones <= 0 {
        HeldStones(cells, c0[from := 0]);
        return Err(IllegalArgument);
      }
      var last := DropStones(cells, Slot, player, pit, stones, N, side, from, c0[from := 0]);
      HeldStones(cells, Sow(c0[from := 0], N, side, from, stones));
      return Ok(last);
    }

    /** What sowing along the ring of `side` relies on, spelled out: every pit knows its
        position, and every pit on the ring links to the next one. */
    lemma RingFacts(side: Side)
      requires Laid() && OwnChain(side) && CrossChain(side)
      ensures N > 0 && Indexed(Cells, Slot) && RingLinked(Cells, N, side, PlayerOf(side))
    {
      forall i | OnRing(N, side, i)
        ensures PlayerOf(side) in Cells[i].next && Cells[i].next[PlayerOf(side)] == Cells[Next(N, side, i)]
      {
        assert LinkedAt(side, i);
      }
    }

    /** What walking a side's own pits relies on, spelled out. */
    lemma OwnFacts(side: Side)
      requires Laid() && OwnChain(side)
      ensures N > 0 && Indexed(Cells, Slot) && OwnLinked(Cells, N, side, PlayerOf(side))
      ensures firstPit[PlayerOf(side)] == Cells[PitPos(N, side, 0)]
      ensures bigPit[PlayerOf(side)] == Cells[StorePos(N, side)] && Cells[StorePos(N, side)].kind == BigPit
    {
      forall i | OwnRegular(N, side, i)
        ensures Cells[i].kind == RegularPit
                && PlayerOf(side) in Cells[i].next && Cells[i].next[PlayerOf(side)] == Cells[Next(N, side, i)]
      {
        assert LinkedAt(side, i);
      }
    }

    /** `collectPitsToBigPit`: empty every regular pit of the player that holds stones into
        the player's store, walking the player's own links. */
    method CollectPitsToBigPit(player: Player)
      requires Walkable() && N > 0 && (player == player1 || player == player2)
      modifies Cells`stones
      ensures Counts() == Sweep(old(Counts()), N, SideOf(player))
    {
      ghost var side := SideOf(player);
      ghost var cells := Cells;
      ghost var c0 := Counts();
      OwnFacts(side);
      HoldsStones(cells);
      SweepPits(cells, Slot, player, firstPit[player], bigPit[player], N, side, c0);
      HeldStones(cells, Sweep(c0, N, side));
    }

    /** `finishGame`: sweep the side that still has stones (the second player's when the
        first player's pits are empty) and end the game. */
    method FinishGame()
      requires Walkable() && N > 0
      modifies this`activePlayer, Cells`stones
      ensures Counts() == Finish(old(Counts()), N)
      ensures activePlayer == null
    {
      var empty := IsEmptyPits(player1);
      var player := if empty then player2 else player1;
      assert SideOf(player) == if SideEmpty(Counts(), N, First) then Second else First;
      CollectPitsToBigPit(player);
      ghost var c := Counts();
      assert c == Finish(old(Counts()), N);
      activePlayer := null;
      assert Counts() == c;
    }

    /** `collectStones`: the capture. The active player's store takes the stones of the given
        pit and then those of its opposite pit. */
    method CollectStones(currentPit: Pit, ghost i: nat)
      requires Laid() && Paired() && (activePlayer == player1 || activePlayer == player2)
      requires OwnRegular(N, ActiveSide().value, i) && currentPit == Cells[i]
      modifies Cells`stones
      ensures Counts() == Capture(old(Counts()), N, old(ActiveSide()).value, i)
    {
      ghost var side := ActiveSide().value;
      ghost var st := StorePos(N, side);
      ghost var o := Opposite(N, i);
      ghost var cells := Cells;
      ghost var c := Counts();
      CaptureEffect(c, N, side, i, 0);
      var big := bigPit[activePlayer];
      assert big == cells[st] && currentPit.opposite == cells[o];
      assert Indexed(cells, Slot);
      HoldsStones(cells);
      Pour(cells, Slot, currentPit, big, i, st, c);
      var opp := currentPit.opposite;
      Pour(cells, Slot, opp, big, o, st, Move(c, i, st));
      HeldStones(cells, Capture(c, N, side, i));
    }
    /** `turn`: the counter rises first; then the active player's pit `pitNum` is sown (a
        failure there is the outcome); then, in this order, the end-of-game check, the extra
        turn after a last stone in a store, the capture of a last stone in an own pit that
        now holds exactly one (followed by a second end-of-game check), and the switch of
        player. */
    method Turn(pitNum: int) returns (o: Outcome)
      requires Valid()
      modifies this`turn, this`activePlayer, Cells`stones
      ensures Valid()
      ensures Step(Abs(), o) == Rules.Turn(old(Abs()), pitNum)
    {
      ghost var g := Abs();
      turn := turn + 1;
      assert Abs() == g.(turn := g.turn + 1);
      assert Rules.Turn(g, pitNum) == Rules.PlayTurn(Abs(), pitNum);
      o := PlayTurn(pitNum);
    }

    /** `turn` once the counter has risen. */
    method PlayTurn(pitNum: int) returns (o: Outcome)
      requires Valid()
      modifies this`activePlayer, Cells`stones
      ensures Valid()
      ensures Step(Abs(), o) == Rules.PlayTurn(old(Abs()), pitNum)
    {
      ghost var g := Abs();
      assert Fits(g.counts, g.n);
      var r := SowStones(pitNum);
      ShapeKept();
      if r.Err? {
        return Fail(r.error);
      }
      assert Legal(g, pitNum);
      ghost var lp := LastPit(g, pitNum);
      assert Abs() == g.(counts := Sown(g, pitNum));
      Settle(r.value, lp);
      return Pass;
    }

    /** The part of `turn` after a successful sowing whose last stone fell at position `lp`. */
    method Settle(last: Pit, ghost lp: nat)
      requires Valid() && N > 0 && activePlayer != null
      requires OnRing(N, ActiveSide().value, lp) && last == Cells[lp]
      modifies this`activePlayer, Cells`stones
      ensures Valid()
      ensures Abs() == AfterSowing(old(Abs()), old(ActiveSide()).value, lp)
    {
      var over := EndIfOver();
      if !over {
        Resolve(last, lp);
      }
    }

    /** `turn` after sowing, once the game is known to go on: the extra turn after a last
        stone in a store, or else what follows a last stone in a regular pit. */
    method Resolve(last: Pit, ghost lp: nat)
      requires Valid() && N > 0 && activePlayer != null && !GameOver(Counts(), N)
      requires OnRing(N, ActiveSide().value, lp) && last == Cells[lp]
      modifies this`activePlayer, Cells`stones
      ensures Valid()
      ensures Abs() == AfterSowing(old(Abs()), old(ActiveSide()).value, lp)
    {
      if last.kind == BigPit {
        return;
      }
      ResolveRegular(last, lp);
    }

    /** `turn` after sowing into a regular pit, the game going on: the capture when the pit
        is one of the active player's own and now holds exactly one stone, else the switch of
        player. */
    method ResolveRegular(last: Pit, ghost lp: nat)
      requires Valid() && N > 0 && activePlayer != null && !GameOver(Counts(), N)
      requires OnRing(N, ActiveSide().value, lp) && last == Cells[lp] && last.kind == RegularPit
      modifies this`activePlayer, Cells`stones
      ensures Valid()
      ensures Abs() == AfterSowing(old(Abs()), old(ActiveSide()).value, lp)
    {
      ghost var g := Abs();
      ghost var side := ActiveSide().value;
      assert !IsStore(N, lp);
      var captures := Captures(last, lp);
      if captures {
        CaptureThenSwitch(last, lp);
      } else {
        NextPlayer();
        assert Abs() == g.(active := Some(Other(side)));
      }
    }

    /** The capture test of `turn`: the last pit sown into, at position `lp`, is one of the
        active player's regular pits and now holds exactly one stone. */
    method Captures(last: Pit, ghost lp: nat) returns (b: bool)
      requires Valid() && N > 0 && activePlayer != null && lp < |Cells| && last == Cells[lp]
      ensures b <==> OwnRegular(N, ActiveSide().value, lp) && Counts()[lp] == 1
    {
      ghost var side := ActiveSide().value;
      assert Laid() && side == SideOf(activePlayer);
      var pits := GetRegularPitsOf(activePlayer);
      b := last in pits && last.stones == 1;
      CaptureTest(side, lp, pits);
    }

    /** The capture test of `turn` on the pit at position `lp`, given the side's regular pits:
        the pit is one of them and now holds exactly one stone. */
    lemma CaptureTest(side: Side, lp: nat, pits: seq<Pit>)
      requires Laid() && lp < |Cells| && pits == Cells[PitPos(N, side, 0)..PitPos(N, side, 0) + N]
      ensures (Cells[lp] in pits && Cells[lp].stones == 1) <==> (OwnRegular(N, side, lp) && Counts()[lp] == 1)
    {
      InOwnPits(side, lp);
    }

    /** The capture of `turn`, its end-of-game check, and the switch of player. */
    method CaptureThenSwitch(last: Pit, ghost lp: nat)
      requires Valid() && N > 0 && activePlayer != null
      requires OwnRegular(N, ActiveSide().value, lp) && last == Cells[lp]
      modifies this`activePlayer, Cells`stones
      ensures Valid()
      ensures var side := old(ActiveSide()).value;
              Abs() == AfterCapture(old(Abs()).(counts := Capture(old(Counts()), N, side, lp)), side)
    {
      ghost var side := ActiveSide().value;
      ghost var g2 := Abs().(counts := Capture(Counts(), N, side, lp));
      CaptureAt(last, lp);
      assert Abs() == g2;
      SwitchUnlessOver();
    }

    /** The second end-of-game check of `turn`, else the switch of player. */
    method SwitchUnlessOver()
      requires Valid() && N > 0 && activePlayer != null
      modifies this`activePlayer, Cells`stones
      ensures Valid()
      ensures Abs() == AfterCapture(old(Abs()), old(ActiveSide()).value)
    {
      ghost var g := Abs();
      ghost var side := ActiveSide().value;
      var over := EndIfOver();
      if !over {
        NextPlayer();
        assert Abs() == g.(active := Some(Other(side)));
      }
    }

    /** The end-of-game check of `turn`: when either side is empty, `finishGame`. */
    method EndIfOver() returns (ended: bool)
      requires Valid() && N > 0
      modifies this`activePlayer, Cells`stones
      ensures Valid()
      ensures ended == GameOver(old(Counts()), N)
      ensures ended ==> Abs() == Ended(old(Abs()))
      ensures !ended ==> Abs() == old(Abs())
    {
      ended := IsGameOver();
      if ended {
        FinishGame();
      }
      ShapeKept();
    }

    /** The capture step of `turn`, at the own regular pit at position `lp`. */
    method CaptureAt(last: Pit, ghost lp: nat)
      requires Valid() && N > 0 && activePlayer != null
      requires OwnRegular(N, ActiveSide().value, lp) && last == Cells[lp]
      modifies Cells`stones
      ensures Valid()
      ensures Counts() == Capture(old(Counts()), N, ActiveSide().value, lp)
    {
      CollectStones(last, lp);
      ShapeKept();
    }

    /** A pit is among a side's regular pits exactly when its position is one of them. */
    lemma InOwnPits(side: Side, i: nat)
      requires Laid() && i < |Cells|
      ensures Cells[i] in Cells[PitPos(N, side, 0)..PitPos(N, side, 0) + N] <==> OwnRegular(N, side, i)
    {
      var base := PitPos(N, side, 0);
      if Cells[i] in Cells[base..base + N] {
        var k :| 0 <= k < N && Cells[base..base + N][k] == Cells[i];
        assert Slot[Cells[base + k]] == Slot[Cells[i]];
      }
      if OwnRegular(N, side, i) {
        assert Cells[base..base + N][i - base] == Cells[i];
      }
    }
  }
}
