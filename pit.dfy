/** The pits of a board. A pit holds a number of stones and, per player, the pit that player
    sows into next. Regular pits can be emptied at once and know their opposite pit; stores
    (big pits) only ever gain stones. */
module Pits {
  import opened Players

  datatype Kind = RegularPit | BigPit

  class Pit {
    var stones: int
    /** The successor of this pit on each player's sowing ring. */
    var next: map<Player, Pit>
    /** The regular pit across the board (regular pits only). */
    var opposite: Pit?
    const kind: Kind

    /** A regular pit holding `initSize` stones, linked to nothing yet. */
    constructor Regular(initSize: int)
      ensures kind == RegularPit && stones == initSize
      ensures next == map[] && opposite == null
    {
      kind := RegularPit;
      stones := initSize;
      next := map[];
      opposite := null;
    }

    /** A store holding `initSize` stones, linked to nothing yet. */
    constructor Big(initSize: int)
      ensures kind == BigPit && stones == initSize
      ensures next == map[] && opposite == null
    {
      kind := BigPit;
      stones := initSize;
      next := map[];
      opposite := null;
    }

    /** One more stone, in a regular pit or a store alike. */
    method AddOneStone()
      modifies this`stones
      ensures stones == old(stones) + 1
    {
      stones := stones + 1;
    }

    /** The pit `player` sows into after this one; null for a player this pit has no link for
        (and for null). */
    function NextPit(player: Player?): (r: Pit?)
      reads this`next
      ensures r != null <==> player != null && player in next
      ensures r != null ==> r == next[player]
    {
      if player != null && player in next then next[player] else null
    }

    /** Link this pit to `pit` on `player`'s ring; every other player's link stays. */
    method SetNextPit(player: Player, pit: Pit)
      modifies this`next
      ensures next == old(next)[player := pit]
      ensures NextPit(player) == pit
      ensures forall q :: q in old(next) && q != player ==> q in next && next[q] == old(next)[q]
    {
      next := next[player := pit];
    }

    /** Empty a regular pit, answering how many stones it held; a second call answers 0. */
    method PickupStones() returns (s: int)
      requires kind == RegularPit
      modifies this`stones
      ensures s == old(stones) && stones == 0
    {
      s := stones;
      stones := 0;
    }

    /** Add k stones to a store. */
    method AddStones(k: int)
      requires kind == BigPit
      modifies this`stones
      ensures stones == old(stones) + k
    {
      stones := stones + k;
    }

    /** Set this regular pit's opposite; the opposite pit's own link is not touched. */
    method SetOppositePit(pit: Pit?)
      requires kind == RegularPit && (pit == null || pit.kind == RegularPit)
      modifies this`opposite
      ensures opposite == pit
    {
      opposite := pit;
    }
  }

  /** The chain of the pit tests: for one player np1 -> np2 -> bp -> np1, for the other
      np1 -> np2 -> np1, on the same three pits. */
  method ChainOfThree(player1: Player, player2: Player) returns (np1: Pit, np2: Pit, bp: Pit)
    requires player1 != player2
    ensures fresh(np1) && fresh(np2) && fresh(bp)
    ensures np1.NextPit(player1) == np2 && np2.NextPit(player1) == bp && bp.NextPit(player1) == np1
    ensures np1.NextPit(player2) == np2 && np2.NextPit(player2) == np1 && bp.NextPit(player2) == null
  {
    np1 := new Pit.Regular(0);
    np2 := new Pit.Regular(0);
    bp := new Pit.Big(0);
    np1.SetNextPit(player1, np2);
    np2.SetNextPit(player1, bp);
    bp.SetNextPit(player1, np1);
    np1.SetNextPit(player2, np2);
    np2.SetNextPit(player2, np1);
  }
}
