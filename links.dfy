/** The pits of a board seen as a sequence laid out as in module Ring, and the loops that walk
    them. The loops take the sequence as a ghost parameter and may change only the field of the
    pits they name; each states its effect as counts over the layout (`Hold`) or as links
    that follow `Ring.Next`. */
module Links {
  import opened Ring
  import opened Rules
  import opened Players
  import opened Pits

  /** The stones of each pit, in order. */
  ghost function StonesOf(pits: seq<Pit>): (r: seq<int>)
    reads pits
    ensures |r| == |pits|
    ensures forall i :: 0 <= i < |pits| ==> r[i] == pits[i].stones
  {
    seq(|pits|, i reads pits requires 0 <= i < |pits| => pits[i].stones)
  }

  /** Two maps with the same keys and the same value at every key are equal. */
  lemma SameMap<K, V>(a: map<K, V>, b: map<K, V>)
    requires a.Keys == b.Keys && forall k :: k in a ==> a[k] == b[k]
    ensures a == b
  {
  }

  /** The stones of pits whose stones did not change. */
  twostate lemma StonesKept(pits: seq<Pit>)
    requires forall p :: p in pits ==> unchanged(p`stones)
    ensures StonesOf(pits) == old(StonesOf(pits))
  {
    forall i | 0 <= i < |pits| ensures StonesOf(pits)[i] == old(StonesOf(pits))[i] {
      assert pits[i] in pits;
    }
  }

  lemma StonesOfAppend(a: seq<Pit>, b: seq<Pit>)
    ensures StonesOf(a + b) == StonesOf(a) + StonesOf(b)
  {
  }

  /** Each pit knows its position in `slot`, so the pits are all different. */
  ghost predicate Indexed(cells: seq<Pit>, slot: map<Pit, nat>)
  {
    forall x :: 0 <= x < |cells| ==> cells[x] in slot && slot[cells[x]] == x
  }

  /** The pits hold `cnt`, pit by pit. */
  ghost predicate Hold(cells: seq<Pit>, cnt: seq<int>)
    reads cells
  {
    |cnt| == |cells| && forall x {:trigger cells[x].stones} :: 0 <= x < |cells| ==> cells[x].stones == cnt[x]
  }

  /** Every pit on the ring of `side` links, for `player`, to the pit Next says. */
  ghost predicate RingLinked(cells: seq<Pit>, n: nat, side: Side, player: Player)
    reads cells`next
  {
    n > 0 && |cells| == 2 * n + 2
    && forall i {:trigger cells[i].next} :: OnRing(n, side, i) ==> player in cells[i].next && cells[i].next[player] == cells[Next(n, side, i)]
  }

  /** Every regular pit of `side` is a regular pit linking, for `player`, to the pit Next
      says. */
  ghost predicate OwnLinked(cells: seq<Pit>, n: nat, side: Side, player: Player)
    reads cells`next
  {
    n > 0 && |cells| == 2 * n + 2
    && forall i {:trigger cells[i].next} :: OwnRegular(n, side, i) ==>
         cells[i].kind == RegularPit && player in cells[i].next && cells[i].next[player] == cells[Next(n, side, i)]
  }

  /** A linked ring, restricted to the side's own regular pits. */
  lemma RingOwn(cells: seq<Pit>, n: nat, side: Side, player: Player)
    requires RingLinked(cells, n, side, player) && Kinds(cells, n)
    ensures OwnLinked(cells, n, side, player)
  {
    forall i | OwnRegular(n, side, i)
      ensures cells[i].kind == RegularPit && player in cells[i].next && cells[i].next[player] == cells[Next(n, side, i)]
    {
      assert OnRing(n, side, i) && !IsStore(n, i);
      assert cells[i].kind != BigPit;
    }
  }

  /** The loop of `isEmptyPits`: follow `player`'s links from the side's first pit while the
      pit reached is a regular pit, stopping at the first one holding stones. */
  method NoStonesAlong(ghost cells: seq<Pit>, player: Player, first: Pit, ghost n: nat, ghost side: Side)
    returns (empty: bool)
    requires OwnLinked(cells, n, side, player) && first == cells[PitPos(n, side, 0)]
    requires cells[StorePos(n, side)].kind == BigPit
    ensures empty <==> SideEmpty(StonesOf(cells), n, side)
  {
    var cur: Pit? := first;
    ghost var base := PitPos(n, side, 0);
    ghost var k := 0;
    while cur != null && cur.kind == RegularPit
      invariant 0 <= k <= n
      invariant k < n ==> cur == cells[PitPos(n, side, k)]
      invariant k == n ==> cur == cells[StorePos(n, side)]
      invariant forall p :: base <= p < base + k ==> cells[p].stones <= 0
      decreases n - k
    {
      if cur.stones > 0 {
        assert StonesOf(cells)[PitPos(n, side, k)] > 0;
        return false;
      }
      OwnStep(cells, n, side, player, k);
      cur := cur.NextPit(player);
      k := k + 1;
    }
    if k < n {
      OwnStep(cells, n, side, player, k);
    }
    return true;
  }

  /** The loop of `getRegularPits(player)`: the regular pits met along `player`'s links from
      the side's first pit until the store. */
  method PitsAlong(ghost cells: seq<Pit>, player: Player, first: Pit, ghost n: nat, ghost side: Side)
    returns (pits: seq<Pit>)
    requires OwnLinked(cells, n, side, player) && first == cells[PitPos(n, side, 0)]
    requires cells[StorePos(n, side)].kind == BigPit
    ensures pits == cells[PitPos(n, side, 0)..PitPos(n, side, 0) + n]
  {
    pits := [];
    var cur: Pit? := first;
    ghost var base := PitPos(n, side, 0);
    ghost var k := 0;
    while cur != null && cur.kind == RegularPit
      invariant 0 <= k <= n
      invariant k < n ==> cur == cells[PitPos(n, side, k)]
      invariant k == n ==> cur == cells[StorePos(n, side)]
      invariant pits == cells[base..base + k]
      decreases n - k
    {
      pits := pits + [cur];
      OwnStep(cells, n, side, player, k);
      cur := cur.NextPit(player);
      k := k + 1;
    }
    if k < n {
      OwnStep(cells, n, side, player, k);
    }
  }

  /** One step along a side's own pits: the k-th regular pit links to the next one, or to
      the store after the last. */
  lemma OwnStep(cells: seq<Pit>, n: nat, side: Side, player: Player, k: nat)
    requires OwnLinked(cells, n, side, player) && k < n
    ensures cells[PitPos(n, side, k)].kind == RegularPit && player in cells[PitPos(n, side, k)].next
    ensures cells[PitPos(n, side, k)].next[player]
            == cells[if k + 1 < n then PitPos(n, side, k + 1) else StorePos(n, side)]
  {
    NextOwnPit(n, side, k);
    assert cells[PitPos(n, side, k)].next[player] == cells[Next(n, side, PitPos(n, side, k))];
  }

  lemma HoldsStones(cells: seq<Pit>)
    ensures Hold(cells, StonesOf(cells))
  {
  }

  lemma HeldStones(cells: seq<Pit>, cnt: seq<int>)
    requires Hold(cells, cnt)
    ensures StonesOf(cells) == cnt
  {
  }

  /** The pickup of `sowStones`: the regular pit at position `at` is emptied, and answers how
      many stones it held. */
  method TakeUp(ghost cells: seq<Pit>, ghost slot: map<Pit, nat>, pit: Pit, ghost at: nat, ghost cnt: seq<int>)
    returns (s: int)
    requires Indexed(cells, slot) && Hold(cells, cnt)
    requires at < |cells| && pit == cells[at] && pit.kind == RegularPit
    modifies pit`stones
    ensures s == cnt[at] && Hold(cells, cnt[at := 0])
  {
    s := pit.PickupStones();
    forall x | 0 <= x < |cells| ensures cells[x].stones == cnt[at := 0][x] {
      if x != at {
        assert slot[cells[x]] != slot[pit];
      }
    }
  }

  /** The loop of `sowStones`: from the pit at position `from`, follow `player`'s links
      `count` times, adding one stone to each pit reached; answer the last one. */
  method DropStones(ghost cells: seq<Pit>, ghost slot: map<Pit, nat>, player: Player, start: Pit, count: int,
                    ghost n: nat, ghost side: Side, ghost from: nat, ghost c0: seq<int>)
    returns (last: Pit)
    requires n > 0 && Indexed(cells, slot) && RingLinked(cells, n, side, player) && Hold(cells, c0)
    requires OnRing(n, side, from) && start == cells[from] && count >= 0
    modifies cells`stones
    ensures Hold(cells, Sow(c0, n, side, from, count))
    ensures last == cells[Walk(n, side, from, count)]
  {
    ghost var cnt := c0;
    ghost var pos := from;
    var cur := start;
    var stones := count;
    while stones > 0
      invariant 0 <= stones && OnRing(n, side, pos) && cur == cells[pos]
      invariant Hold(cells, cnt)
      invariant Sow(cnt, n, side, pos, stones) == Sow(c0, n, side, from, count)
      invariant Walk(n, side, pos, stones) == Walk(n, side, from, count)
      decreases stones
    {
      assert cells[pos].next[player] == cells[Next(n, side, pos)];
      var nxt := cur.NextPit(player);
      cur := nxt;
      pos := Next(n, side, pos);
      AddOne(cells, slot, cur, pos, cnt);
      cnt := cnt[pos := cnt[pos] + 1];
      stones := stones - 1;
    }
    return cur;
  }

  /** `addOneStone` on the board: the pit at position `at` gains a stone. */
  method AddOne(ghost cells: seq<Pit>, ghost slot: map<Pit, nat>, pit: Pit, ghost at: nat, ghost cnt: seq<int>)
    requires Indexed(cells, slot) && Hold(cells, cnt) && at < |cells| && pit == cells[at]
    modifies pit`stones
    ensures Hold(cells, cnt[at := cnt[at] + 1])
  {
    pit.AddOneStone();
    forall x | 0 <= x < |cells| ensures cells[x].stones == cnt[at := cnt[at] + 1][x] {
      if x != at {
        assert slot[cells[x]] != slot[pit];
      }
    }
  }

  /** The loop of `collectPitsToBigPit`, from the player's first pit until a store. */
  method SweepPits(ghost cells: seq<Pit>, ghost slot: map<Pit, nat>, player: Player, first: Pit, big: Pit,
                   ghost n: nat, ghost side: Side, ghost c0: seq<int>)
    requires n > 0 && Indexed(cells, slot) && OwnLinked(cells, n, side, player) && Hold(cells, c0)
    requires first == cells[PitPos(n, side, 0)] && big == cells[StorePos(n, side)] && big.kind == BigPit
    modifies cells`stones
    ensures Hold(cells, Sweep(c0, n, side))
  {
    ghost var cnt := c0;
    ghost var st := StorePos(n, side);
    var cur: Pit? := first;
    ghost var k := 0;
    OwnStep(cells, n, side, player, 0);
    while cur != null && cur.kind == RegularPit
      invariant 0 <= k <= n && Hold(cells, cnt)
      invariant k < n ==> cur == cells[PitPos(n, side, k)] && cur.kind == RegularPit
      invariant k == n ==> cur == big
      invariant SweepFrom(cnt, n, side, k) == Sweep(c0, n, side)
      decreases n - k
    {
      ghost var p := PitPos(n, side, k);
      cur := SweepStep(cells, slot, player, cur, big, n, side, k, cnt);
      cnt := if cnt[p] > 0 then Move(cnt, p, st) else cnt;
      k := k + 1;
    }
  }

  /** The body of the loop of `collectPitsToBigPit` at the side's k-th regular pit: pour it
      into the store if it holds stones, then move on along the player's link. */
  method SweepStep(ghost cells: seq<Pit>, ghost slot: map<Pit, nat>, player: Player, pit: Pit, big: Pit,
                   ghost n: nat, ghost side: Side, ghost k: nat, ghost cnt: seq<int>)
    returns (nxt: Pit?)
    requires k < n && Indexed(cells, slot) && OwnLinked(cells, n, side, player) && Hold(cells, cnt)
    requires pit == cells[PitPos(n, side, k)] && big == cells[StorePos(n, side)] && big.kind == BigPit
    modifies pit`stones, big`stones
    ensures nxt == if k + 1 < n then cells[PitPos(n, side, k + 1)] else big
    ensures k + 1 < n ==> nxt.kind == RegularPit
    ensures Hold(cells, if cnt[PitPos(n, side, k)] > 0 then Move(cnt, PitPos(n, side, k), StorePos(n, side)) else cnt)
  {
    ghost var p := PitPos(n, side, k);
    OwnStep(cells, n, side, player, k);
    if k + 1 < n {
      OwnStep(cells, n, side, player, k + 1);
    }
    if pit.stones > 0 {
      Pour(cells, slot, pit, big, p, StorePos(n, side), cnt);
    }
    nxt := pit.NextPit(player);
  }

  /** `big.addStones(pit.pickupStones())` on the board: the regular pit at position `at` is
      emptied into the store at position `to`. */
  method Pour(ghost cells: seq<Pit>, ghost slot: map<Pit, nat>, pit: Pit, big: Pit, ghost at: nat, ghost to: nat,
              ghost cnt: seq<int>)
    requires Indexed(cells, slot) && Hold(cells, cnt) && at < |cells| && to < |cells| && at != to
    requires pit == cells[at] && big == cells[to] && pit.kind == RegularPit && big.kind == BigPit
    modifies pit`stones, big`stones
    ensures Hold(cells, Move(cnt, at, to))
  {
    var s := pit.PickupStones();
    big.AddStones(s);
    forall x | 0 <= x < |cells| ensures cells[x].stones == Move(cnt, at, to)[x] {
      if x != at && x != to {
        assert slot[cells[x]] != slot[pit] && slot[cells[x]] != slot[big];
      }
    }
  }

  /** The links of every pit, in order. */
  ghost function NextsOf(cells: seq<Pit>): (r: seq<map<Player, Pit>>)
    reads cells`next
    ensures |r| == |cells| && forall x :: 0 <= x < |cells| ==> r[x] == cells[x].next
  {
    if cells == [] then [] else [cells[0].next] + NextsOf(cells[1..])
  }

  /** The links `addRegPits` and `addBigPit` leave, as `nexts`: every regular pit links, for
      the player owning it, to the pit after it (the last one to its store), and the stores
      link nowhere. */
  ghost predicate OwnLaid(nexts: seq<map<Player, Pit>>, cells: seq<Pit>, n: nat, player1: Player, player2: Player)
  {
    n > 0 && |cells| == 2 * n + 2 && |nexts| == |cells|
    && forall x {:trigger nexts[x]} :: 0 <= x < |cells| ==>
         nexts[x] == if IsStore(n, x) then map[] else map[(if x < n then player1 else player2) := cells[x + 1]]
  }

  /** No pit occurs twice. */
  ghost predicate Distinct(pits: seq<Pit>)
  {
    forall i, j :: 0 <= i < j < |pits| ==> pits[i] != pits[j]
  }

  /** The pits of a sequence, as a set. */
  ghost function Members(pits: seq<Pit>): set<Pit>
  {
    set p | p in pits
  }

  /** The position of each of a sequence of different pits. */
  ghost function SlotsOf(cells: seq<Pit>): (slot: map<Pit, nat>)
    requires Distinct(cells)
    ensures Indexed(cells, slot)
  {
    map x | 0 <= x < |cells| :: cells[x] := x
  }

  /** The pits of both players and their stores, all different, laid out in one sequence. */
  lemma JoinDistinct(pits1: seq<Pit>, big1: Pit, pits2: seq<Pit>, big2: Pit)
    requires Distinct(pits1) && Distinct(pits2) && big1 != big2
    requires forall i, j :: 0 <= i < |pits1| && 0 <= j < |pits2| ==> pits1[i] != pits2[j]
    requires big1 !in pits1 && big1 !in pits2 && big2 !in pits1 && big2 !in pits2
    ensures Distinct(pits1 + [big1] + pits2 + [big2])
  {
    var cells := pits1 + [big1] + pits2 + [big2];
    var n1 := |pits1|;
    forall i, j | 0 <= i < j < |cells| ensures cells[i] != cells[j] {
      if j < n1 {
        assert cells[i] == pits1[i] && cells[j] == pits1[j];
      } else if j == n1 {
        assert cells[i] == pits1[i];
      } else if j < |cells| - 1 {
        assert cells[j] == pits2[j - n1 - 1];
        if i > n1 {
          assert cells[i] == pits2[i - n1 - 1];
        } else if i < n1 {
          assert cells[i] == pits1[i];
        }
      } else if i > n1 {
        assert cells[i] == pits2[i - n1 - 1];
      } else if i < n1 {
        assert cells[i] == pits1[i];
      }
    }
  }

  /** What `addRegPits` leaves: regular pits holding `sizes`, each linked for `player`, and
      only for them, to the pit after it, and the last one to nothing. */
  ghost predicate Row(pits: seq<Pit>, sizes: seq<int>, player: Player)
    reads pits
  {
    |pits| == |sizes| && Hold(pits, sizes)
    && (forall k {:trigger pits[k].kind} :: 0 <= k < |pits| ==> pits[k].kind == RegularPit)
    && forall k {:trigger pits[k].next} :: 0 <= k < |pits| ==>
         pits[k].next == if k + 1 < |pits| then map[player := pits[k + 1]] else map[]
  }

  /** One pass of the loop of `addRegPits` after the first: a new regular pit holding `size`,
      linked for `player` after `curPit`, the last pit of the row so far. */
  method Extend(ghost pits: seq<Pit>, ghost sizes: seq<int>, player: Player, curPit: Pit, size: int)
    returns (newPit: Pit)
    requires pits != [] && curPit == pits[|pits| - 1] && Row(pits, sizes, player) && Distinct(pits)
    modifies curPit`next
    ensures fresh(newPit)
    ensures Row(pits + [newPit], sizes + [size], player) && Distinct(pits + [newPit])
  {
    newPit := new Pit.Regular(size);
    label Linking:
    curPit.SetNextPit(player, newPit);
    var row := pits + [newPit];
    forall k | 0 <= k < |pits| - 1 ensures row[k].next == map[player := row[k + 1]] {
      assert pits[k] != curPit && row[k] == pits[k] && row[k + 1] == pits[k + 1];
      assert pits[k].next == old@Linking(pits[k].next);
    }
  }

  /** What `addRegPits` and then `addBigPit` leave: as `Row`, but the last pit links to the
      store `big`. */
  ghost predicate Chained(pits: seq<Pit>, sizes: seq<int>, player: Player, big: Pit)
    reads pits
  {
    |pits| == |sizes| && Hold(pits, sizes)
    && (forall k {:trigger pits[k].kind} :: 0 <= k < |pits| ==> pits[k].kind == RegularPit)
    && forall k {:trigger pits[k].next} :: 0 <= k < |pits| ==>
         pits[k].next == map[player := if k + 1 < |pits| then pits[k + 1] else big]
  }

  /** Both players' chains and two stores linked to nothing, laid out in one sequence: the
      links are those `OwnLaid` describes. */
  lemma LaidLinks(pits1: seq<Pit>, big1: Pit, pits2: seq<Pit>, big2: Pit, player1: Player, player2: Player,
                  sizes1: seq<int>, sizes2: seq<int>)
    requires |pits1| == |pits2| > 0
    requires Chained(pits1, sizes1, player1, big1) && Chained(pits2, sizes2, player2, big2)
    requires big1.next == map[] && big2.next == map[]
    ensures OwnLaid(NextsOf(pits1 + [big1] + pits2 + [big2]), pits1 + [big1] + pits2 + [big2], |pits1|, player1, player2)
  {
    var cells := pits1 + [big1] + pits2 + [big2];
    var n := |pits1|;
    var nexts := NextsOf(cells);
    forall x | 0 <= x < |cells|
      ensures nexts[x] == if IsStore(n, x) then map[] else map[(if x < n then player1 else player2) := cells[x + 1]]
    {
      if x < n {
        assert cells[x] == pits1[x] && cells[x + 1] == if x + 1 < n then pits1[x + 1] else big1;
      } else if n < x < 2 * n + 1 {
        assert cells[x] == pits2[x - n - 1] && cells[x + 1] == if x + 1 < 2 * n + 1 then pits2[x - n] else big2;
      }
    }
  }

  /** The same layout holds the stones `Layout` lays out, has its stores exactly at the store
      positions, and starts each side with that side's first pit. */
  lemma LaidStones(pits1: seq<Pit>, big1: Pit, pits2: seq<Pit>, big2: Pit, player1: Player, player2: Player,
                   sizes1: seq<int>, store1: int, sizes2: seq<int>, store2: int)
    requires |pits1| == |pits2| > 0
    requires Chained(pits1, sizes1, player1, big1) && Chained(pits2, sizes2, player2, big2)
    requires big1.kind == BigPit && big2.kind == BigPit && big1.stones == store1 && big2.stones == store2
    ensures Hold(pits1 + [big1] + pits2 + [big2], Layout(sizes1, store1, sizes2, store2))
    ensures Kinds(pits1 + [big1] + pits2 + [big2], |pits1|)
    ensures var cells := pits1 + [big1] + pits2 + [big2];
            cells[PitPos(|pits1|, First, 0)] == pits1[0] && cells[PitPos(|pits1|, Second, 0)] == pits2[0]
            && cells[StorePos(|pits1|, First)] == big1 && cells[StorePos(|pits1|, Second)] == big2
  {
    var cells := pits1 + [big1] + pits2 + [big2];
    var n := |pits1|;
    var cnt := Layout(sizes1, store1, sizes2, store2);
    forall x | 0 <= x < |cells|
      ensures cells[x].stones == cnt[x] && (cells[x].kind == BigPit <==> IsStore(n, x))
    {
      if x < n {
        assert cells[x] == pits1[x] && cnt[PitPos(n, First, x)] == sizes1[x];
      } else if x == n {
        assert cells[x] == big1 && cnt[StorePos(n, First)] == store1;
      } else if x < 2 * n + 1 {
        assert cells[x] == pits2[x - n - 1] && cnt[PitPos(n, Second, x - n - 1)] == sizes2[x - n - 1];
      } else {
        assert cells[x] == big2 && cnt[StorePos(n, Second)] == store2;
      }
    }
  }

  /** The two rows and the two stores `init` makes, joined in layout order, are distinct pits
      of the right kinds and stones, each regular pit linked for its owner only. */
  lemma Joined(pits1: seq<Pit>, big1: Pit, pits2: seq<Pit>, big2: Pit, player1: Player, player2: Player,
               sizes1: seq<int>, store1: int, sizes2: seq<int>, store2: int, cells: seq<Pit>)
    requires cells == pits1 + [big1] + pits2 + [big2] && |pits1| == |pits2| > 0
    requires Chained(pits1, sizes1, player1, big1) && Chained(pits2, sizes2, player2, big2)
    requires Distinct(pits1) && Distinct(pits2) && big1 != big2
    requires forall i, j :: 0 <= i < |pits1| && 0 <= j < |pits2| ==> pits1[i] != pits2[j]
    requires big1 !in pits1 && big1 !in pits2 && big2 !in pits1 && big2 !in pits2
    requires big1.kind == BigPit && big2.kind == BigPit && big1.stones == store1 && big2.stones == store2
    requires big1.next == map[] && big2.next == map[]
    ensures var n := |pits1|;
            |cells| == 2 * n + 2 && Distinct(cells) && Kinds(cells, n)
            && OwnLaid(NextsOf(cells), cells, n, player1, player2) && Hold(cells, Layout(sizes1, store1, sizes2, store2))
            && cells[PitPos(n, First, 0)] == pits1[0] && cells[PitPos(n, Second, 0)] == pits2[0]
            && cells[StorePos(n, First)] == big1 && cells[StorePos(n, Second)] == big2
  {
    JoinDistinct(pits1, big1, pits2, big2);
    LaidLinks(pits1, big1, pits2, big2, player1, player2, sizes1, sizes2);
    LaidStones(pits1, big1, pits2, big2, player1, player2, sizes1, store1, sizes2, store2);
  }

  /** After both rounds of `addNxtPit` (`b1` after the first player's, `b2` after the second
      player's), the first player's links follow Next on the first player's whole ring. */
  lemma FirstRing(cells: seq<Pit>, n: nat, player1: Player, player2: Player,
                  b0: seq<map<Player, Pit>>, b1: seq<map<Player, Pit>>, b2: seq<map<Player, Pit>>)
    requires player1 != player2 && OwnLaid(b0, cells, n, player1, player2) && |b1| == |b2| == |cells|
    requires forall x {:trigger b1[x]} :: 0 <= x < |cells| ==>
               b1[x] == if Crossing(n, First, x) then b0[x][player1 := cells[Next(n, First, x)]] else b0[x]
    requires forall x {:trigger b2[x]} :: 0 <= x < |cells| ==>
               b2[x] == if Crossing(n, Second, x) then b1[x][player2 := cells[Next(n, Second, x)]] else b1[x]
    ensures forall x :: OnRing(n, First, x) ==> player1 in b2[x] && b2[x][player1] == cells[Next(n, First, x)]
  {
    forall x | OnRing(n, First, x) ensures player1 in b2[x] && b2[x][player1] == cells[Next(n, First, x)] {
      if x < n {
        assert !Crossing(n, First, x) && Crossing(n, Second, x);
        assert b0[x] == map[player1 := cells[x + 1]] && Next(n, First, x) == x + 1;
        assert b2[x] == b0[x][player2 := cells[Next(n, Second, x)]];
      } else {
        assert Crossing(n, First, x) && !Crossing(n, Second, x);
        assert b2[x] == b0[x][player1 := cells[Next(n, First, x)]];
      }
    }
  }

  /** After both rounds of `addNxtPit`, the second player's links follow Next on the second
      player's whole ring. */
  lemma SecondRing(cells: seq<Pit>, n: nat, player1: Player, player2: Player,
                   b0: seq<map<Player, Pit>>, b1: seq<map<Player, Pit>>, b2: seq<map<Player, Pit>>)
    requires player1 != player2 && OwnLaid(b0, cells, n, player1, player2) && |b1| == |b2| == |cells|
    requires forall x {:trigger b1[x]} :: 0 <= x < |cells| ==>
               b1[x] == if Crossing(n, First, x) then b0[x][player1 := cells[Next(n, First, x)]] else b0[x]
    requires forall x {:trigger b2[x]} :: 0 <= x < |cells| ==>
               b2[x] == if Crossing(n, Second, x) then b1[x][player2 := cells[Next(n, Second, x)]] else b1[x]
    ensures forall x :: OnRing(n, Second, x) ==> player2 in b2[x] && b2[x][player2] == cells[Next(n, Second, x)]
  {
    forall x | OnRing(n, Second, x) ensures player2 in b2[x] && b2[x][player2] == cells[Next(n, Second, x)] {
      if n < x < 2 * n + 1 {
        assert Crossing(n, First, x) && !Crossing(n, Second, x);
        assert b0[x] == map[player2 := cells[x + 1]] && Next(n, Second, x) == x + 1;
        assert b2[x] == b0[x][player1 := cells[Next(n, First, x)]];
      } else {
        assert Crossing(n, Second, x);
        assert b2[x] == b1[x][player2 := cells[Next(n, Second, x)]];
      }
    }
  }

  /** The first round of `addNxtPit` leaves the first player's own links, which the second
      round follows. */
  lemma FirstRoundKeeps(cells: seq<Pit>, n: nat, player1: Player, player2: Player,
                        b0: seq<map<Player, Pit>>, b1: seq<map<Player, Pit>>)
    requires player1 != player2 && OwnLaid(b0, cells, n, player1, player2) && |b1| == |cells|
    requires Kinds(cells, n)
    requires forall x {:trigger b1[x]} :: 0 <= x < |cells| ==>
               b1[x] == if Crossing(n, First, x) then b0[x][player1 := cells[Next(n, First, x)]] else b0[x]
    ensures Successors(cells, b0, n, Second, player2) && Successors(cells, b1, n, First, player1)
  {
    SecondLaid(cells, n, player1, player2, b0);
    assert PitPos(n, First, 0) == 0;
    forall x {:trigger b1[x]} | PitPos(n, First, 0) <= x < PitPos(n, First, 0) + n
      ensures cells[x].kind == RegularPit && player1 in b1[x] && b1[x][player1] == cells[x + 1]
    {
      assert 0 <= x < |cells| && !IsStore(n, x) && !Crossing(n, First, x);
      assert b1[x] == b0[x];
      assert b0[x] == map[player1 := cells[x + 1]];
      assert cells[x].kind != BigPit;
    }
  }

  /** Before any relinking, every regular pit of the second player links, for that player,
      to the pit after it. */
  lemma SecondLaid(cells: seq<Pit>, n: nat, player1: Player, player2: Player, b0: seq<map<Player, Pit>>)
    requires OwnLaid(b0, cells, n, player1, player2) && Kinds(cells, n)
    ensures Successors(cells, b0, n, Second, player2)
  {
    assert PitPos(n, Second, 0) == n + 1;
    forall x {:trigger b0[x]} | n + 1 <= x < 2 * n + 1
      ensures cells[x].kind == RegularPit && player2 in b0[x] && b0[x][player2] == cells[x + 1]
    {
      assert 0 <= x < |cells| && !IsStore(n, x) && !(x < n);
      assert b0[x] == map[player2 := cells[x + 1]];
      assert cells[x].kind != BigPit;
    }
  }

  /** Both rounds of `addNxtPit` on laid-out pits, the first player's and then the second's.
      Afterwards each player's links follow that player's whole sowing ring. */
  method LinkRings(ghost cells: seq<Pit>, ghost slot: map<Pit, nat>, player1: Player, player2: Player,
                   big1: Pit, big2: Pit, first1: Pit, first2: Pit, ghost n: nat)
    requires Indexed(cells, slot) && Kinds(cells, n) && player1 != player2
    requires OwnLaid(NextsOf(cells), cells, n, player1, player2)
    requires big1 == cells[StorePos(n, First)] && big2 == cells[StorePos(n, Second)]
    requires first1 == cells[PitPos(n, First, 0)] && first2 == cells[PitPos(n, Second, 0)]
    modifies cells`next
    ensures RingLinked(cells, n, First, player1) && RingLinked(cells, n, Second, player2)
  {
    ghost var b0 := NextsOf(cells);
    SecondLaid(cells, n, player1, player2, b0);
    assert PitPos(n, First, 0) == 0;
    LinkAcross(cells, slot, player1, player2, big1, first2, first1, n, First, b0);
    SecondRound(cells, slot, player1, player2, big2, first1, first2, n, b0);
  }

  /** The second round of `addNxtPit`, after the first player's round has relinked `b0`. */
  method SecondRound(ghost cells: seq<Pit>, ghost slot: map<Pit, nat>, player1: Player, player2: Player,
                     big2: Pit, first1: Pit, first2: Pit, ghost n: nat, ghost b0: seq<map<Player, Pit>>)
    requires Indexed(cells, slot) && Kinds(cells, n) && player1 != player2
    requires OwnLaid(b0, cells, n, player1, player2)
    requires forall x {:trigger cells[x].next} :: 0 <= x < |cells| ==>
               cells[x].next == if Crossing(n, First, x) then b0[x][player1 := cells[Next(n, First, x)]] else b0[x]
    requires big2 == cells[StorePos(n, Second)]
    requires first1 == cells[PitPos(n, First, 0)] && first2 == cells[PitPos(n, Second, 0)]
    modifies cells`next
    ensures RingLinked(cells, n, First, player1) && RingLinked(cells, n, Second, player2)
  {
    ghost var b1 := NextsOf(cells);
    FirstRoundKeeps(cells, n, player1, player2, b0, b1);
    LinkAcross(cells, slot, player2, player1, big2, first1, first2, n, Second, b1);
    ghost var b2 := NextsOf(cells);
    FirstRing(cells, n, player1, player2, b0, b1, b2);
    SecondRing(cells, n, player1, player2, b0, b1, b2);
    LinkedBy(cells, n, First, player1, b2);
    LinkedBy(cells, n, Second, player2, b2);
  }

  /** Links given as `nexts` that follow a side's ring make that ring linked. */
  lemma LinkedBy(cells: seq<Pit>, n: nat, side: Side, player: Player, nexts: seq<map<Player, Pit>>)
    requires n > 0 && |cells| == 2 * n + 2 && nexts == NextsOf(cells)
    requires forall x :: OnRing(n, side, x) ==> player in nexts[x] && nexts[x][player] == cells[Next(n, side, x)]
    ensures RingLinked(cells, n, side, player)
  {
    forall i | OnRing(n, side, i) ensures player in cells[i].next && cells[i].next[player] == cells[Next(n, side, i)] {
      assert nexts[i] == cells[i].next;
    }
  }

  /** The positions `addNxtPit` links on the ring of `side`: the side's store and the other
      side's regular pits. */
  predicate Crossing(n: nat, side: Side, x: int)
  {
    x == StorePos(n, side) || OwnRegular(n, Other(side), x)
  }

  /** In `before`, every regular pit of `side` is a regular pit linking, for `player`, to the
      pit after it. */
  ghost predicate Successors(cells: seq<Pit>, before: seq<map<Player, Pit>>, n: nat, side: Side, player: Player)
  {
    |cells| == 2 * n + 2 && |before| == |cells|
    && forall x {:trigger before[x]} :: PitPos(n, side, 0) <= x < PitPos(n, side, 0) + n ==>
         cells[x].kind == RegularPit && player in before[x] && before[x][player] == cells[x + 1]
  }

  /** One round of `addNxtPit` for `player`, who plays `side`: starting at the player's store,
      link each pit for `player` to the next regular pit of the `other` player (found along
      the other player's links) and the last of them back to the player's first pit. Every
      other link stays as it was in `before`. */
  method LinkAcross(ghost cells: seq<Pit>, ghost slot: map<Pit, nat>, player: Player, other: Player,
                    big: Pit, otherFirst: Pit, home: Pit, ghost n: nat, ghost side: Side,
                    ghost before: seq<map<Player, Pit>>)
    requires n > 0 && |cells| == 2 * n + 2 && Indexed(cells, slot) && player != other
    requires |before| == |cells| && forall x {:trigger cells[x].next} :: 0 <= x < |cells| ==> cells[x].next == before[x]
    requires Successors(cells, before, n, Other(side), other)
    requires Kinds(cells, n)
    requires big == cells[StorePos(n, side)] && otherFirst == cells[PitPos(n, Other(side), 0)]
    requires home == cells[PitPos(n, side, 0)]
    modifies cells`next
    ensures forall x {:trigger cells[x].next} :: 0 <= x < |cells| ==>
              cells[x].next == if Crossing(n, side, x) then before[x][player := cells[Next(n, side, x)]] else before[x]
  {
    ghost var ob := PitPos(n, Other(side), 0);
    var cur: Pit := big;
    var nxt: Pit? := otherFirst;
    Relink(cells, slot, cur, StorePos(n, side), player, nxt);
    cur := nxt;
    nxt := cur.NextPit(other);
    assert cur == cells[ob] && cells[ob].next == before[ob];
    cur := LinkAlong(cells, slot, player, other, cur, nxt, n, side, before);
    Relink(cells, slot, cur, ob + n - 1, player, home);
    CrossingLinks(cells, n, side, player, before);
  }

  /** The loop of `addNxtPit`: from the other player's first regular pit `cur`, whose
      successor for the other player is `nxt`, link each pit for `player` to its successor
      while that is a regular pit; answers the last regular pit reached. */
  method LinkAlong(ghost cells: seq<Pit>, ghost slot: map<Pit, nat>, player: Player, other: Player,
                   cur0: Pit, nxt0: Pit?, ghost n: nat, ghost side: Side, ghost before: seq<map<Player, Pit>>)
    returns (cur: Pit)
    requires n > 0 && |cells| == 2 * n + 2 && Indexed(cells, slot) && player != other && |before| == |cells|
    requires Successors(cells, before, n, Other(side), other)
    requires Kinds(cells, n)
    requires cur0 == cells[PitPos(n, Other(side), 0)]
    requires nxt0 == cells[PitPos(n, Other(side), 0) + 1]
    requires forall x {:trigger cells[x].next} :: PitPos(n, Other(side), 0) <= x < PitPos(n, Other(side), 0) + n ==>
               cells[x].next == before[x]
    modifies cells`next
    ensures cur == cells[PitPos(n, Other(side), 0) + n - 1]
    ensures forall x {:trigger cells[x].next} :: 0 <= x < |cells| && !(PitPos(n, Other(side), 0) <= x < PitPos(n, Other(side), 0) + n) ==>
              cells[x].next == old(cells[x].next)
    ensures forall x {:trigger cells[x].next} :: PitPos(n, Other(side), 0) <= x < PitPos(n, Other(side), 0) + n - 1 ==>
              cells[x].next == before[x][player := cells[x + 1]]
    ensures cells[PitPos(n, Other(side), 0) + n - 1].next == before[PitPos(n, Other(side), 0) + n - 1]
  {
    ghost var ob := PitPos(n, Other(side), 0);
    cur := cur0;
    var nxt := nxt0;
    ghost var k := 1;
    while nxt != null && nxt.kind == RegularPit
      invariant 1 <= k <= n && cur == cells[ob + k - 1] && nxt == cells[ob + k]
      invariant nxt.kind == RegularPit <==> k < n
      invariant forall x {:trigger cells[x].next} :: 0 <= x < |cells| && !(ob <= x < ob + n) ==>
                  cells[x].next == old(cells[x].next)
      invariant forall x {:trigger cells[x].next} :: ob <= x < ob + k - 1 ==> cells[x].next == before[x][player := cells[x + 1]]
      invariant forall x {:trigger cells[x].next} :: ob + k - 1 <= x < ob + n ==> cells[x].next == before[x]
      decreases n - k
    {
      Relink(cells, slot, cur, ob + k - 1, player, nxt);
      cur := nxt;
      nxt := cur.NextPit(other);
      k := k + 1;
    }
  }

  /** The links one round of `addNxtPit` leaves, region by region, are those Next gives on the
      crossing positions of `side`. */
  lemma CrossingLinks(cells: seq<Pit>, n: nat, side: Side, player: Player, before: seq<map<Player, Pit>>)
    requires n > 0 && |cells| == 2 * n + 2 && |before| == |cells|
    requires cells[StorePos(n, side)].next == before[StorePos(n, side)][player := cells[PitPos(n, Other(side), 0)]]
    requires forall x {:trigger cells[x].next} ::
               (0 <= x < |cells| && x != StorePos(n, side) && !(PitPos(n, Other(side), 0) <= x < PitPos(n, Other(side), 0) + n))
               ==> cells[x].next == before[x]
    requires forall x {:trigger cells[x].next} :: PitPos(n, Other(side), 0) <= x < PitPos(n, Other(side), 0) + n - 1 ==>
               cells[x].next == before[x][player := cells[x + 1]]
    requires cells[PitPos(n, Other(side), 0) + n - 1].next
             == before[PitPos(n, Other(side), 0) + n - 1][player := cells[PitPos(n, side, 0)]]
    ensures forall x {:trigger cells[x].next} :: 0 <= x < |cells| ==>
              cells[x].next == if Crossing(n, side, x) then before[x][player := cells[Next(n, side, x)]] else before[x]
  {
    var ob := PitPos(n, Other(side), 0);
    forall x | 0 <= x < |cells|
      ensures cells[x].next == if Crossing(n, side, x) then before[x][player := cells[Next(n, side, x)]] else before[x]
    {
      if x == StorePos(n, side) {
        assert Next(n, side, x) == ob;
      } else if ob <= x < ob + n - 1 {
        assert Next(n, side, x) == x + 1;
      } else if x == ob + n - 1 {
        assert Next(n, side, x) == PitPos(n, side, 0);
      }
    }
  }

  /** `pit.setNextPit(player, to)` for the pit at position `at`: no other pit's links change. */
  method Relink(ghost cells: seq<Pit>, ghost slot: map<Pit, nat>, pit: Pit, ghost at: nat, player: Player, to: Pit)
    requires Indexed(cells, slot) && at < |cells| && pit == cells[at]
    modifies pit`next
    ensures pit.next == old(pit.next)[player := to]
    ensures forall x {:trigger cells[x].next} :: 0 <= x < |cells| && x != at ==> cells[x].next == old(cells[x].next)
  {
    pit.SetNextPit(player, to);
    forall x | 0 <= x < |cells| && x != at ensures cells[x].next == old(cells[x].next) {
      assert slot[cells[x]] != slot[pit];
    }
  }

  /** Every pit is a store exactly at the store positions. */
  ghost predicate Kinds(cells: seq<Pit>, n: nat)
  {
    |cells| == 2 * n + 2 && forall x {:trigger cells[x].kind} :: 0 <= x < |cells| ==> (cells[x].kind == BigPit <==> IsStore(n, x))
  }

  /** Position of the t-th pit met when following the second player's links from the first
      player's first pit: the first player's regular pits, then the second player's. */
  function Met(n: nat, t: nat): nat
  {
    if t < n then t else t + 1
  }

  /** The first loop of `addOppRegPit`: from the first player's first pit, push every regular
      pit met along `player`'s links (the second player's ring) until a store. */
  method StackAlong(ghost cells: seq<Pit>, player: Player, first: Pit, ghost n: nat) returns (stack: seq<Pit>)
    requires RingLinked(cells, n, Second, player) && Kinds(cells, n) && first == cells[0]
    ensures |stack| == 2 * n && forall t :: 0 <= t < 2 * n ==> stack[t] == cells[Met(n, t)]
  {
    var cur: Pit? := first;
    stack := [];
    ghost var k := 0;
    while cur != null && cur.kind == RegularPit
      invariant 0 <= k <= 2 * n && |stack| == k && cur == cells[Met(n, k)]
      invariant forall t :: 0 <= t < k ==> stack[t] == cells[Met(n, t)]
      decreases 2 * n - k
    {
      assert cells[Met(n, k)].kind == RegularPit;
      assert Next(n, Second, Met(n, k)) == Met(n, k + 1);
      stack := stack + [cur];
      cur := cur.NextPit(player);
      k := k + 1;
    }
    assert cells[Met(n, k)].kind == BigPit;
  }

  /** The second loop of `addOppRegPit`: walk the first player's regular pits along `player`'s
      links; each is paired, both ways, with the pit on top of `stack0`, which is then popped. */
  method PairOff(ghost cells: seq<Pit>, ghost slot: map<Pit, nat>, player: Player, first: Pit, stack0: seq<Pit>,
                 ghost n: nat)
    requires Indexed(cells, slot) && OwnLinked(cells, n, First, player) && Kinds(cells, n) && first == cells[0]
    requires |stack0| == 2 * n && forall t :: 0 <= t < 2 * n ==> stack0[t] == cells[Met(n, t)]
    modifies cells`opposite
    ensures forall x :: IsRegular(n, x) ==> cells[x].opposite == cells[Opposite(n, x)]
  {
    var cur: Pit? := first;
    var stack := stack0;
    ghost var j := 0;
    while cur != null && cur.kind == RegularPit
      invariant 0 <= j <= n && cur == cells[j] && stack == stack0[..2 * n - j]
      invariant forall x :: 0 <= x < j ==> cells[x].opposite == cells[2 * n - x] && cells[2 * n - x].opposite == cells[x]
      decreases n - j
    {
      assert stack[|stack| - 1] == cells[2 * n - j];
      var top := stack[|stack| - 1];
      Pair(cells, slot, top, 2 * n - j, cur, j);
      stack := stack[..|stack| - 1];
      OwnStep(cells, n, First, player, j);
      cur := cur.NextPit(player);
      j := j + 1;
    }
    forall x | IsRegular(n, x) ensures cells[x].opposite == cells[Opposite(n, x)] {
      if x > n {
        assert 0 <= 2 * n - x < j;
      }
    }
  }

  /** `a.setOppositePit(b); b.setOppositePit(a)` for the pits at positions `at` and `bt`: no
      other pit's opposite changes. */
  method Pair(ghost cells: seq<Pit>, ghost slot: map<Pit, nat>, a: Pit, ghost at: nat, b: Pit, ghost bt: nat)
    requires Indexed(cells, slot) && at < |cells| && bt < |cells| && a == cells[at] && b == cells[bt]
    requires a.kind == RegularPit && b.kind == RegularPit
    modifies a`opposite, b`opposite
    ensures a.opposite == b && b.opposite == a
    ensures forall x {:trigger cells[x].opposite} :: 0 <= x < |cells| && x != at && x != bt ==>
              cells[x].opposite == old(cells[x].opposite)
  {
    a.SetOppositePit(b);
    b.SetOppositePit(a);
    forall x | 0 <= x < |cells| && x != at && x != bt ensures cells[x].opposite == old(cells[x].opposite) {
      assert slot[cells[x]] != slot[a] && slot[cells[x]] != slot[b];
    }
  }
}
