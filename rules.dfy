/** The rules of the Kalah engine as functions on stone counts.

    A board's stones are a sequence `c` of 2n+2 counts in the layout of module Ring. A board
    that has not been initialised has no pits at all: n = 0 and c = []. The functions below
    say what one engine operation does to the counts; the Board class is proved against
    them, and the lemmas here state what the rules promise. */
module Rules {
  import opened Ring
  import opened Outcomes

  /** The counts fit a board with n regular pits per side (or no board yet). */
  predicate Fits(c: seq<int>, n: nat)
  {
    if n == 0 then c == [] else |c| == 2 * n + 2
  }

  /** Total number of stones. */
  function Total(c: seq<int>): int
  {
    SumTo(c, |c|)
  }

  /** Sum of the first k counts. */
  function SumTo(c: seq<int>, k: nat): int
    requires k <= |c|
  {
    if k == 0 then 0 else SumTo(c, k - 1) + c[k - 1]
  }

  predicate NonNegative(c: seq<int>)
  {
    forall i :: 0 <= i < |c| ==> c[i] >= 0
  }

  /** The regular-pit counts of one side, in sowing order (the engine's snapshot). */
  function Regulars(c: seq<int>, n: nat, side: Side): (r: seq<int>)
    requires Fits(c, n)
    ensures |r| == n
    ensures forall k :: 0 <= k < n ==> r[k] == c[PitPos(n, side, k)]
  {
    if n == 0 then [] else c[PitPos(n, side, 0)..PitPos(n, side, 0) + n]
  }

  /** No regular pit of the side holds a positive number of stones. */
  predicate SideEmpty(c: seq<int>, n: nat, side: Side)
    requires Fits(c, n)
    ensures n == 0 ==> SideEmpty(c, n, side)
  {
    forall k :: 0 <= k < n ==> c[PitPos(n, side, k)] <= 0
  }

  /** The game is over as soon as one side has no stones left in its regular pits; a board
      without pits counts as over. */
  predicate GameOver(c: seq<int>, n: nat)
    requires Fits(c, n)
    ensures n == 0 ==> GameOver(c, n)
  {
    SideEmpty(c, n, First) || SideEmpty(c, n, Second)
  }

  // ---------------------------------------------------------------------------------------
  // Sowing

  /** Drop one stone into each of the s pits that follow position i on the ring of `side`. */
  function Sow(c: seq<int>, n: nat, side: Side, i: nat, s: nat): (r: seq<int>)
    requires n > 0 && |c| == 2 * n + 2 && OnRing(n, side, i)
    ensures |r| == |c|
    decreases s
  {
    if s == 0 then c
    else
      var j := Next(n, side, i);
      Sow(c[j := c[j] + 1], n, side, j, s - 1)
  }

  /** Sowing one stone more adds it to the pit one step past the last one. */
  lemma {:induction false} SowOneMore(c: seq<int>, n: nat, side: Side, i: nat, s: nat)
    requires n > 0 && |c| == 2 * n + 2 && OnRing(n, side, i)
    ensures Walk(n, side, i, s + 1) == Next(n, side, Walk(n, side, i, s))
    ensures Sow(c, n, side, i, s + 1)
            == Sow(c, n, side, i, s)[Walk(n, side, i, s + 1) := Sow(c, n, side, i, s)[Walk(n, side, i, s + 1)] + 1]
    decreases s
  {
    var j := Next(n, side, i);
    if s > 0 {
      SowOneMore(c[j := c[j] + 1], n, side, j, s - 1);
    }
  }

  /** How many of the steps 1..s from position i end on position x. */
  function Visits(n: nat, side: Side, i: nat, s: nat, x: nat): nat
    requires n > 0 && OnRing(n, side, i)
  {
    if s == 0 then 0
    else Visits(n, side, i, s - 1, x) + (if Walk(n, side, i, s) == x then 1 else 0)
  }

  /** Some step 1..s from position i ends on position x. */
  ghost predicate Reached(n: nat, side: Side, i: nat, s: nat, x: nat)
    requires n > 0 && OnRing(n, side, i)
  {
    exists t :: 1 <= t <= s && Walk(n, side, i, t) == x
  }

  lemma {:induction false} VisitsFirstStep(n: nat, side: Side, i: nat, s: nat, x: nat)
    requires n > 0 && OnRing(n, side, i)
    ensures Visits(n, side, i, s + 1, x)
            == (if Next(n, side, i) == x then 1 else 0) + Visits(n, side, Next(n, side, i), s, x)
    decreases s
  {
    var j := Next(n, side, i);
    assert Walk(n, side, i, s + 1) == Walk(n, side, j, s);
    if s > 0 {
      VisitsFirstStep(n, side, i, s - 1, x);
    } else {
      assert Walk(n, side, j, 0) == j;
    }
  }

  /** Sowing adds to every pit exactly the number of steps that end on it. */
  lemma {:induction false} SowAddsVisits(c: seq<int>, n: nat, side: Side, i: nat, s: nat, x: nat)
    requires n > 0 && |c| == 2 * n + 2 && OnRing(n, side, i) && x < |c|
    ensures Sow(c, n, side, i, s)[x] == c[x] + Visits(n, side, i, s, x)
    decreases s
  {
    if s > 0 {
      var j := Next(n, side, i);
      SowAddsVisits(c[j := c[j] + 1], n, side, j, s - 1, x);
      VisitsFirstStep(n, side, i, s - 1, x);
    }
  }

  /** A pit off the ring (the other player's store) is never visited. */
  lemma {:induction false} VisitsOffRing(n: nat, side: Side, i: nat, s: nat, x: nat)
    requires n > 0 && OnRing(n, side, i) && !OnRing(n, side, x)
    ensures Visits(n, side, i, s, x) == 0
    decreases s
  {
    if s > 0 {
      VisitsOffRing(n, side, i, s - 1, x);
    }
  }

  /** Splitting the steps: the first a, then b more from where they ended. */
  lemma {:induction false} VisitsSplit(n: nat, side: Side, i: nat, a: nat, b: nat, x: nat)
    requires n > 0 && OnRing(n, side, i)
    ensures Visits(n, side, i, a + b, x)
            == Visits(n, side, i, a, x) + Visits(n, side, Walk(n, side, i, a), b, x)
    decreases b
  {
    if b > 0 {
      VisitsSplit(n, side, i, a, b - 1, x);
      WalkSplit(n, side, i, a, b);
    }
  }

  /** Within one lap the walk never comes back to a pit it has already reached. */
  lemma WalkInjectiveWithinLap(n: nat, side: Side, i: nat, t1: nat, t2: nat)
    requires n > 0 && OnRing(n, side, i)
    requires t1 < t2 && t2 - t1 < RingLength(n)
    ensures Walk(n, side, i, t1) != Walk(n, side, i, t2)
  {
    var y := Walk(n, side, i, t1);
    WalkSplit(n, side, i, t1, t2 - t1);
    WalkDoesNotReturnEarly(n, side, y, t2 - t1);
  }

  lemma WalkDoesNotReturnEarly(n: nat, side: Side, y: nat, d: nat)
    requires n > 0 && OnRing(n, side, y) && 0 < d < RingLength(n)
    ensures Walk(n, side, y, d) != y
  {
    var m := RingIndex(n, side, y);
    RingIndexRoundTrip(n, side, y, 0);
    WalkRound(n, side, m, d);
    var e := if m + d < RingLength(n) then m + d else m + d - RingLength(n);
    RingIndexRoundTrip(n, side, 0, e);
  }

  /** One lap at most: sowing s <= 2n+1 stones adds exactly one stone to each pit reached by
      the steps 1..s and nothing to any other pit. */
  lemma {:induction false} VisitsWithinLap(n: nat, side: Side, i: nat, s: nat, x: nat)
    requires n > 0 && OnRing(n, side, i) && s <= RingLength(n)
    ensures Visits(n, side, i, s, x) == if Reached(n, side, i, s, x) then 1 else 0
    decreases s
  {
    if s > 0 {
      VisitsWithinLap(n, side, i, s - 1, x);
      if Walk(n, side, i, s) == x {
        forall t | 1 <= t <= s - 1 ensures Walk(n, side, i, t) != x {
          WalkInjectiveWithinLap(n, side, i, t, s);
        }
      } else if Reached(n, side, i, s, x) {
        var t :| 1 <= t <= s && Walk(n, side, i, t) == x;
        assert t < s;
      }
    }
  }

  /** A full lap from i reaches every ring pit exactly once. */
  lemma FullLapVisits(n: nat, side: Side, i: nat, x: nat)
    requires n > 0 && OnRing(n, side, i)
    ensures Visits(n, side, i, RingLength(n), x) == if OnRing(n, side, x) then 1 else 0
  {
    var len := RingLength(n);
    VisitsWithinLap(n, side, i, len, x);
    if OnRing(n, side, x) {
      var m := RingIndex(n, side, i);
      var mx := RingIndex(n, side, x);
      RingIndexRoundTrip(n, side, i, 0);
      RingIndexRoundTrip(n, side, x, 0);
      var t := if m < mx then mx - m else mx + len - m;
      assert RingOrder(n, side)[m] == i && RingOrder(n, side)[mx] == x;
      if m == mx {
        FullLap(n, side, m);
      } else {
        WalkRound(n, side, m, t);
        assert (if m + t < len then m + t else m + t - len) == mx;
      }
      assert Walk(n, side, i, t) == x;
    } else {
      VisitsOffRing(n, side, i, len, x);
    }
  }

  /** Every further lap of 2n+1 stones adds one more stone to every pit of the ring. */
  lemma ExtraLapVisits(n: nat, side: Side, i: nat, s: nat, x: nat)
    requires n > 0 && OnRing(n, side, i)
    ensures Visits(n, side, i, RingLength(n) + s, x)
            == Visits(n, side, i, s, x) + if OnRing(n, side, x) then 1 else 0
  {
    VisitsSplit(n, side, i, RingLength(n), s, x);
    FullLapVisits(n, side, i, x);
    RingIndexRoundTrip(n, side, i, 0);
    FullLap(n, side, RingIndex(n, side, i));
  }

  lemma TotalUpdate(c: seq<int>, i: nat, v: int)
    requires i < |c|
    ensures Total(c[i := v]) == Total(c) - c[i] + v
  {
    SumToUpdate(c, i, v, |c|);
  }

  lemma {:induction false} SumToUpdate(c: seq<int>, i: nat, v: int, k: nat)
    requires i < |c| && k <= |c|
    ensures SumTo(c[i := v], k) == SumTo(c, k) + if i < k then v - c[i] else 0
  {
    if k > 0 {
      SumToUpdate(c, i, v, k - 1);
    }
  }

  /** Sowing s stones adds exactly s stones to the board. */
  lemma {:induction false} SowTotal(c: seq<int>, n: nat, side: Side, i: nat, s: nat)
    requires n > 0 && |c| == 2 * n + 2 && OnRing(n, side, i)
    ensures Total(Sow(c, n, side, i, s)) == Total(c) + s
    decreases s
  {
    if s > 0 {
      var j := Next(n, side, i);
      TotalUpdate(c, j, c[j] + 1);
      SowTotal(c[j := c[j] + 1], n, side, j, s - 1);
    }
  }

  /** Sowing never touches the other player's store. */
  lemma SowSkipsOtherStore(c: seq<int>, n: nat, side: Side, i: nat, s: nat)
    requires n > 0 && |c| == 2 * n + 2 && OnRing(n, side, i)
    ensures Sow(c, n, side, i, s)[StorePos(n, Other(side))] == c[StorePos(n, Other(side))]
  {
    SowAddsVisits(c, n, side, i, s, StorePos(n, Other(side)));
    VisitsOffRing(n, side, i, s, StorePos(n, Other(side)));
  }

  lemma SowKeepsNonNegative(c: seq<int>, n: nat, side: Side, i: nat, s: nat)
    requires n > 0 && |c| == 2 * n + 2 && OnRing(n, side, i) && NonNegative(c)
    ensures NonNegative(Sow(c, n, side, i, s))
  {
    forall x | 0 <= x < |c| ensures Sow(c, n, side, i, s)[x] >= 0 {
      SowAddsVisits(c, n, side, i, s, x);
    }
  }

  /** Pick up all stones of pit `from` and add them to pit `to` (a store). */
  function Move(c: seq<int>, from: nat, to: nat): (r: seq<int>)
    requires from < |c| && to < |c| && from != to
    ensures |r| == |c|
  {
    c[from := 0][to := c[to] + c[from]]
  }

  /** Moving stones keeps the total. */
  lemma MoveTotal(c: seq<int>, from: nat, to: nat)
    requires from < |c| && to < |c| && from != to
    ensures Total(Move(c, from, to)) == Total(c)
  {
    var emptied := c[from := 0];
    TotalUpdate(c, from, 0);
    assert emptied[to] == c[to];
    TotalUpdate(emptied, to, c[to] + c[from]);
  }

  // ---------------------------------------------------------------------------------------
  // End of game: sweeping a side into its store

  /** Move the positive regular pits k.. of `side` into that side's store, one pit at a time. */
  function SweepFrom(c: seq<int>, n: nat, side: Side, k: nat): (r: seq<int>)
    requires n > 0 && |c| == 2 * n + 2 && k <= n
    ensures |r| == |c|
    decreases n - k
  {
    if k == n then c
    else
      var p := PitPos(n, side, k);
      var st := StorePos(n, side);
      SweepFrom(if c[p] > 0 then Move(c, p, st) else c, n, side, k + 1)
  }

  /** `collectPitsToBigPit`: all the positive regular pits of `side` go to its store. */
  function Sweep(c: seq<int>, n: nat, side: Side): (r: seq<int>)
    requires n > 0 && |c| == 2 * n + 2
    ensures |r| == |c|
  {
    SweepFrom(c, n, side, 0)
  }

  /** Sum of the positive entries. */
  function PositiveSum(s: seq<int>): nat
  {
    if |s| == 0 then 0 else (if s[0] > 0 then s[0] else 0) + PositiveSum(s[1..])
  }

  /** The store gains the positive pits k.. of its side. */
  lemma {:induction false} SweepFromStore(c: seq<int>, n: nat, side: Side, k: nat)
    requires n > 0 && |c| == 2 * n + 2 && k <= n
    ensures SweepFrom(c, n, side, k)[StorePos(n, side)]
            == c[StorePos(n, side)] + PositiveSum(Regulars(c, n, side)[k..])
    decreases n - k
  {
    var st := StorePos(n, side);
    var regs := Regulars(c, n, side);
    if k < n {
      var p := PitPos(n, side, k);
      var c' := if c[p] > 0 then Move(c, p, st) else c;
      SweepFromStore(c', n, side, k + 1);
      var regs' := Regulars(c', n, side);
      assert regs'[k + 1..] == regs[k + 1..] by {
        forall j | k + 1 <= j < n ensures regs'[j] == regs[j] {
          assert PitPos(n, side, j) != p && PitPos(n, side, j) != st;
        }
      }
      assert regs[k..][0] == c[p];
      assert regs[k..][1..] == regs[k + 1..];
    } else {
      assert regs[k..] == [];
    }
  }

  /** Any other pit: the positive pits k.. of the side are emptied, the rest keep their count. */
  lemma {:induction false} SweepFromPit(c: seq<int>, n: nat, side: Side, k: nat, x: nat)
    requires n > 0 && |c| == 2 * n + 2 && k <= n && x < |c| && x != StorePos(n, side)
    ensures SweepFrom(c, n, side, k)[x]
            == if OwnRegular(n, side, x) && PitPos(n, side, k) <= x && c[x] > 0 then 0 else c[x]
    decreases n - k
  {
    if k < n {
      var p := PitPos(n, side, k);
      var c' := if c[p] > 0 then Move(c, p, StorePos(n, side)) else c;
      SweepFromPit(c', n, side, k + 1, x);
    }
  }

  /** Sweeping empties the side's positive pits into its own store and changes nothing else. */
  lemma SweepEffect(c: seq<int>, n: nat, side: Side, x: nat)
    requires n > 0 && |c| == 2 * n + 2 && x < |c|
    ensures Sweep(c, n, side)[x]
            == if x == StorePos(n, side) then c[x] + PositiveSum(Regulars(c, n, side))
               else if OwnRegular(n, side, x) && c[x] > 0 then 0
               else c[x]
  {
    if x == StorePos(n, side) {
      SweepFromStore(c, n, side, 0);
      assert Regulars(c, n, side)[0..] == Regulars(c, n, side);
    } else {
      SweepFromPit(c, n, side, 0, x);
    }
  }

  /** Sweeping only moves stones. */
  lemma {:induction false} SweepFromTotal(c: seq<int>, n: nat, side: Side, k: nat)
    requires n > 0 && |c| == 2 * n + 2 && k <= n
    ensures Total(SweepFrom(c, n, side, k)) == Total(c)
    decreases n - k
  {
    if k < n {
      var p := PitPos(n, side, k);
      var st := StorePos(n, side);
      if c[p] > 0 {
        MoveTotal(c, p, st);
        SweepFromTotal(Move(c, p, st), n, side, k + 1);
      } else {
        SweepFromTotal(c, n, side, k + 1);
      }
    }
  }

  /** End of the game: sweep the side that still has stones (the first player's side when
      both are empty, which moves nothing). */
  function Finish(c: seq<int>, n: nat): (r: seq<int>)
    requires n > 0 && |c| == 2 * n + 2
    ensures |r| == |c|
  {
    Sweep(c, n, if SideEmpty(c, n, First) then Second else First)
  }

  /** Sweeping a side leaves it without a positive pit and the other side's pits as they were. */
  lemma SweepSides(c: seq<int>, n: nat, side: Side)
    requires n > 0 && |c| == 2 * n + 2
    ensures SideEmpty(Sweep(c, n, side), n, side)
    ensures Regulars(Sweep(c, n, side), n, Other(side)) == Regulars(c, n, Other(side))
  {
    var f := Sweep(c, n, side);
    forall k | 0 <= k < n
      ensures f[PitPos(n, side, k)] <= 0 && f[PitPos(n, Other(side), k)] == c[PitPos(n, Other(side), k)]
    {
      SweepEffect(c, n, side, PitPos(n, side, k));
      SweepEffect(c, n, side, PitPos(n, Other(side), k));
    }
  }

  /** After the end-of-game sweep neither side has a positive pit, the side whose emptiness
      ended the game is untouched, and no stone was created or lost. */
  lemma FinishEffect(c: seq<int>, n: nat)
    requires n > 0 && |c| == 2 * n + 2 && GameOver(c, n)
    ensures SideEmpty(Finish(c, n), n, First) && SideEmpty(Finish(c, n), n, Second)
    ensures SideEmpty(c, n, First) ==> Regulars(Finish(c, n), n, First) == Regulars(c, n, First)
    ensures !SideEmpty(c, n, First) ==> Regulars(Finish(c, n), n, Second) == Regulars(c, n, Second)
    ensures Total(Finish(c, n)) == Total(c)
  {
    var swept := if SideEmpty(c, n, First) then Second else First;
    SweepFromTotal(c, n, swept, 0);
    SweepSides(c, n, swept);
    var f := Finish(c, n);
    assert SideEmpty(c, n, Other(swept));
    forall k | 0 <= k < n ensures f[PitPos(n, Other(swept), k)] <= 0 {
      assert Regulars(f, n, Other(swept))[k] == Regulars(c, n, Other(swept))[k];
    }
  }

  lemma SweepKeepsNonNegative(c: seq<int>, n: nat, side: Side)
    requires n > 0 && |c| == 2 * n + 2 && NonNegative(c)
    ensures NonNegative(Sweep(c, n, side))
  {
    forall x | 0 <= x < |c| ensures Sweep(c, n, side)[x] >= 0 {
      SweepEffect(c, n, side, x);
    }
  }

  // ---------------------------------------------------------------------------------------
  // Capture

  /** Empty an own regular pit i into the own store, then its opposite pit likewise. */
  function Capture(c: seq<int>, n: nat, side: Side, i: nat): (r: seq<int>)
    requires n > 0 && |c| == 2 * n + 2 && OwnRegular(n, side, i)
    ensures |r| == |c|
  {
    Move(Move(c, i, StorePos(n, side)), Opposite(n, i), StorePos(n, side))
  }

  /** A capture leaves the pit and its opposite empty, puts both their stones in the own
      store and changes no other pit. */
  lemma CaptureEffect(c: seq<int>, n: nat, side: Side, i: nat, x: nat)
    requires n > 0 && |c| == 2 * n + 2 && OwnRegular(n, side, i) && x < |c|
    ensures Opposite(n, i) != i && OwnRegular(n, Other(side), Opposite(n, i))
    ensures Capture(c, n, side, i)[x]
            == if x == i || x == Opposite(n, i) then 0
               else if x == StorePos(n, side) then c[x] + c[i] + c[Opposite(n, i)]
               else c[x]
  {
  }

  /** A capture only moves stones. */
  lemma CaptureTotal(c: seq<int>, n: nat, side: Side, i: nat)
    requires n > 0 && |c| == 2 * n + 2 && OwnRegular(n, side, i)
    ensures Total(Capture(c, n, side, i)) == Total(c)
  {
    MoveTotal(c, i, StorePos(n, side));
    MoveTotal(Move(c, i, StorePos(n, side)), Opposite(n, i), StorePos(n, side));
  }

  // ---------------------------------------------------------------------------------------
  // The turn state machine

  /** What the engine exposes: pits per side, counts, the active side (None once the game is
      over) and the turn counter. */
  datatype Game = Game(n: nat, counts: seq<int>, active: Option<Side>, turn: int)

  /** The new game state and the outcome of one `turn` call. */
  datatype Step = Step(game: Game, outcome: Outcome)

  /** The position a turn sows from. */
  function From(g: Game, idx: int): nat
    requires g.active.Some? && 0 <= idx < g.n
  {
    PitPos(g.n, g.active.value, idx)
  }

  /** A move the engine accepts: a side is active, the index names one of its regular pits and
      that pit holds stones. */
  predicate Legal(g: Game, idx: int)
    requires Fits(g.counts, g.n)
  {
    g.active.Some? && 0 <= idx < g.n && g.counts[From(g, idx)] > 0
  }

  /** Counts right after sowing a legal move. */
  function Sown(g: Game, idx: int): (c: seq<int>)
    requires Fits(g.counts, g.n) && Legal(g, idx)
    ensures |c| == |g.counts|
  {
    var from := From(g, idx);
    Sow(g.counts[from := 0], g.n, g.active.value, from, g.counts[from])
  }

  /** The pit that receives the last stone of a legal move. */
  function LastPit(g: Game, idx: int): (p: nat)
    requires Fits(g.counts, g.n) && Legal(g, idx)
    ensures OnRing(g.n, g.active.value, p)
  {
    Walk(g.n, g.active.value, From(g, idx), g.counts[From(g, idx)])
  }

  /** One call of `turn(idx)`: the counter rises first, then the move is played. */
  function Turn(g: Game, idx: int): (r: Step)
    requires Fits(g.counts, g.n)
    ensures r.game.n == g.n && Fits(r.game.counts, r.game.n) && r.game.turn == g.turn + 1
  {
    PlayTurn(g.(turn := g.turn + 1), idx)
  }

  /** `turn(idx)` once the counter has risen: a missing active side or a bad index fails, an
      empty pit is picked up and fails, otherwise the pit is sown; then the end-of-game check,
      the extra turn on a store, the capture (with a second end-of-game check) and the switch
      of player, in this order. */
  function PlayTurn(g: Game, idx: int): (r: Step)
    requires Fits(g.counts, g.n)
    ensures r.game.n == g.n && Fits(r.game.counts, r.game.n) && r.game.turn == g.turn
  {
    if g.active.None? || !(0 <= idx < g.n) then Step(g, Fail(IndexOutOfBounds))
    else if !Legal(g, idx) then Step(g.(counts := g.counts[From(g, idx) := 0]), Fail(IllegalArgument))
    else Step(AfterSowing(g.(counts := Sown(g, idx)), g.active.value, LastPit(g, idx)), Pass)
  }

  /** What `turn` does once `side` has sown and the last stone fell at `last`: the end-of-game
      check, the extra turn after a last stone in a store, the capture of a last stone in an
      own pit that now holds exactly one, and otherwise the switch of player, in this order. */
  function AfterSowing(g: Game, side: Side, last: nat): (r: Game)
    requires g.n > 0 && |g.counts| == 2 * g.n + 2 && OnRing(g.n, side, last)
    ensures r.n == g.n && |r.counts| == |g.counts| && r.turn == g.turn
  {
    if GameOver(g.counts, g.n) then Ended(g)
    else if IsStore(g.n, last) then g
    else if OwnRegular(g.n, side, last) && g.counts[last] == 1 then
      AfterCapture(g.(counts := Capture(g.counts, g.n, side, last)), side)
    else g.(active := Some(Other(side)))
  }

  /** After a capture by `side`: the second end-of-game check, else the other side moves. */
  function AfterCapture(g: Game, side: Side): (r: Game)
    requires g.n > 0 && |g.counts| == 2 * g.n + 2
    ensures r.n == g.n && |r.counts| == |g.counts| && r.turn == g.turn
  {
    if GameOver(g.counts, g.n) then Ended(g) else g.(active := Some(Other(side)))
  }

  /** `finishGame`: the side that still has stones is swept into its store and nobody moves. */
  function Ended(g: Game): (r: Game)
    requires g.n > 0 && |g.counts| == 2 * g.n + 2
    ensures r.n == g.n && |r.counts| == |g.counts| && r.turn == g.turn && r.active.None?
  {
    g.(counts := Finish(g.counts, g.n), active := None)
  }

  /** `getWinner`: none while the game goes on, none without stores, none on a draw, else the
      side with the strictly larger store. */
  function Winner(g: Game): (w: Option<Side>)
    requires Fits(g.counts, g.n)
    ensures w.Some? ==> g.n > 0 && GameOver(g.counts, g.n)
  {
    if !GameOver(g.counts, g.n) || g.n == 0 then None
    else
      var s1 := g.counts[StorePos(g.n, First)];
      var s2 := g.counts[StorePos(g.n, Second)];
      if s1 > s2 then Some(First) else if s1 < s2 then Some(Second) else None
  }

  // ---------------------------------------------------------------------------------------
  // What the rules promise about one turn

  /** Within one lap, sowing adds one stone to each pit the steps reach and nothing elsewhere. */
  lemma SowOneLap(c: seq<int>, n: nat, side: Side, i: nat, s: nat, x: nat)
    requires n > 0 && |c| == 2 * n + 2 && OnRing(n, side, i) && x < |c| && s <= RingLength(n)
    ensures Sow(c, n, side, i, s)[x] == c[x] + if Reached(n, side, i, s, x) then 1 else 0
  {
    SowAddsVisits(c, n, side, i, s, x);
    VisitsWithinLap(n, side, i, s, x);
  }

  /** A turn that is carried out neither creates nor loses stones; neither does a rejected one
      on a board without negative counts. */
  lemma TurnConserves(g: Game, idx: int)
    requires Fits(g.counts, g.n)
    ensures Turn(g, idx).outcome.Pass? || NonNegative(g.counts) ==>
              Total(Turn(g, idx).game.counts) == Total(g.counts)
  {
    if Legal(g, idx) {
      var side := g.active.value;
      var from := From(g, idx);
      var c1 := Sown(g, idx);
      var last := LastPit(g, idx);
      TotalUpdate(g.counts, from, 0);
      SowTotal(g.counts[from := 0], g.n, side, from, g.counts[from]);
      if GameOver(c1, g.n) {
        FinishEffect(c1, g.n);
      } else if !IsStore(g.n, last) && OwnRegular(g.n, side, last) && c1[last] == 1 {
        var c2 := Capture(c1, g.n, side, last);
        CaptureTotal(c1, g.n, side, last);
        if GameOver(c2, g.n) {
          FinishEffect(c2, g.n);
        }
      }
    } else if g.active.Some? && 0 <= idx < g.n {
      assert NonNegative(g.counts) ==> g.counts[From(g, idx) := 0] == g.counts;
    }
  }

  /** No turn makes a count negative. */
  lemma TurnKeepsNonNegative(g: Game, idx: int)
    requires Fits(g.counts, g.n) && NonNegative(g.counts)
    ensures NonNegative(Turn(g, idx).game.counts)
  {
    if Legal(g, idx) {
      var side := g.active.value;
      var from := From(g, idx);
      var c1 := Sown(g, idx);
      var last := LastPit(g, idx);
      SowKeepsNonNegative(g.counts[from := 0], g.n, side, from, g.counts[from]);
      if GameOver(c1, g.n) {
        SweepKeepsNonNegative(c1, g.n, if SideEmpty(c1, g.n, First) then Second else First);
      } else if !IsStore(g.n, last) && OwnRegular(g.n, side, last) && c1[last] == 1 {
        var c2 := Capture(c1, g.n, side, last);
        assert NonNegative(c2) by {
          forall x | 0 <= x < |c2| ensures c2[x] >= 0 {
            CaptureEffect(c1, g.n, side, last, x);
          }
        }
        if GameOver(c2, g.n) {
          SweepKeepsNonNegative(c2, g.n, if SideEmpty(c2, g.n, First) then Second else First);
        }
      }
    }
  }

  /** Exactly when a turn is rejected, and what a rejected turn leaves behind: the counter has
      risen, the active side is the same, and only the picked-up pit can have changed (it is
      reset to zero, which changes nothing when counts are non-negative). */
  lemma RejectedTurn(g: Game, idx: int)
    requires Fits(g.counts, g.n)
    ensures Turn(g, idx).outcome == Fail(IndexOutOfBounds) <==> g.active.None? || !(0 <= idx < g.n)
    ensures Turn(g, idx).outcome == Fail(IllegalArgument) <==>
              g.active.Some? && 0 <= idx < g.n && g.counts[From(g, idx)] <= 0
    ensures Turn(g, idx).outcome.Fail? <==> !Legal(g, idx)
    ensures Turn(g, idx).outcome.Fail? ==>
              Turn(g, idx).game.active == g.active && Turn(g, idx).game.turn == g.turn + 1
    ensures Turn(g, idx).outcome.Fail? && NonNegative(g.counts) ==> Turn(g, idx).game.counts == g.counts
  {
    if g.active.Some? && 0 <= idx < g.n && g.counts[From(g, idx)] <= 0 {
      assert NonNegative(g.counts) ==> g.counts[From(g, idx) := 0] == g.counts;
    }
  }

  /** A carried-out turn ends the game (no active side) exactly when the resulting board is
      over, and then neither side has a positive pit left. */
  lemma TurnEndsExactlyWhenOver(g: Game, idx: int)
    requires Fits(g.counts, g.n) && Legal(g, idx)
    ensures Turn(g, idx).outcome == Pass
    ensures Turn(g, idx).game.active.None? <==> GameOver(Turn(g, idx).game.counts, g.n)
    ensures Turn(g, idx).game.active.None? ==>
              SideEmpty(Turn(g, idx).game.counts, g.n, First)
              && SideEmpty(Turn(g, idx).game.counts, g.n, Second)
  {
    var side := g.active.value;
    var c1 := Sown(g, idx);
    var last := LastPit(g, idx);
    if GameOver(c1, g.n) {
      FinishEffect(c1, g.n);
    } else if !IsStore(g.n, last) && OwnRegular(g.n, side, last) && c1[last] == 1 {
      var c2 := Capture(c1, g.n, side, last);
      if GameOver(c2, g.n) {
        FinishEffect(c2, g.n);
      }
    }
  }

  /** The extra turn: the same side moves again exactly when the last stone fell into a store
      (necessarily its own) and that did not end the game. */
  lemma ExtraTurn(g: Game, idx: int)
    requires Fits(g.counts, g.n) && Legal(g, idx)
    ensures IsStore(g.n, LastPit(g, idx)) ==> LastPit(g, idx) == StorePos(g.n, g.active.value)
    ensures Turn(g, idx).game.active == g.active <==>
              IsStore(g.n, LastPit(g, idx)) && !GameOver(Sown(g, idx), g.n)
    ensures Turn(g, idx).game.active == g.active ==> Turn(g, idx).game.counts == Sown(g, idx)
  {
  }

  /** The game-end check comes before the extra-turn check: a last stone in the own store that
      empties a side still ends the game. */
  lemma GameEndPrecedesExtraTurn(g: Game, idx: int)
    requires Fits(g.counts, g.n) && Legal(g, idx)
    requires IsStore(g.n, LastPit(g, idx)) && GameOver(Sown(g, idx), g.n)
    ensures Turn(g, idx).game.active.None?
    ensures Turn(g, idx).game.counts == Finish(Sown(g, idx), g.n)
  {
  }

  /** The capture: a last stone in an own regular pit that was empty before moves that stone and
      everything in the opposite pit (even nothing) into the own store, empties both pits, and
      the other side moves next unless the game is over. */
  lemma CaptureRule(g: Game, idx: int, x: nat)
    requires Fits(g.counts, g.n) && Legal(g, idx) && x < |g.counts|
    requires OwnRegular(g.n, g.active.value, LastPit(g, idx)) && Sown(g, idx)[LastPit(g, idx)] == 1
    requires !GameOver(Capture(Sown(g, idx), g.n, g.active.value, LastPit(g, idx)), g.n)
    requires !GameOver(Sown(g, idx), g.n)
    ensures Turn(g, idx).game.active == Some(Other(g.active.value))
    ensures Turn(g, idx).game.counts[x]
            == var c1 := Sown(g, idx);
               var last := LastPit(g, idx);
               if x == last || x == Opposite(g.n, last) then 0
               else if x == StorePos(g.n, g.active.value) then c1[x] + 1 + c1[Opposite(g.n, last)]
               else c1[x]
  {
    CaptureEffect(Sown(g, idx), g.n, g.active.value, LastPit(g, idx), x);
  }

  /** Otherwise (no store, no capture, no end) the other side moves next on the sown board. */
  lemma SwitchRule(g: Game, idx: int)
    requires Fits(g.counts, g.n) && Legal(g, idx)
    requires !IsStore(g.n, LastPit(g, idx)) && !GameOver(Sown(g, idx), g.n)
    requires !(OwnRegular(g.n, g.active.value, LastPit(g, idx)) && Sown(g, idx)[LastPit(g, idx)] == 1)
    ensures Turn(g, idx).game == g.(counts := Sown(g, idx), active := Some(Other(g.active.value)),
                                    turn := g.turn + 1)
  {
  }

  /** `getWinner` names a side exactly when the game is over and that side's store is strictly
      larger; it names nobody while the game goes on, on a board without pits, or on a draw. */
  lemma WinnerMeaning(g: Game, side: Side)
    requires Fits(g.counts, g.n)
    ensures Winner(g) == Some(side) <==>
              g.n > 0 && GameOver(g.counts, g.n)
              && g.counts[StorePos(g.n, side)] > g.counts[StorePos(g.n, Other(side))]
    ensures Winner(g) == None <==>
              g.n == 0 || !GameOver(g.counts, g.n)
              || g.counts[StorePos(g.n, First)] == g.counts[StorePos(g.n, Second)]
  {
  }

  // ---------------------------------------------------------------------------------------
  // Whole games

  /** The counts `init` lays out: the first player's pits, store, the second player's pits,
      store. */
  function Layout(pits1: seq<int>, store1: int, pits2: seq<int>, store2: int): (c: seq<int>)
    requires |pits1| == |pits2|
    ensures Fits(c, |pits1|) || pits1 == []
    ensures |c| == 2 * |pits1| + 2
    ensures forall k :: 0 <= k < |pits1| ==>
              c[PitPos(|pits1|, First, k)] == pits1[k] && c[PitPos(|pits1|, Second, k)] == pits2[k]
    ensures c[StorePos(|pits1|, First)] == store1 && c[StorePos(|pits1|, Second)] == store2
  {
    pits1 + [store1] + pits2 + [store2]
  }

  /** The default board of `init()`: six pits of six stones per side, empty stores. */
  function DefaultGame(start: Side): Game
  {
    Game(6, Layout(Filled(6, 6), 0, Filled(6, 6), 0), Some(start), 0)
  }

  /** k counts of v each, as `Arrays.fill` leaves a fresh array. */
  function Filled(k: nat, v: int): (r: seq<int>)
    ensures |r| == k && forall i :: 0 <= i < k ==> r[i] == v
  {
    seq(k, _ => v)
  }

  /** The game reached by a sequence of `turn` calls; rejected calls are part of it too. */
  function Play(g: Game, moves: seq<int>): (r: Game)
    requires Fits(g.counts, g.n)
    ensures r.n == g.n && Fits(r.counts, r.n) && r.turn == g.turn + |moves|
    decreases |moves|
  {
    if |moves| == 0 then g else Play(Turn(g, moves[0]).game, moves[1..])
  }

  lemma TotalZero(c: seq<int>)
    requires forall i :: 0 <= i < |c| ==> c[i] == 0
    ensures Total(c) == 0
  {
    SumToZero(c, |c|);
  }

  lemma {:induction false} SumToZero(c: seq<int>, k: nat)
    requires k <= |c| && forall i :: 0 <= i < |c| ==> c[i] == 0
    ensures SumTo(c, k) == 0
  {
    if k > 0 {
      SumToZero(c, k - 1);
    }
  }

  /** When every regular pit is empty, the stores hold all the stones. */
  lemma StoresHoldAll(c: seq<int>, n: nat)
    requires n > 0 && |c| == 2 * n + 2 && NonNegative(c)
    requires SideEmpty(c, n, First) && SideEmpty(c, n, Second)
    ensures Total(c) == c[StorePos(n, First)] + c[StorePos(n, Second)]
  {
    var a := StorePos(n, First);
    var b := StorePos(n, Second);
    var z := c[a := 0][b := 0];
    forall i | 0 <= i < |z| ensures z[i] == 0 {
      if i != a && i != b {
        if i < n {
          assert c[PitPos(n, First, i)] <= 0;
        } else {
          assert c[PitPos(n, Second, i - n - 1)] <= 0;
        }
      }
    }
    TotalZero(z);
    TotalUpdate(c, a, 0);
    TotalUpdate(c[a := 0], b, 0);
  }

  /** What every game reachable from the default board keeps: 72 stones, none negative, and
      no active side only once both sides are empty. */
  predicate Consistent(g: Game)
  {
    g.n == 6 && Fits(g.counts, g.n) && NonNegative(g.counts) && Total(g.counts) == 72
    && (g.active.None? ==> SideEmpty(g.counts, g.n, First) && SideEmpty(g.counts, g.n, Second))
  }

  lemma DefaultTotal()
    ensures Total(Layout(Filled(6, 6), 0, Filled(6, 6), 0)) == 72
  {
    var c := Layout(Filled(6, 6), 0, Filled(6, 6), 0);
    SumToRun(c, 0, 6, 6);
    SumToRun(c, 7, 6, 6);
  }

  /** A run of k counts equal to v adds k * v. */
  lemma {:induction false} SumToRun(c: seq<int>, lo: nat, k: nat, v: int)
    requires lo + k <= |c| && forall i :: lo <= i < lo + k ==> c[i] == v
    ensures SumTo(c, lo + k) == SumTo(c, lo) + k * v
  {
    if k > 0 {
      SumToRun(c, lo, k - 1, v);
    }
  }

  lemma TurnKeepsConsistent(g: Game, idx: int)
    requires Consistent(g)
    ensures Consistent(Turn(g, idx).game)
  {
    TurnConserves(g, idx);
    TurnKeepsNonNegative(g, idx);
    RejectedTurn(g, idx);
    if Legal(g, idx) {
      TurnEndsExactlyWhenOver(g, idx);
    }
  }

  lemma {:induction false} PlayKeepsConsistent(g: Game, moves: seq<int>)
    requires Consistent(g)
    ensures Consistent(Play(g, moves))
    decreases |moves|
  {
    if moves != [] {
      TurnKeepsConsistent(g, moves[0]);
      PlayKeepsConsistent(Turn(g, moves[0]).game, moves[1..]);
    }
  }

  /** The default board is consistent. */
  lemma DefaultConsistent(start: Side)
    ensures Consistent(DefaultGame(start))
  {
    DefaultTotal();
    LayoutNonNegative(Filled(6, 6), 0, Filled(6, 6), 0);
  }

  /** A layout of non-negative counts has no negative count. */
  lemma LayoutNonNegative(pits1: seq<int>, store1: int, pits2: seq<int>, store2: int)
    requires |pits1| == |pits2| && NonNegative(pits1) && NonNegative(pits2)
    requires store1 >= 0 && store2 >= 0
    ensures NonNegative(Layout(pits1, store1, pits2, store2))
  {
    var c := Layout(pits1, store1, pits2, store2);
    var n := |pits1|;
    forall i | 0 <= i < |c| ensures c[i] >= 0 {
      if i < n {
        assert c[PitPos(n, First, i)] == pits1[i];
      } else if n < i < 2 * n + 1 {
        assert c[PitPos(n, Second, i - n - 1)] == pits2[i - n - 1];
      }
    }
  }

  /** A consistent game holds 72 stones, none negative; once it has ended, every regular pit
      is empty and the two stores hold all 72. */
  lemma ConsistentTotals(g: Game)
    requires Consistent(g)
    ensures Total(g.counts) == 72 && NonNegative(g.counts)
    ensures g.active.None? ==>
              Regulars(g.counts, 6, First) == [0, 0, 0, 0, 0, 0]
              && Regulars(g.counts, 6, Second) == [0, 0, 0, 0, 0, 0]
              && g.counts[6] + g.counts[13] == 72
  {
    if g.active.None? {
      StoresHoldAll(g.counts, 6);
      assert forall k :: 0 <= k < 6 ==> Regulars(g.counts, 6, First)[k] == 0;
      assert forall k :: 0 <= k < 6 ==> Regulars(g.counts, 6, Second)[k] == 0;
    }
  }

  /** Any sequence of turns on the default board keeps all 72 stones on the board; once the
      game has ended, every regular pit is empty and the two stores hold all 72. */
  lemma DefaultGameConserves(start: Side, moves: seq<int>)
    ensures Total(Play(DefaultGame(start), moves).counts) == 72
    ensures NonNegative(Play(DefaultGame(start), moves).counts)
    ensures var g := Play(DefaultGame(start), moves);
            g.active.None? ==>
              Regulars(g.counts, 6, First) == [0, 0, 0, 0, 0, 0]
              && Regulars(g.counts, 6, Second) == [0, 0, 0, 0, 0, 0]
              && g.counts[6] + g.counts[13] == 72
  {
    DefaultConsistent(start);
    PlayKeepsConsistent(DefaultGame(start), moves);
    ConsistentTotals(Play(DefaultGame(start), moves));
  }
}
