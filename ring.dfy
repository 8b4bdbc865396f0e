/** Board geometry of Kalah: where each pit sits, which pit a sowing player reaches
    next, and which pit lies opposite which.

    A board with n regular pits per side has 2n+2 pits, laid out as
      0 .. n-1      the first player's regular pits, in sowing order
      n             the first player's store
      n+1 .. 2n     the second player's regular pits, in sowing order
      2n+1          the second player's store
    Each player sows around a ring of 2n+1 pits: their own regular pits, their own store,
    the opponent's regular pits, and back; the opponent's store is not on that ring. */
module Ring {

  datatype Side = First | Second

  function Other(side: Side): Side
  {
    if side == First then Second else First
  }

  /** Number of pits on one player's sowing ring. */
  function RingLength(n: nat): nat
  {
    2 * n + 1
  }

  /** Layout position of a side's k-th regular pit. */
  function PitPos(n: nat, side: Side, k: nat): nat
  {
    (if side == First then 0 else n + 1) + k
  }

  /** Layout position of a side's store. */
  function StorePos(n: nat, side: Side): nat
  {
    if side == First then n else 2 * n + 1
  }

  predicate IsStore(n: nat, i: int)
  {
    i == n || i == 2 * n + 1
  }

  predicate IsRegular(n: nat, i: int)
  {
    0 <= i < 2 * n + 2 && !IsStore(n, i)
  }

  /** The side a layout position belongs to. */
  function Owner(n: nat, i: nat): Side
  {
    if i <= n then First else Second
  }

  /** A regular pit of the given side. */
  predicate OwnRegular(n: nat, side: Side, i: int)
  {
    IsRegular(n, i) && Owner(n, i) == side
  }

  /** The positions a player sowing for `side` can reach: everything but the other store. */
  predicate OnRing(n: nat, side: Side, i: int)
  {
    0 <= i < 2 * n + 2 && i != StorePos(n, Other(side))
  }

  /** The pit that follows position i on the ring of `side`. */
  function Next(n: nat, side: Side, i: nat): (j: nat)
    requires n > 0 && OnRing(n, side, i)
    ensures OnRing(n, side, j)
  {
    if side == First then
      (if i == 2 * n then 0 else i + 1)
    else if i == 2 * n + 1 then 0
    else if i + 1 == n then n + 1
    else i + 1
  }

  /** The pit reached after k steps along the ring of `side`, starting at i. */
  function Walk(n: nat, side: Side, i: nat, k: nat): (j: nat)
    requires n > 0 && OnRing(n, side, i)
    ensures OnRing(n, side, j)
    decreases k
  {
    if k == 0 then i else Walk(n, side, Next(n, side, i), k - 1)
  }

  /** Reference order of the ring of `side`, written out: own regular pits, own store,
      the other side's regular pits. */
  function RingOrder(n: nat, side: Side): (r: seq<nat>)
    ensures |r| == RingLength(n)
  {
    seq(n, k requires 0 <= k < n => PitPos(n, side, k))
    + [StorePos(n, side)]
    + seq(n, k requires 0 <= k < n => PitPos(n, Other(side), k))
  }

  /** Index of an on-ring position within RingOrder. */
  function RingIndex(n: nat, side: Side, i: nat): nat
  {
    if side == First then i
    else if i >= n + 1 then i - (n + 1)
    else i + n + 1
  }

  /** The pit opposite a regular pit: k-th pit of one side faces the (n-1-k)-th of the other. */
  function Opposite(n: nat, i: nat): int
  {
    2 * n - i
  }

  lemma RingOrderAt(n: nat, side: Side, m: nat)
    requires m < RingLength(n)
    ensures m < n ==> RingOrder(n, side)[m] == PitPos(n, side, m)
    ensures m == n ==> RingOrder(n, side)[m] == StorePos(n, side)
    ensures n < m ==> RingOrder(n, side)[m] == PitPos(n, Other(side), m - n - 1)
  {
    var r := RingOrder(n, side);
    var own := seq(n, k requires 0 <= k < n => PitPos(n, side, k));
    var opp := seq(n, k requires 0 <= k < n => PitPos(n, Other(side), k));
    assert r == own + [StorePos(n, side)] + opp;
    if n < m {
      assert r[m] == opp[m - n - 1];
    }
  }

  /** RingOrder and RingIndex are inverse: RingOrder lists every on-ring position exactly once,
      and nothing else. */
  lemma RingIndexRoundTrip(n: nat, side: Side, i: nat, m: nat)
    ensures OnRing(n, side, i) ==>
              RingIndex(n, side, i) < RingLength(n) && RingOrder(n, side)[RingIndex(n, side, i)] == i
    ensures m < RingLength(n) ==>
              OnRing(n, side, RingOrder(n, side)[m]) && RingIndex(n, side, RingOrder(n, side)[m]) == m
  {
    if OnRing(n, side, i) {
      RingOrderAt(n, side, RingIndex(n, side, i));
    }
    if m < RingLength(n) {
      RingOrderAt(n, side, m);
    }
  }

  /** One step of Next moves one place along RingOrder, wrapping at the end. */
  lemma NextAlongRing(n: nat, side: Side, m: nat)
    requires n > 0 && m < RingLength(n)
    ensures OnRing(n, side, RingOrder(n, side)[m])
    ensures Next(n, side, RingOrder(n, side)[m])
            == RingOrder(n, side)[if m + 1 == RingLength(n) then 0 else m + 1]
  {
    RingIndexRoundTrip(n, side, 0, m);
    RingOrderAt(n, side, m);
    RingOrderAt(n, side, if m + 1 == RingLength(n) then 0 else m + 1);
  }

  /** Along its own regular pits a side's ring goes pit by pit, and from the last one into the
      side's store. */
  lemma NextOwnPit(n: nat, side: Side, k: nat)
    requires k < n
    ensures OnRing(n, side, PitPos(n, side, k)) && OwnRegular(n, side, PitPos(n, side, k))
    ensures Next(n, side, PitPos(n, side, k)) == if k + 1 < n then PitPos(n, side, k + 1) else StorePos(n, side)
  {
  }

  /** Walking a + b steps is walking a steps, then b more. */
  lemma {:induction false} WalkSplit(n: nat, side: Side, i: nat, a: nat, b: nat)
    requires n > 0 && OnRing(n, side, i)
    ensures Walk(n, side, i, a + b) == Walk(n, side, Walk(n, side, i, a), b)
    decreases a
  {
    if a > 0 {
      WalkSplit(n, side, Next(n, side, i), a - 1, b);
    }
  }

  /** Within one lap, walking k steps from the m-th ring pit reaches the (m + k)-th. */
  lemma {:induction false} WalkAlongRing(n: nat, side: Side, m: nat, k: nat)
    requires n > 0 && m + k < RingLength(n)
    ensures OnRing(n, side, RingOrder(n, side)[m])
    ensures Walk(n, side, RingOrder(n, side)[m], k) == RingOrder(n, side)[m + k]
    decreases k
  {
    NextAlongRing(n, side, m);
    if k > 0 {
      WalkAlongRing(n, side, m + 1, k - 1);
    }
  }

  /** Within one lap, walking d steps from the m-th ring pit reaches the (m + d)-th, counted
      round the ring. */
  lemma WalkRound(n: nat, side: Side, m: nat, d: nat)
    requires n > 0 && m < RingLength(n) && d < RingLength(n)
    ensures OnRing(n, side, RingOrder(n, side)[m])
    ensures Walk(n, side, RingOrder(n, side)[m], d)
            == RingOrder(n, side)[if m + d < RingLength(n) then m + d else m + d - RingLength(n)]
  {
    var len := RingLength(n);
    var y := RingOrder(n, side)[m];
    if m + d < len {
      WalkAlongRing(n, side, m, d);
    } else {
      // reach the end of the ring, step onto its start, then go on
      WalkAlongRing(n, side, m, len - 1 - m);
      NextAlongRing(n, side, len - 1);
      WalkSplit(n, side, y, len - 1 - m, 1);
      WalkAlongRing(n, side, 0, m + d - len);
      WalkSplit(n, side, y, len - m, m + d - len);
    }
  }

  /** A full lap of 2n+1 steps from any ring pit comes back to it. */
  lemma FullLap(n: nat, side: Side, m: nat)
    requires n > 0 && m < RingLength(n)
    ensures OnRing(n, side, RingOrder(n, side)[m])
    ensures Walk(n, side, RingOrder(n, side)[m], RingLength(n)) == RingOrder(n, side)[m]
  {
    var len := RingLength(n);
    var ring := RingOrder(n, side);
    WalkAlongRing(n, side, m, len - 1 - m);
    NextAlongRing(n, side, len - 1);
    WalkAlongRing(n, side, 0, m);
    WalkSplit(n, side, ring[m], len - 1 - m, 1);
    WalkSplit(n, side, ring[m], len - m, m);
  }

  /** Ring closure: from a player's first regular pit, 2n+1 steps visit the ring in reference
      order and come back to the start, no fewer steps do, and the walk never meets the
      other player's store. */
  lemma RingCloses(n: nat, side: Side, k: nat)
    requires n > 0
    ensures OnRing(n, side, PitPos(n, side, 0))
    ensures k < RingLength(n) ==> Walk(n, side, PitPos(n, side, 0), k) == RingOrder(n, side)[k]
    ensures Walk(n, side, PitPos(n, side, 0), RingLength(n)) == PitPos(n, side, 0)
    ensures 0 < k < RingLength(n) ==> Walk(n, side, PitPos(n, side, 0), k) != PitPos(n, side, 0)
    ensures Walk(n, side, PitPos(n, side, 0), k) != StorePos(n, Other(side))
  {
    RingOrderAt(n, side, 0);
    FullLap(n, side, 0);
    if k < RingLength(n) {
      WalkAlongRing(n, side, 0, k);
      RingIndexRoundTrip(n, side, 0, k);
      RingIndexRoundTrip(n, side, 0, 0);
    }
  }

  /** Following the ring repeats with period 2n+1 from any on-ring pit. */
  lemma WalkPeriod(n: nat, side: Side, i: nat, k: nat)
    requires n > 0 && OnRing(n, side, i)
    ensures Walk(n, side, i, k + RingLength(n)) == Walk(n, side, i, k)
  {
    RingIndexRoundTrip(n, side, i, 0);
    FullLap(n, side, RingIndex(n, side, i));
    WalkSplit(n, side, i, RingLength(n), k);
  }

  /** The mirror pairing is an involution between the two sides: the k-th pit of one side and
      the (n-1-k)-th pit of the other face each other. */
  lemma MirrorPairing(n: nat, side: Side, k: nat)
    requires k < n
    ensures OwnRegular(n, side, PitPos(n, side, k))
    ensures Opposite(n, PitPos(n, side, k)) == PitPos(n, Other(side), n - 1 - k)
    ensures OwnRegular(n, Other(side), Opposite(n, PitPos(n, side, k)))
    ensures Opposite(n, Opposite(n, PitPos(n, side, k))) == PitPos(n, side, k)
  {
  }
}
