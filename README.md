# Kalah game engine

A model of the game engine of a Kalah server. It covers the following parts:

- **The board.** Two players and the player to move. A turn counter. Each player owns a row of regular pits and a big pit, the store. Every pit links, for each player, to the pit that player sows into next. Every regular pit links to the pit across the board.
- **How the board is built.** `init` lays out the pits and links both sowing rings and the opposite pits.
- **How a turn works.** The move sows from a pit. A last stone in the player's own store gives an extra turn. A last stone in the player's own empty pit captures that pit and the pit across the board. When one side runs out of stones the game ends: the remaining stones are swept into their owner's store.
- **The end of the game.** The game-over test and the winner.
- **The random computer player.** It picks one of its non-empty pits at random.

## How it is modelled

The Java engine works by mutating objects, so the model is imperative where the engine is:

- `Pits.Pit` is a class whose fields are the stones, the per-player `next` map and the opposite pit.
- `Boards.Board` is a class with the players, the active player, the turn counter and the `firstPit`/`bigPit` maps.

Every loop of the engine is a `while` loop over those objects, following the links exactly as the engine does.

Each board method is proved against the rules, module `Rules`, which are written as functions on a sequence of stone counts:

- The layout of the counts is fixed in module `Ring`: the first player's regular pits, the first player's store, the second player's regular pits, the second player's store.
- Ghost state relates the board to the rules. `Cells` holds the pits in that layout, and `Abs()` is the board as a `Rules.Game`.
- `Board.Turn` is proved to perform exactly `Rules.Turn` on `Abs()`.
- The rules themselves are then proved to keep what the game promises: stones are conserved, no count goes negative, the extra-turn, capture and game-end rules hold, and so does the meaning of the winner.

Java's exceptions become results:

- `Outcome` is `Pass` or `Fail(error)`, and `Result<T>` is `Ok(value)` or `Err(error)`.
- The errors are `IllegalArgument`, `IndexOutOfBounds` and `NullPointer`.

`Random.nextInt` becomes a function parameter `nextInt` with `nextInt(bound) < bound`.

Some behaviour of the code that the model keeps as written:

- **Opposite pits.** `RegularPit.setOppositePit` sets one side only; `addOppRegPit` pairs both ways with two calls. Its stack holds all 2n regular pits met along the second player's links, not only n.
- **Sowing from an empty pit.** `sowStones` first picks the stones up, which zeroes the pit, and only then rejects a count of zero or less.
- **`init` on empty arrays.** `init` with two empty arrays first gives the first player a new, unlinked store, and only then fails with a null pointer (modelled as `Fail(NullPointer)`).
- **Failed turns.** `turn` raises the turn counter before anything can fail, so a rejected turn still counts.
- **Turns after the game ends.** With no active player, `getRegularPit` finds no pits and `turn` fails with an index out of bounds.

## Model

| member | source | states |
|---|---|---|
| Pits.Pit.Regular | src/main/java/pro/zavodnikov/kalah/game/pit/RegularPit.java:35-37 | a new regular pit holds the given stones and links to nothing |
| Pits.Pit.Big | src/main/java/pro/zavodnikov/kalah/game/Board.java:173-177 | a new store holds the given stones and links to nothing |
| Pits.Pit.AddOneStone | src/main/java/pro/zavodnikov/kalah/game/pit/Pit.java:40-43 | the pit holds one stone more |
| Pits.Pit.NextPit | src/main/java/pro/zavodnikov/kalah/game/pit/Pit.java:45-49 | the answer is null exactly when the player is null or has no link here, otherwise it is that player's link |
| Pits.Pit.SetNextPit | src/main/java/pro/zavodnikov/kalah/game/pit/Pit.java:51-55 | the player's link is replaced and every other player's link stays |
| Pits.Pit.PickupStones | src/main/java/pro/zavodnikov/kalah/game/pit/RegularPit.java:39-46 | answers the stones held and leaves the pit empty |
| Pits.Pit.AddStones | src/main/java/pro/zavodnikov/kalah/game/Board.java:308-318 | the store gains exactly the stones given |
| Pits.Pit.SetOppositePit | src/main/java/pro/zavodnikov/kalah/game/pit/RegularPit.java:55-60 | sets this pit's opposite only; the other pit is not touched |
| Pits.ChainOfThree | src/test/java/pro/zavodnikov/kalah/game/pit/PitTest.java:80-102 | links for two players on the same pits stay independent: a three-pit cycle for one player, a two-pit cycle for the other |
| Ring.Next | src/main/java/pro/zavodnikov/kalah/game/Board.java:179-193 | a step along a player's ring stays on that ring, which skips the other player's store |
| Ring.RingOrderAt | src/main/java/pro/zavodnikov/kalah/game/Board.java:179-193 | the reference ring order is the own pits, then the own store, then the opponent's pits |
| Ring.RingIndexRoundTrip | src/main/java/pro/zavodnikov/kalah/game/Board.java:179-193 | ring order and ring index are inverse: each on-ring pit occurs exactly once |
| Ring.NextAlongRing | src/main/java/pro/zavodnikov/kalah/game/Board.java:179-193 | one step moves one place along the reference order, wrapping after the last pit |
| Ring.NextOwnPit | src/main/java/pro/zavodnikov/kalah/game/Board.java:159-171 | along the own row the ring goes pit by pit, and from the last pit into the own store |
| Ring.WalkSplit | src/main/java/pro/zavodnikov/kalah/game/Board.java:294-306 | walking a+b steps is walking a steps then b steps |
| Ring.WalkAlongRing | src/main/java/pro/zavodnikov/kalah/game/Board.java:294-306 | within one lap, k steps from the m-th ring pit reach the (m+k)-th |
| Ring.WalkRound | src/main/java/pro/zavodnikov/kalah/game/Board.java:294-306 | within one lap, d steps reach the ring pit d places on, counted modulo the ring length |
| Ring.FullLap | src/main/java/pro/zavodnikov/kalah/game/Board.java:294-306 | 2n+1 steps from any ring pit return to it |
| Ring.RingCloses | src/main/java/pro/zavodnikov/kalah/game/Board.java:179-193 | from a player's first pit the walk visits the ring in reference order, returns after 2n+1 steps and earlier never does, and never meets the other player's store |
| Ring.WalkPeriod | src/main/java/pro/zavodnikov/kalah/game/Board.java:294-306 | walks repeat with period 2n+1 |
| Ring.MirrorPairing | src/main/java/pro/zavodnikov/kalah/game/Board.java:195-210 | the k-th pit of one side faces the (n-1-k)-th of the other; the pairing is an involution between the two sides |
| Ring.Opposite | src/main/java/pro/zavodnikov/kalah/game/Board.java:195-210 | the pit facing a regular pit is a regular pit of the other side |
| Rules.SideEmpty | src/main/java/pro/zavodnikov/kalah/game/Board.java:111-120 | the reference for `isEmptyPits`: no regular pit of the side holds a positive count; a board without pits counts as empty |
| Rules.GameOver | src/main/java/pro/zavodnikov/kalah/game/Board.java:125-133 | the reference for `isGameOver`: either side is empty; a board without pits is over |
| Rules.Sow | src/main/java/pro/zavodnikov/kalah/game/Board.java:300-305 | the reference for the sowing loop: one stone into each of the s pits after the start along the side's ring, the board size kept; its effect is stated by `SowAddsVisits`, `SowOneLap` and `SowTotal` |
| Rules.SweepFrom | src/main/java/pro/zavodnikov/kalah/game/Board.java:311-317 | the reference for the loop of `collectPitsToBigPit` from the k-th pit on, the board size kept; its effect is stated by `SweepFromStore` and `SweepFromPit` |
| Rules.Sweep | src/main/java/pro/zavodnikov/kalah/game/Board.java:308-318 | the reference for `collectPitsToBigPit`, the board size kept; its effect is stated by `SweepEffect` and `SweepSides` |
| Rules.Finish | src/main/java/pro/zavodnikov/kalah/game/Board.java:320-323 | the reference for `finishGame`'s sweep of the side that still has stones, the board size kept; its effect is stated by `FinishEffect` |
| Rules.Capture | src/main/java/pro/zavodnikov/kalah/game/Board.java:325-329 | the reference for `collectStones`, the board size kept; its effect is stated by `CaptureEffect` and `CaptureTotal` |
| Rules.AfterSowing | src/main/java/pro/zavodnikov/kalah/game/Board.java:341-360 | the reference for the tail of `turn`: the end check, the extra turn, the capture, the switch; the size and the counter are kept |
| Rules.AfterCapture | src/main/java/pro/zavodnikov/kalah/game/Board.java:354-360 | the reference for the second end check of `turn` and the switch; the size and the counter are kept |
| Rules.Winner | src/main/java/pro/zavodnikov/kalah/game/Board.java:139-157 | the reference for `getWinner`: a winner only on a board with pits whose game is over; the full meaning is `WinnerMeaning` |
| Rules.Regulars | src/main/java/pro/zavodnikov/kalah/game/Board.java:248-256 | one side's regular-pit counts in sowing order, n of them, entry k being the side's k-th pit |
| Rules.SowOneMore | src/main/java/pro/zavodnikov/kalah/game/Board.java:300-303 | one more stone goes to the pit one step past the last pit sown into |
| Rules.SowAddsVisits | src/main/java/pro/zavodnikov/kalah/game/Board.java:300-303 | sowing adds to every pit exactly the number of steps that end on it |
| Rules.VisitsOffRing | src/main/java/pro/zavodnikov/kalah/game/Board.java:300-303 | the other player's store is never sown into |
| Rules.VisitsWithinLap | src/main/java/pro/zavodnikov/kalah/game/Board.java:300-303 | with at most 2n+1 stones, each pit reached gets exactly one stone and the others none |
| Rules.FullLapVisits | src/main/java/pro/zavodnikov/kalah/game/Board.java:300-303 | a full lap gives every ring pit exactly one stone |
| Rules.ExtraLapVisits | src/main/java/pro/zavodnikov/kalah/game/Board.java:300-303 | every further lap of 2n+1 stones adds one more stone to every ring pit |
| Rules.SowOneLap | src/main/java/pro/zavodnikov/kalah/game/Board.java:294-306 | within one lap, sowing adds one stone to each pit reached and leaves every other pit alone |
| Rules.SowTotal | src/main/java/pro/zavodnikov/kalah/game/Board.java:294-306 | sowing s stones adds exactly s stones to the board |
| Rules.SowSkipsOtherStore | src/main/java/pro/zavodnikov/kalah/game/Board.java:294-306 | the other player's store keeps its count |
| Rules.SowKeepsNonNegative | src/main/java/pro/zavodnikov/kalah/game/Board.java:294-306 | sowing never makes a count negative |
| Rules.MoveTotal | src/main/java/pro/zavodnikov/kalah/game/Board.java:308-318 | moving a pit's stones into a store keeps the total |
| Rules.SweepFromStore | src/main/java/pro/zavodnikov/kalah/game/Board.java:308-318 | the store gains the sum of the side's positive pits |
| Rules.SweepFromPit | src/main/java/pro/zavodnikov/kalah/game/Board.java:308-318 | the side's positive pits are emptied and every other pit keeps its count |
| Rules.SweepEffect | src/main/java/pro/zavodnikov/kalah/game/Board.java:308-318 | a sweep empties the side's positive pits into the side's store and changes nothing else |
| Rules.SweepFromTotal | src/main/java/pro/zavodnikov/kalah/game/Board.java:308-318 | a sweep keeps the total |
| Rules.SweepSides | src/main/java/pro/zavodnikov/kalah/game/Board.java:308-318 | after a sweep the side has no positive pit and the other side's pits are unchanged |
| Rules.SweepKeepsNonNegative | src/main/java/pro/zavodnikov/kalah/game/Board.java:308-318 | a sweep never makes a count negative |
| Rules.FinishEffect | src/main/java/pro/zavodnikov/kalah/game/Board.java:320-323 | at game over, after the end-of-game sweep neither side has a positive pit; the side already empty is untouched; the total is kept |
| Rules.CaptureEffect | src/main/java/pro/zavodnikov/kalah/game/Board.java:325-329 | the capturing pit and its opposite end empty and the own store gains both their stones; nothing else changes |
| Rules.CaptureTotal | src/main/java/pro/zavodnikov/kalah/game/Board.java:325-329 | a capture keeps the total |
| Rules.LastPit | src/main/java/pro/zavodnikov/kalah/game/Board.java:294-306 | the last stone of a move lands on the mover's ring |
| Rules.Turn | src/main/java/pro/zavodnikov/kalah/game/Board.java:336-361 | a turn keeps the board size and raises the counter by one, whatever the outcome |
| Rules.PlayTurn | src/main/java/pro/zavodnikov/kalah/game/Board.java:339-360 | after the counter has risen, the move leaves the board size and the counter alone |
| Rules.Ended | src/main/java/pro/zavodnikov/kalah/game/Board.java:320-323 | the end of the game leaves nobody to move |
| Rules.TurnConserves | src/main/java/pro/zavodnikov/kalah/game/Board.java:336-361 | a carried-out turn keeps the total number of stones; so does a rejected turn on a non-negative board |
| Rules.TurnKeepsNonNegative | src/main/java/pro/zavodnikov/kalah/game/Board.java:336-361 | no turn makes a count negative |
| Rules.RejectedTurn | src/main/java/pro/zavodnikov/kalah/game/Board.java:336-361 | IndexOutOfBounds exactly when nobody moves or the index is out of range; IllegalArgument exactly when the pit holds no stones; a turn fails exactly when the move is not legal; a rejected turn leaves the player, and on a non-negative board the counts, as they were |
| Rules.TurnEndsExactlyWhenOver | src/main/java/pro/zavodnikov/kalah/game/Board.java:341-358 | a legal turn passes; it ends the game exactly when the resulting board is over, and then neither side has stones in its regular pits |
| Rules.ExtraTurn | src/main/java/pro/zavodnikov/kalah/game/Board.java:346-348 | a last stone in a store is in the mover's own store; the mover moves again exactly when the last stone fell there and the game goes on; the board is then as sown |
| Rules.GameEndPrecedesExtraTurn | src/main/java/pro/zavodnikov/kalah/game/Board.java:341-348 | a last stone in the own store that ends the game ends it, with the sweep, rather than giving another turn |
| Rules.CaptureRule | src/main/java/pro/zavodnikov/kalah/game/Board.java:350-358 | a last stone in an own pit that was empty captures that stone and the opposite pit's stones into the own store, and the other player moves |
| Rules.SwitchRule | src/main/java/pro/zavodnikov/kalah/game/Board.java:360 | with no store, no capture and no game end, the other player moves on the sown board |
| Rules.WinnerMeaning | src/main/java/pro/zavodnikov/kalah/game/Board.java:139-157 | a side wins exactly when the game is over and its store holds strictly more; no winner exactly otherwise |
| Rules.Layout | src/main/java/pro/zavodnikov/kalah/game/Board.java:222-236 | the counts `init` lays out: each side's pits in order, then its store |
| Rules.Filled | src/main/java/pro/zavodnikov/kalah/game/Board.java:242-246 | k counts of v each, as `Arrays.fill` leaves them |
| Rules.Play | src/main/java/pro/zavodnikov/kalah/game/Board.java:336-361 | a run of turns raises the counter by the number of calls, rejected ones included |
| Rules.StoresHoldAll | src/main/java/pro/zavodnikov/kalah/game/Board.java:139-157 | when every regular pit is empty, the two stores hold all the stones |
| Rules.DefaultTotal | src/main/java/pro/zavodnikov/kalah/game/Board.java:242-246 | the default board holds 72 stones |
| Rules.DefaultConsistent | src/main/java/pro/zavodnikov/kalah/game/Board.java:242-246 | the default board is a consistent game |
| Rules.TurnKeepsConsistent | src/main/java/pro/zavodnikov/kalah/game/Board.java:336-361 | a turn keeps the game consistent: 72 stones, none negative, an ended game empty |
| Rules.PlayKeepsConsistent | src/main/java/pro/zavodnikov/kalah/game/Board.java:336-361 | any run of turns keeps the game consistent |
| Rules.LayoutNonNegative | src/main/java/pro/zavodnikov/kalah/game/Board.java:222-236 | laying out non-negative stones gives no negative count |
| Rules.ConsistentTotals | src/main/java/pro/zavodnikov/kalah/game/Board.java:139-157 | a consistent game holds 72 stones, none negative; once ended, the stores hold all 72 |
| Rules.DefaultGameConserves | src/main/java/pro/zavodnikov/kalah/game/Board.java:242-246 | any sequence of turns from the default board keeps all 72 stones and no negative count, and an ended game has them all in the stores |
| Links.NoStonesAlong | src/main/java/pro/zavodnikov/kalah/game/Board.java:111-120 | following the player's links over the own pits finds "no stones" exactly when the side has no positive pit |
| Links.PitsAlong | src/main/java/pro/zavodnikov/kalah/game/Board.java:248-256 | following the player's links collects exactly the side's regular pits, in order |
| Links.TakeUp | src/main/java/pro/zavodnikov/kalah/game/Board.java:296 | the pit sown from is emptied and its stones are answered |
| Links.DropStones | src/main/java/pro/zavodnikov/kalah/game/Board.java:300-305 | the loop of sowing leaves the board as the rules' sowing and stops on the pit the walk reaches |
| Links.AddOne | src/main/java/pro/zavodnikov/kalah/game/Board.java:302 | only the pit sown into gains a stone |
| Links.SweepPits | src/main/java/pro/zavodnikov/kalah/game/Board.java:308-318 | the loop of collecting pits leaves the board as the rules' sweep |
| Links.SweepStep | src/main/java/pro/zavodnikov/kalah/game/Board.java:312-316 | one pass of that loop moves a positive pit into the store and steps to the next pit, or to the store after the last pit |
| Links.Pour | src/main/java/pro/zavodnikov/kalah/game/Board.java:314 | one pit's stones move to the store |
| Links.RingOwn | src/main/java/pro/zavodnikov/kalah/game/Board.java:179-193 | a linked ring links the side's own pits pit by pit |
| Links.Joined | src/main/java/pro/zavodnikov/kalah/game/Board.java:222-236 | the two rows and two stores `init` makes form a layout of distinct pits with the stores at the store positions, holding the laid-out stones |
| Links.LaidLinks | src/main/java/pro/zavodnikov/kalah/game/Board.java:159-177 | after the rows and stores are made, each regular pit links for its owner to the pit after it and the stores link nowhere |
| Links.LaidStones | src/main/java/pro/zavodnikov/kalah/game/Board.java:222-236 | the same layout holds `Layout`'s stones and has stores exactly at the store positions |
| Links.LinkRings | src/main/java/pro/zavodnikov/kalah/game/Board.java:179-193 | both rounds of `addNxtPit` link each player's whole sowing ring as `Ring.Next` says |
| Links.SecondRound | src/main/java/pro/zavodnikov/kalah/game/Board.java:179-193 | the second player's round completes both rings |
| Links.FirstRing | src/main/java/pro/zavodnikov/kalah/game/Board.java:179-193 | after both rounds the first player's links follow the first player's ring |
| Links.SecondRing | src/main/java/pro/zavodnikov/kalah/game/Board.java:179-193 | after both rounds the second player's links follow the second player's ring |
| Links.LinkedBy | src/main/java/pro/zavodnikov/kalah/game/Board.java:179-193 | links that follow `Ring.Next` on the whole ring make it linked |
| Links.LinkAcross | src/main/java/pro/zavodnikov/kalah/game/Board.java:180-192 | one player's round links the store to the opponent's first pit and the opponent's pits onward to the own first pit; no other link changes |
| Links.LinkAlong | src/main/java/pro/zavodnikov/kalah/game/Board.java:184-189 | the inner loop relinks the opponent's pits pit by pit and stops at the last one |
| Links.CrossingLinks | src/main/java/pro/zavodnikov/kalah/game/Board.java:183-191 | the links a round leaves are `Ring.Next` on the positions it crosses and the old links elsewhere |
| Links.Relink | src/main/java/pro/zavodnikov/kalah/game/pit/Pit.java:51-55 | `setNextPit` on one pit of the board changes no other pit's links |
| Links.StackAlong | src/main/java/pro/zavodnikov/kalah/game/Board.java:196-201 | the first loop of `addOppRegPit` stacks all 2n regular pits met along the second player's links |
| Links.PairOff | src/main/java/pro/zavodnikov/kalah/game/Board.java:202-209 | the second loop pairs every regular pit with its mirror pit across the board |
| Links.Pair | src/main/java/pro/zavodnikov/kalah/game/Board.java:206-207 | two `setOppositePit` calls pair two pits both ways and change no other opposite |
| Boards.Board.constructor | src/main/java/pro/zavodnikov/kalah/game/Board.java:66-80 | a new board has no pits, the start player to move and the counter at 0 |
| Boards.Board.Create | src/main/java/pro/zavodnikov/kalah/game/Board.java:66-80 | IllegalArgument exactly when a player is null, the players are equal, or the start player is neither; otherwise a new valid board |
| Boards.Board.AddRegPits | src/main/java/pro/zavodnikov/kalah/game/Board.java:159-171 | new distinct regular pits holding the sizes in order, each linked for the player to the next; the first becomes the player's first pit; the last is answered |
| Links.Extend | src/main/java/pro/zavodnikov/kalah/game/Board.java:162-168 | one pass of the `addRegPits` loop after the first pit: a new regular pit holding the size is linked after the row's last pit, and the row stays distinct and chained |
| Boards.Board.AddBigPit | src/main/java/pro/zavodnikov/kalah/game/Board.java:173-177 | a new store becomes the player's store; the last regular pit links to it, and a missing last pit gives NullPointer after the store is set |
| Boards.Board.CapRow | src/main/java/pro/zavodnikov/kalah/game/Board.java:173-177 | the row ends in the new store, or NullPointer for an empty row |
| Boards.Board.AddRows | src/main/java/pro/zavodnikov/kalah/game/Board.java:227-231 | the four building calls of `init`: two new distinct chained rows and stores, or NullPointer for empty rows after the first store is set |
| Boards.Board.Populate | src/main/java/pro/zavodnikov/kalah/game/Board.java:227-231 | the new pits form a layout of distinct pits holding the laid-out stones |
| Boards.Board.Assemble | src/main/java/pro/zavodnikov/kalah/game/Board.java:233-235 | the new pits become the board's, fully linked and holding the given counts; player and counter stay |
| Boards.Board.Link | src/main/java/pro/zavodnikov/kalah/game/Board.java:233-235 | `addNxtPit` then `addOppRegPit` put laid-out pits in shape without moving a stone |
| Boards.Board.AddNxtPit | src/main/java/pro/zavodnikov/kalah/game/Board.java:179-193 | each player's links follow that player's whole ring; no stone moves |
| Boards.Board.AddOppRegPit | src/main/java/pro/zavodnikov/kalah/game/Board.java:195-210 | every regular pit is paired with its mirror pit, so the board is in shape; no stone moves |
| Boards.Board.Init | src/main/java/pro/zavodnikov/kalah/game/Board.java:222-236 | unequal lengths fail with IllegalArgument and change nothing; empty rows fail with NullPointer after the first store is set; otherwise a valid board of new pits holding `Layout`'s stones, with the same player and counter |
| Boards.Board.InitDefault | src/main/java/pro/zavodnikov/kalah/game/Board.java:242-246 | six pits of six stones per side and empty stores; from a new board this is the rules' default game |
| Boards.Board.NextPlayer | src/main/java/pro/zavodnikov/kalah/game/Board.java:105-109 | the other side moves, and nobody still moves once the game has ended; no stone moves |
| Boards.Board.IsEmptyPits | src/main/java/pro/zavodnikov/kalah/game/Board.java:111-120 | true exactly when there are no pits or the player's side has no positive regular pit |
| Boards.Board.IsGameOver | src/main/java/pro/zavodnikov/kalah/game/Board.java:125-133 | true exactly when the rules' game-over holds |
| Boards.Board.GetWinner | src/main/java/pro/zavodnikov/kalah/game/Board.java:139-157 | the rules' winner, as a player, or null for none |
| Boards.Board.GetRegularPitsOf | src/main/java/pro/zavodnikov/kalah/game/Board.java:248-256 | a null player or a board without pits gives no pits; otherwise exactly the side's regular pits in sowing order |
| Boards.Board.RegularCountsOf | src/main/java/pro/zavodnikov/kalah/game/Board.java:248-256 | the player's counts in the regular-pit snapshot |
| Boards.Board.RegularSnapshot | src/main/java/pro/zavodnikov/kalah/game/Board.java:261-267 | the snapshot has an entry for each player with pits, their regular-pit counts in sowing order |
| Boards.Board.GetRegularPits | src/main/java/pro/zavodnikov/kalah/game/Board.java:261-267 | the loop over the players builds exactly the snapshot |
| Boards.Board.GetBigPits | src/main/java/pro/zavodnikov/kalah/game/Board.java:272-278 | no entries without pits; otherwise each player's store count |
| Boards.Board.GetRegularPit | src/main/java/pro/zavodnikov/kalah/game/Board.java:284-286 | IndexOutOfBounds when nobody moves or the index is out of range; otherwise the mover's pit at that index |
| Boards.Board.SowStones | src/main/java/pro/zavodnikov/kalah/game/Board.java:294-306 | a bad index fails with IndexOutOfBounds and changes nothing; an empty pit is picked up and fails with IllegalArgument; otherwise the board is the rules' sowing and the last pit is answered |
| Boards.Board.SowFrom | src/main/java/pro/zavodnikov/kalah/game/Board.java:296-305 | the pit is emptied, then its stones are sown along the ring, or IllegalArgument for none |
| Boards.Board.RingLinks | src/main/java/pro/zavodnikov/kalah/game/Board.java:179-193 | on a valid board each pit links, for each side's player, to the pit `Ring.Next` names |
| Boards.Board.CollectPitsToBigPit | src/main/java/pro/zavodnikov/kalah/game/Board.java:308-318 | the board after collecting is the rules' sweep of the player's side |
| Boards.Board.FinishGame | src/main/java/pro/zavodnikov/kalah/game/Board.java:320-323 | the board is the rules' finish and nobody moves |
| Boards.Board.CollectStones | src/main/java/pro/zavodnikov/kalah/game/Board.java:325-329 | the board after collecting is the rules' capture at the pit |
| Boards.Board.Turn | src/main/java/pro/zavodnikov/kalah/game/Board.java:336-361 | the board after `turn` and its outcome are exactly `Rules.Turn` of the board before; the board stays valid |
| Boards.Board.PlayTurn | src/main/java/pro/zavodnikov/kalah/game/Board.java:339-360 | the move after the counter has risen is exactly `Rules.PlayTurn` |
| Boards.Board.Settle | src/main/java/pro/zavodnikov/kalah/game/Board.java:341-360 | the rest of the turn after sowing is the rules' `AfterSowing` |
| Boards.Board.Resolve | src/main/java/pro/zavodnikov/kalah/game/Board.java:346-360 | with the game going on, the extra turn, the capture or the switch, as the rules say |
| Boards.Board.ResolveRegular | src/main/java/pro/zavodnikov/kalah/game/Board.java:350-360 | a last stone in a regular pit: the capture when it is the mover's own pit now holding one stone, else the switch |
| Boards.Board.Captures | src/main/java/pro/zavodnikov/kalah/game/Board.java:350-351 | the capture test holds exactly when the last pit is one of the mover's regular pits and holds one stone |
| Boards.Board.CaptureTest | src/main/java/pro/zavodnikov/kalah/game/Board.java:350-351 | membership among the side's pits with one stone is the rules' capture condition |
| Boards.Board.InOwnPits | src/main/java/pro/zavodnikov/kalah/game/Board.java:350 | a pit is among the side's regular pits exactly when its position is one of the side's |
| Boards.Board.CaptureThenSwitch | src/main/java/pro/zavodnikov/kalah/game/Board.java:352-360 | the capture, then the second end-of-game check or the switch |
| Boards.Board.SwitchUnlessOver | src/main/java/pro/zavodnikov/kalah/game/Board.java:354-360 | the game ends if either side is empty, otherwise the other player moves |
| Boards.Board.EndIfOver | src/main/java/pro/zavodnikov/kalah/game/Board.java:341-344 | the game ends, with the finishing sweep, exactly when either side is empty; otherwise nothing changes |
| Boards.Board.CaptureAt | src/main/java/pro/zavodnikov/kalah/game/Board.java:352 | the board after the capture step is the rules' capture |
| RandomPlayers.Candidates | src/main/java/pro/zavodnikov/kalah/player/RandomPlayer.java:55-60 | no more candidates than pits |
| RandomPlayers.CandidatesExact | src/main/java/pro/zavodnikov/kalah/player/RandomPlayer.java:55-60 | an index is a candidate exactly when it names a pit holding stones |
| RandomPlayers.CandidatesAscending | src/main/java/pro/zavodnikov/kalah/player/RandomPlayer.java:55-60 | candidates are collected in strictly ascending order, each once |
| RandomPlayers.CandidatesReach | src/main/java/pro/zavodnikov/kalah/player/RandomPlayer.java:55-64 | every pit holding stones is the choice of some draw |
| RandomPlayers.NonEmptyIndices | src/main/java/pro/zavodnikov/kalah/player/RandomPlayer.java:55-60 | the loop collects exactly the candidates |
| RandomPlayers.NextTurnPitNum | src/main/java/pro/zavodnikov/kalah/player/RandomPlayer.java:53-66 | fails only with NullPointer or IllegalArgument; NullPointer exactly when nobody moves or the mover has no pits; IllegalArgument exactly when none of the mover's pits holds stones; so it succeeds exactly when a pit holds stones, and then answers the drawn candidate, an index of a pit holding stones |
| RandomPlayers.CandidateLegal | src/main/java/pro/zavodnikov/kalah/player/RandomPlayer.java:53-66 | every candidate is a move the rules accept |
| RandomPlayers.SnapshotLegal | src/main/java/pro/zavodnikov/kalah/player/RandomPlayer.java:53-66 | a non-empty pit of the mover's snapshot is a move the board's `turn` accepts |
| Scenarios.TurnEndsOnNonEmptyRegularPit | src/test/java/pro/zavodnikov/kalah/game/BoardTest.java:113-151 | three turns on [1,2] 3 / [4,5] 6, each ending in a non-empty pit: the counts, the player to move and the counter after each |
| Scenarios.FirstSowsIntoOwnPit | src/test/java/pro/zavodnikov/kalah/game/BoardTest.java:122-130 | the first of those turns |
| Scenarios.SecondSowsAcrossStore | src/test/java/pro/zavodnikov/kalah/game/BoardTest.java:132-140 | the second, sowing past the own store into the opponent's pits |
| Scenarios.FirstSowsIntoOpponentPits | src/test/java/pro/zavodnikov/kalah/game/BoardTest.java:142-150 | the third, with no winner yet |
| Scenarios.TurnEndsOnEmptyRegularPit | src/test/java/pro/zavodnikov/kalah/game/BoardTest.java:154-172 | a last stone in the own empty pit captures the opposite pit |
| Scenarios.TurnEndsOnEmptyOppositeRegularPit | src/test/java/pro/zavodnikov/kalah/game/BoardTest.java:175-196 | a last stone in the opponent's empty pit captures nothing and the opponent moves |
| Scenarios.TurnGameOverOnEmptyRegularPit | src/test/java/pro/zavodnikov/kalah/game/BoardTest.java:199-219 | a capture that empties the mover's side ends the game; the opponent's stones are swept and the opponent wins |
| Scenarios.FinishAfterCapture | src/test/java/pro/zavodnikov/kalah/game/BoardTest.java:199-219 | the sweep that ends that game |
| Scenarios.SecondWinsAfterCapture | src/test/java/pro/zavodnikov/kalah/game/BoardTest.java:199-219 | the second player wins that game |
| Scenarios.CaptureSwitches | src/main/java/pro/zavodnikov/kalah/game/Board.java:350-360 | a captured last stone that leaves the game going hands the move over on the captured board |
| Scenarios.CaptureEndsGame | src/main/java/pro/zavodnikov/kalah/game/Board.java:350-358 | a captured last stone that empties a side ends the game on the swept board |
| Scenarios.TurnEndsOnBigPit | src/test/java/pro/zavodnikov/kalah/game/BoardTest.java:222-243 | a last stone in the own store: the same player moves again |
| Scenarios.TurnOnEmptyPit | src/test/java/pro/zavodnikov/kalah/game/BoardTest.java:246-257 | moving from an empty pit fails with IllegalArgument and the counter has still risen |
| Scenarios.LastTurn | src/test/java/pro/zavodnikov/kalah/game/BoardTest.java:260-281 | the mover empties their side: the game ends and the opponent wins |
| Scenarios.LastTurnNoWinner | src/test/java/pro/zavodnikov/kalah/game/BoardTest.java:284-305 | the same ending level: no winner |
| Scenarios.StoreLandingEndsGame | src/main/java/pro/zavodnikov/kalah/game/Board.java:341-348 | a last stone in the own store that empties the side ends the game instead of granting another turn |
| Scenarios.GameOverAndWinner | src/test/java/pro/zavodnikov/kalah/game/BoardTest.java:95-110 | game over and winner on boards set up directly, and on a board without pits |
| Scenarios.TurnAfterGameOver | src/main/java/pro/zavodnikov/kalah/game/Board.java:284-286 | once the game has ended every turn fails with IndexOutOfBounds, and the counter still rises |

## Left out

- Boards.Board.Init: the board left by the `Fail(NullPointer)` case (two empty arrays) is not modelled further. Its first player then has a new store that no pit links to, so the board invariant fails and no later call is modelled on it. In Java such a board goes on: `getWinner` and `getBigPits` read the new store (or find no store for the second player), while sowing on a board that already had pits still feeds the old store through the links.
- AbstractPit.java and BigPit.java are not part of this model. `Pit.Big` and `Pit.AddStones` follow their use in Board.java: a store is built with its stones, and `addStones(k)` adds k.
- Iteration order of Java's `HashMap`: `addNxtPit` and the two snapshot methods loop over the players' map. The model takes the first player, then the second, for `addNxtPit`. The snapshots are maps, so order does not matter there.
- `java.util.Random`: it is the `nextInt` parameter of `RandomPlayers.NextTurnPitNum`. The seeded expectations of `testGame` and `testNextTurnPitNum` depend on Java's generator and are not stated.
- Player.java and Entity.java are not part of this model beyond what Board.java uses of them. Player identity: players are objects with an `id` string, compared by id where the Java code calls `Objects.equals` and by reference where it uses `==`. UUID generation and the rest of `Entity` are not modelled.
- Null arrays passed to `init`, and a null player passed to `isEmptyPits`, `collectPitsToBigPit` or `turn`'s internals, are not modelled; the arguments are Dafny sequences and non-null players. A null active player is modelled.
- Re-initialising a board is modelled with new pits; the old pits simply stop being reachable, as in Java.
- `toString` and `playerString`, `getPlayers`, `getActivePlayer` and `getTurnNum` are plain field reads or text formatting; the fields are read directly.
- `getOppositePit` is a field read; the model reads `opposite` directly.
- 32-bit `int` overflow: stone counts and the turn counter are unbounded integers. Games from the default board keep 72 stones, far from the limit.
- Concurrency, the REST controllers, storage, security and the JavaScript pages are outside the game engine.
