# Towers of Hanoi, WizCoin and Blackjack in Dafny

This project models three small programs and proves properties of each model.

- **Towers of Hanoi** (`hanoi.dfy`, module `Hanoi`). This is a console game.
  - Its state maps each pole letter to a stack of numbered blocks. The first block is the bottom one; the last is the top.
  - The game lists every ordered pair of distinct poles as a move. It accepts a move only if the origin is not empty and the block moved is no larger than the destination's top block. An accepted move pops from the origin and appends to the destination.
  - The game is won when a pole other than `A` holds every block.
  - The state is drawn into a grid of fixed-width strings.
  - The program's module-level globals appear as the fields of the class `Hanoi.Game`: the grid, `string_length`, `letter_to_blocks` and `possible_moves`. Its functions that change state are the class's methods. The pure helpers `get_letter_from_index`, `get_block_string` and `create_letter_string` are the module functions `Letter`, `BlockString` and `LetterString`, and `calculate_string_length` is the constructor's assignment to `stringLength`.
  - Each method is proved against specification functions on values: `Moved`, `ValidMove`, `PossibleMoves`, `FilterValid`, `HasWon` and `Cell`. The lemmas prove the program's properties from these functions. The main ones are:
    - the descending-stack invariant;
    - conservation of the blocks;
    - the exact move list;
    - uniform cell widths.
  - The number of blocks N and of poles T are parameters, with N ≥ 1 and 1 ≤ T ≤ 26. The program fixes them at 5 and 3.
- **WizCoin** (`wizcoin.dfy`, module `WizCoins`). This is a value object made of three integer counts: galleons, sickles and knuts.
  - The operators `+`, `*`, `==`, `!=`, `str()` and `repr()`, and the `total` property, are functions on the datatype `Coin`.
  - The checked attribute setters are methods of the class `WizCoin`. A setter given an int stores it. Given anything else, it raises `WizCoinException` and leaves the field as it was.
  - `PyValue` stands for the values a Python caller can pass. It separates an int, a WizCoin and any other class.
- **Blackjack** (`blackjack.dfy`, module `Blackjack`). This covers the deterministic parts of the card game:
  - the 52-card deck, built as the product of 13 ranks and 4 suits;
  - `draw(n)`, which pops from the end of the deck list;
  - `hand_value`, which sums each card's rank value from the rank table.

  `random.shuffle` is modelled as a sequence of swaps that the caller supplies.
- **Shared pieces** (`common.dfy`, module `Common`):
  - a result-or-exception datatype;
  - string repetition, Python's `c * k`;
  - Python's `str()` of an integer, with the fact that distinct integers print differently.

## Model

| member | source | states |
|---|---|---|
| Hanoi.Letter | TowersOfHanoi/tower.py:52-53 | pole i is an upper-case letter, and `IndexOf` maps it back to i |
| Hanoi.MovesFromLength | TowersOfHanoi/tower.py:26-28 | one pass of the inner loop adds one move per destination other than the origin |
| Hanoi.MovesFromExactly | TowersOfHanoi/tower.py:26-28 | a move is added by that pass iff it goes from the origin to a different destination among those scanned |
| Hanoi.MovesBelowLength | TowersOfHanoi/tower.py:25-28 | after s passes of the outer loop over t poles the list has s × (t − 1) moves |
| Hanoi.MovesBelowExactly | TowersOfHanoi/tower.py:25-28 | after s passes a move is listed iff its origin is among the first s poles and its destination is a different pole |
| Hanoi.PossibleMovesExactly | TowersOfHanoi/tower.py:22-28 | the move list for T poles has T×(T−1) entries, and a string is in it iff it is two distinct letters among the first T poles (so it never holds a move like "AA") |
| Hanoi.Game.FindPossibleMoves | TowersOfHanoi/tower.py:22-28 | the nested loops leave `possibleMoves` equal to the list of moves from each origin, in pole order, to every other pole |
| Hanoi.CountDown | TowersOfHanoi/tower.py:49 | `list(range(n, 0, -1))` has length n |
| Hanoi.CountDownAt | TowersOfHanoi/tower.py:49 | position k of `list(range(n, 0, -1))` holds n − k |
| Hanoi.Game.CreateLettersAndBlocks | TowersOfHanoi/tower.py:43-49 | afterwards the keys are exactly the first T letters, pole A holds N, N−1, …, 1, and every other pole is empty |
| Hanoi.InitialIsSound | TowersOfHanoi/tower.py:43-49 | the initial state has every pole strictly descending, and the blocks of all poles together are exactly {1..N} |
| Hanoi.Game.InitializeGrid | TowersOfHanoi/tower.py:36-40 | a fresh grid of N+2 rows by T columns with "." in every cell |
| Hanoi.Game.constructor | TowersOfHanoi/tower.py:15-19 | `initialize_game` leaves the grid at N+2 by T, `stringLength` at 2N+2, the initial poles, and the full move list |
| Hanoi.Game.CheckIfMoveIsValid | TowersOfHanoi/tower.py:123-136 | the answer is `ValidMove`: false if the move is not listed, false if the origin is empty, true if the destination is empty, and otherwise true iff origin top ≤ destination top |
| Hanoi.Moved | TowersOfHanoi/tower.py:139-143 | the origin loses its last block, the destination gains that block at its end, every other pole is unchanged, the keys are unchanged, and a move from a pole to itself changes nothing |
| Hanoi.Game.MakeMove | TowersOfHanoi/tower.py:139-143 | the new `letterToBlocks` is `Moved` of the old one; a sound state stays sound after a move that passed the rule |
| Hanoi.MoveConserves | TowersOfHanoi/tower.py:139-143 | a move between two poles leaves the multiset of all blocks unchanged |
| Hanoi.PopBag | TowersOfHanoi/tower.py:142 | popping the origin's top block removes exactly that block from the blocks of all poles |
| Hanoi.PushBag | TowersOfHanoi/tower.py:143 | appending a block to the destination adds exactly that block to the blocks of all poles |
| Hanoi.TopsDiffer | TowersOfHanoi/tower.py:133 | in a sound state the top blocks of two different poles differ, so "≤" in the rule is in effect "<" |
| Hanoi.ValidMoveKeepsSound | TowersOfHanoi/tower.py:123-143 | a move that passes the rule keeps every pole strictly descending and keeps the blocks exactly {1..N} |
| Hanoi.Step | TowersOfHanoi/tower.py:113-119 | a move the game accepts or refuses leaves the state with the same poles |
| Hanoi.PlayKeepsSound | TowersOfHanoi/tower.py:113-143 | every sequence of accepted or refused moves from a sound state ends in a sound state |
| Hanoi.ReachableIsSound | TowersOfHanoi/tower.py:43-49 | every state reachable from the initial state is sound |
| Hanoi.FilterValidExactly | TowersOfHanoi/tower.py:110 | a move is offered iff it is in the list and passes the rule |
| Hanoi.OfferedIsValid | TowersOfHanoi/tower.py:110-119 | a move is among those the game offers iff `Step` accepts it: the offered list and the acceptance test agree |
| Hanoi.Game.ValidMoves | TowersOfHanoi/tower.py:110 | the returned list is the listed moves that pass the rule, in list order, and holds exactly those moves |
| Hanoi.Game.PlayerHasWon | TowersOfHanoi/tower.py:146-152 | true iff some pole other than A holds exactly N blocks |
| Hanoi.FullPoleIsSorted | TowersOfHanoi/tower.py:146-152 | in a sound state, a pole holding N blocks holds N, N−1, …, 1: a win is the finished tower |
| Hanoi.OnePoleNeverWins | TowersOfHanoi/tower.py:146-152 | with a single pole the win check is never true |
| Hanoi.SolutionStep | TowersOfHanoi/tower.py:123-143 | each move of the seven-move solution for three blocks passes the rule and gives the next listed state |
| Hanoi.SolutionPlays | TowersOfHanoi/tower.py:113-143 | playing each prefix of that solution from the initial state gives the listed states |
| Hanoi.SolutionNoEarlyWin | TowersOfHanoi/tower.py:146-152 | none of the first seven states of the solution is a win |
| Hanoi.ThreeBlockSolution | TowersOfHanoi/tower.py:139-152 | after AC, AB, CB, AC, BA, BC, AC from the three-block start, pole C holds 3, 2, 1 and the game is won, and no earlier state is a win |
| Hanoi.CellWidths | TowersOfHanoi/tower.py:70-96 | the pole segment and the letter string are 2N+2 wide; a block of size b ≤ N is 2N+1+digits(b) wide with str(b) right after its first N+1 characters, so it is 2N+2 wide iff b < 10 |
| Hanoi.CellIsUniform | TowersOfHanoi/tower.py:75-96 | in a sound state with N < 10, every cell (any row r < N+2, any column c < T) of the rendering is 2N+2 wide |
| Hanoi.Game.AddLetterToGrid | TowersOfHanoi/tower.py:64-67 | the last row of column i becomes the letter string, and no other cell changes |
| Hanoi.Game.StackBlocksOnLetter | TowersOfHanoi/tower.py:81-90 | rows 0..N of column i become the rendering of pole i: block j on row N − j, the pole segment on rows 0..N − len, and no other cell changes |
| Hanoi.Game.DrawBlocks | TowersOfHanoi/tower.py:84-86 | block j of the pole is written to row N − j of column i; the rows above, the letter row and the other columns are unchanged |
| Hanoi.Game.DrawPoleAbove | TowersOfHanoi/tower.py:87-90 | rows 0 .. N − len of column i become the pole segment; the rows below them and the other columns are unchanged |
| Hanoi.Game.PopulateGrid | TowersOfHanoi/tower.py:75-78 | afterwards every cell of the grid is `Cell` of the current state: the letter on row N+1, the blocks below the top, and the pole segment above them |
| Common.Repeat | TowersOfHanoi/tower.py:71 | `c * k` has max(k, 0) characters |
| Common.RepeatIsUniform | TowersOfHanoi/tower.py:94-95 | every character of `c * k` is c |
| Common.NatToString | TowersOfHanoi/tower.py:96 | `str(n)` of n ≥ 0 is a non-empty run of digits, one digit iff n < 10, starting with '0' iff n is 0 |
| Common.DigitsValueOfNatToString | Wizcoin/wizcoin.py:69 | reading the digits of `str(n)` back gives n |
| Common.IntToString | Wizcoin/wizcoin.py:73 | `str(i)` is non-empty numeral characters, starts with '-' iff i < 0, and equals the digits of i when i ≥ 0 |
| Common.IntToStringInjective | Wizcoin/wizcoin.py:69 | distinct integers have distinct `str()` |
| Common.NumeralPrefixUnique | Wizcoin/wizcoin.py:67-73 | a numeral followed by text that does not start with a numeral character splits off uniquely |
| WizCoins.Len | Wizcoin/wizcoin.py:75-76 | `len()` equals `total` |
| WizCoins.AddTotal | Wizcoin/wizcoin.py:78-81 | total(a + b) = total(a) + total(b) |
| WizCoins.AddCommutes | Wizcoin/wizcoin.py:78-81 | a + b == b + a |
| WizCoins.AddAssociates | Wizcoin/wizcoin.py:78-81 | (a + b) + c == a + (b + c) |
| WizCoins.AddZero | Wizcoin/wizcoin.py:78-81 | WizCoin(0, 0, 0) is the identity of `+` on both sides |
| WizCoins.Mul | Wizcoin/wizcoin.py:83-90 | `a * k` raises `WizCoinException("Cannot multiply by negative integer.")` iff k < 0 |
| WizCoins.RMul | Wizcoin/wizcoin.py:92-99 | `k * a` raises the same exception iff k < 0, and otherwise each count is k times the original |
| WizCoins.MulIsRMul | Wizcoin/wizcoin.py:83-99 | `a * k` and `k * a` have the same outcome for every integer k |
| WizCoins.MulZero | Wizcoin/wizcoin.py:90 | a * 0 is WizCoin(0, 0, 0) |
| WizCoins.MulOne | Wizcoin/wizcoin.py:90 | a * 1 == a |
| WizCoins.MulTotal | Wizcoin/wizcoin.py:90 | for k ≥ 0, total(a * k) = k × total(a) |
| WizCoins.MulDistributes | Wizcoin/wizcoin.py:78-90 | for k ≥ 0, (a + b) * k == a * k + b * k |
| WizCoins.MulComposes | Wizcoin/wizcoin.py:90 | for j, k ≥ 0, (a * j) * k == a * (j × k) |
| WizCoins.EqIsEquality | Wizcoin/wizcoin.py:101-104 | `a == other` iff other is a WizCoin with the same three counts; false for anything else |
| WizCoins.NeIsNotEq | Wizcoin/wizcoin.py:101-109 | `a != other` is the negation of `a == other` for every value |
| WizCoins.StrInjective | Wizcoin/wizcoin.py:71-73 | coins with equal `str()` are equal |
| WizCoins.ReprInjective | Wizcoin/wizcoin.py:67-69 | coins with equal `repr()` are equal, so the representation determines the coin it recreates |
| WizCoins.CheckAmount | Wizcoin/wizcoin.py:20-25 | an int is accepted unchanged, negatives included; anything else fails with "Wizcoin ammount must be an int, but <class name> was given." |
| WizCoins.WizCoin.constructor | Wizcoin/wizcoin.py:7-10 | an object built from three ints holds exactly them |
| WizCoins.WizCoin.Create | Wizcoin/wizcoin.py:7-10 | construction from arbitrary values succeeds iff all three are ints; otherwise it fails on the first non-int, in the order galleons, sickles, knuts |
| WizCoins.WizCoin.SetGalleons | Wizcoin/wizcoin.py:20-25 | the outcome is `CheckAmount`; the field takes the int on success and is unchanged on failure |
| WizCoins.WizCoin.SetSickles | Wizcoin/wizcoin.py:37-42 | as `SetGalleons`, for sickles |
| WizCoins.WizCoin.SetKnuts | Wizcoin/wizcoin.py:54-59 | as `SetGalleons`, for knuts |
| Blackjack.RanksAreNumerals | Blackjack/blackjack.py:11 | the first nine ranks are `str()` of 2..10 |
| Blackjack.RanksDistinct | Blackjack/blackjack.py:11 | the thirteen ranks are distinct |
| Blackjack.SuitsDistinct | Blackjack/blackjack.py:13 | the four suits are distinct |
| Blackjack.RankValueTable | Blackjack/blackjack.py:12 | `rank_value` has a key for exactly the ranks; 2–10 are worth their face value, J, Q and K are worth 10 and A is worth 11, so every value is in 2..11 |
| Blackjack.FullDeck | Blackjack/blackjack.py:34 | the rank-by-suit product has 13 × 4 cards |
| Blackjack.FullDeckDistinct | Blackjack/blackjack.py:34 | its 52 cards are distinct |
| Blackjack.FullDeckIsProduct | Blackjack/blackjack.py:34 | a string is in it iff it is a rank followed by one suit character |
| Blackjack.Swap | Blackjack/blackjack.py:35 | a swap exchanges two positions and keeps the multiset of cards |
| Blackjack.Shuffled | Blackjack/blackjack.py:39 | a shuffle keeps the length and the multiset of cards |
| Blackjack.NewDeck | Blackjack/blackjack.py:32-36 | `new_deck` has 52 cards and is a permutation of the full deck |
| Blackjack.NewDeckCards | Blackjack/blackjack.py:32-36 | a new deck holds exactly the strings that are a rank followed by a suit, whatever the shuffle |
| Blackjack.NewDeckDistinct | Blackjack/blackjack.py:32-36 | a new deck holds no card twice, whatever the shuffle |
| Blackjack.Deck.constructor | Blackjack/blackjack.py:10-14 | a new `Deck` holds a shuffled full deck |
| Blackjack.Deck.Shuffle | Blackjack/blackjack.py:38-39 | the remaining cards are reordered by the shuffle |
| Blackjack.Popped | Blackjack/blackjack.py:45-48 | n pops give n cards |
| Blackjack.PoppedAt | Blackjack/blackjack.py:45-48 | the i-th card popped is the (i+1)-th from the end of the deck, so the cards come out as the deck's last n in reverse order |
| Blackjack.PoppedConserves | Blackjack/blackjack.py:45-48 | the cards drawn and the cards left together are the cards there were |
| Blackjack.PoppedDistinct | Blackjack/blackjack.py:45-48 | drawing from a deck of distinct cards gives distinct cards |
| Blackjack.NewDeckDrawsDistinct | Blackjack/blackjack.py:45-48 | the cards drawn from a new deck are distinct |
| Blackjack.Deck.Draw | Blackjack/blackjack.py:41-48 | as written: n > 52 ends in a `TypeError` with the deck unchanged; n ≤ the remaining count returns the popped cards and leaves the prefix; 52 ≥ n > the remaining count empties the deck and ends in `IndexError` |
| Blackjack.Deck.DrawChecked | Blackjack/blackjack.py:41-48 | corrected: more cards asked for than remain raises `CardsException` with the "Only … cards left" message and keeps the deck; otherwise it returns the popped cards and leaves the prefix |
| Blackjack.ShortDeckPassesGuard | Blackjack/blackjack.py:42 | drawing 2 from a new deck and then 51 ends in `IndexError`, not in `CardsException` |
| Blackjack.ShortDeckCaught | Blackjack/blackjack.py:42-43 | with the corrected guard the same requests raise "Only 50 cards left in deck, but 51 were asked for." and keep 50 cards |
| Blackjack.OversizedDrawRaisesTypeError | Blackjack/blackjack.py:43 | drawing 53 from a new deck ends in a `TypeError` |
| Blackjack.HandValue | Blackjack/blackjack.py:71-73 | `hand_value` succeeds iff every card's rank (the card without its last character) is in the table; otherwise it raises `KeyError` for the first card whose rank is missing |
| Blackjack.HandValueAppend | Blackjack/blackjack.py:73 | appending a card adds exactly its rank value |
| Blackjack.HandValueBounds | Blackjack/blackjack.py:73 | a hand of h cards from the deck has a value between 2h and 11h |

## Left out

- **I/O (Towers of Hanoi).** These are console I/O and are not modelled:
  - `main`, `show_grid`, `display`;
  - the prompt loop of `make_next_move` (TowersOfHanoi/tower.py:109-120, 155-185).

  The loop honours "QUIT" only on a re-prompt, not on the first input. The list it offers and the acceptance of a move are modelled by `Game.ValidMoves` and `Step`, and `OfferedIsValid` proves that they agree.
- **`print` in `player_has_won`.** The "Congratulations" message is left out; only the answer is modelled.
- **`place_blocks`** (TowersOfHanoi/tower.py:56-61). It computes strings and discards them, so it changes nothing.
- **Pole letters.** Only the first 26 poles are modelled, so every pole letter is in `A`..`Z`. The program itself would carry on past `Z` into other characters.
- **Dict order.** The state's own iteration order is represented by pole index 0..T−1. Python iterates dicts in insertion order, and the dict is filled in that same order.
- **Hanoi.Game.MakeMove.** It requires both pole letters to be keys and the origin to be non-empty. Without that, Python raises `KeyError` or `IndexError`. The program only calls `make_move` on a move that passed the rule.
- **Hanoi.Game.StackBlocksOnLetter and PopulateGrid.** These require every pole to hold at most N+1 blocks. A taller pole makes Python raise `IndexError` on the grid. A sound state holds at most N blocks on any pole.
- **WizCoin attribute deleters** (Wizcoin/wizcoin.py:27-30, 44-47, 61-64). They print and delete attributes: Python object-model plumbing.
- **`NotImplemented` dispatch.** `+` with a non-WizCoin and `*` with a non-int return `NotImplemented`. This is interpreter dispatch, so `Add` takes two coins and `Mul` and `RMul` take an int.
- **`bool` as `int`.** Python counts `bool` as a subclass of `int`. Booleans are not a separate `PyValue`.
- **WizCoins.Len.** It does not model the `ValueError` that Python's `len()` raises when the sum is negative. That check is the interpreter's, not the class's.
- **Operators on values.** The operators build new objects. They are modelled on `Coin` values, which an object's fields make up through `WizCoin.Value`.
- **`random.shuffle`** (Blackjack/blackjack.py:35, 39). It is a sequence of swaps the caller supplies. The model proves that any such sequence gives a permutation. It does not prove that every permutation can arise.
- **The size guard.** `Deck.Draw` compares n with the length of `NewDeck([])`: the guard builds a fresh deck, and its length is 52 whichever way it is shuffled.
- **Deck attributes.** The `ranks` and `suits` properties and their setters are plain attribute storage that nothing reassigns. They are the constants `Ranks` and `Suits`, and `rank_value` is the constant `RankValue`.
- **The `Player` class.** Its constructor, the `chips`, `round` and `hand` attributes, and their property plumbing are not modelled. `hand_value` is modelled on the hand as a sequence, with the same table as `Deck.rank_value`.
- **Blackjack `__main__`** (Blackjack/blackjack.py:75-85). It is an unfinished endless loop that prints.
- **`draw()` arguments.** The default argument n = 1 is not modelled: callers pass n. A non-integer n is not modelled either.
- **Sandbox/test/test_nearest.py.** It tests a `nearest_square` function that is not in the repository. That function is not part of this model.

## Findings

| source | as written | input that shows it | evidently intended | confidence | as-written member | corrected member |
|---|---|---|---|---|---|---|
| Blackjack/blackjack.py:42 | the guard compares n with `len(self.new_deck)`: a freshly built deck, always 52 cards | a new deck, `draw(2)`, then `draw(51)`: 50 cards remain, the guard passes, and the 51st `pop()` raises `IndexError` after drawing and losing all 50 | compare n with the number of cards left, `len(self.deck)`, as the message says | not executed | Blackjack.ShortDeckPassesGuard (on Blackjack.Deck.Draw) | Blackjack.Deck.DrawChecked (and Blackjack.ShortDeckCaught) |
| Blackjack/blackjack.py:4-5 | `CardsException.__init__` takes only `self`, so `raise CardsException(message)` on line 43 raises `TypeError` instead | a new deck, `draw(53)` | the exception carries the "Only … cards left in deck, but … were asked for." message | not executed | Blackjack.OversizedDrawRaisesTypeError (on Blackjack.Deck.Draw) | Blackjack.Deck.DrawChecked |
