/** The deterministic parts of the Blackjack program: the 52-card deck built
    as the product of thirteen ranks and four suits, drawing cards by popping
    them off the end of the deck, and the value of a hand through the rank
    table.  The shuffle is Python's `random.shuffle`; here it is a sequence of
    swaps handed in by the caller. */
module Blackjack {
  import opened Common

  /** The ranks, in the order the deck is built: `str(r)` of 2..10, then the
      four court and ace letters. */
  const Ranks: seq<string> := ["2", "3", "4", "5", "6", "7", "8", "9", "10", "J", "Q", "K", "A"]

  /** The suits: the four characters from code point 9824 on. */
  const Suits: seq<char> := [9824 as char, 9825 as char, 9826 as char, 9827 as char]

  /** `rank_value`, the points each rank is worth. */
  const RankValue: map<string, int> :=
    map["2" := 2, "3" := 3, "4" := 4, "5" := 5, "6" := 6, "7" := 7, "8" := 8, "9" := 9,
        "10" := 10, "J" := 10, "Q" := 10, "K" := 10, "A" := 11]

  /** The exceptions `draw` and `hand_value` can end in. */
  datatype CardsError =
    | CardsException(message: string)
    | TypeError(message: string)
    | IndexError(message: string)
    | KeyError(key: string)

  /** What raising `CardsException(message)` actually raises: the class's
      `__init__` takes no argument besides `self`. */
  const InitArgumentError: CardsError :=
    TypeError("CardsException.__init__() takes 1 positional argument but 2 were given")

  const PopFromEmpty: CardsError := IndexError("pop from empty list")

  // -----------------------------------------------------------------------
  // Ranks, suits and the rank table

  /** The first nine ranks are the decimal strings of 2 to 10. */
  lemma RanksAreNumerals(k: nat)
    requires k < 9
    ensures Ranks[k] == NatToString(k + 2)
  {
    if k == 8 {
      assert NatToString(10) == NatToString(1) + [DigitChar(0)];
    }
  }

  lemma RanksDistinct(a: nat, b: nat)
    requires a < |Ranks| && b < |Ranks| && Ranks[a] == Ranks[b]
    ensures a == b
  {
  }

  lemma SuitsDistinct(a: nat, b: nat)
    requires a < |Suits| && b < |Suits| && Suits[a] == Suits[b]
    ensures a == b
  {
  }

  /** `rank_value` has a key for every rank and for nothing else: 2 to 10 are
      worth their face value, the court cards 10 and the ace 11. */
  lemma RankValueTable()
    ensures forall r :: r in RankValue <==> r in Ranks
    ensures forall k :: 0 <= k < 9 ==> RankValue[Ranks[k]] == k + 2
    ensures RankValue["J"] == 10 && RankValue["Q"] == 10 && RankValue["K"] == 10
    ensures RankValue["A"] == 11
    ensures forall r :: r in RankValue ==> 2 <= RankValue[r] <= 11
  {
    forall r ensures r in RankValue <==> r in Ranks {
      if r in Ranks {
        var k :| 0 <= k < |Ranks| && Ranks[k] == r;
        assert r in RankValue;
      }
    }
  }

  // -----------------------------------------------------------------------
  // The deck

  /** `[r+s for r in ranks for s in suits]`: rank by rank, each in every suit. */
  function FullDeck(): (d: seq<string>)
    ensures |d| == |Ranks| * |Suits|
  {
    seq(|Ranks| * |Suits|, i requires 0 <= i < |Ranks| * |Suits| => Ranks[i / |Suits|] + [Suits[i % |Suits|]])
  }

  /** A card: a rank followed by one suit character. */
  predicate IsCard(c: string) {
    |c| >= 1 && c[..|c| - 1] in Ranks && c[|c| - 1] in Suits
  }

  /** The full deck holds 52 distinct cards. */
  lemma FullDeckDistinct(i: nat, j: nat)
    requires i < |FullDeck()| && j < |FullDeck()| && FullDeck()[i] == FullDeck()[j]
    ensures i == j
  {
    var c := FullDeck()[i];
    var ri, rj := Ranks[i / 4], Ranks[j / 4];
    assert c == ri + [Suits[i % 4]] && c == rj + [Suits[j % 4]];
    assert c[|c| - 1] == Suits[i % 4] == Suits[j % 4];
    SuitsDistinct(i % 4, j % 4);
    assert ri == c[..|c| - 1] == rj;
    RanksDistinct(i / 4, j / 4);
  }

  /** Every card of the full deck is a rank followed by a suit, and every
      rank-suit pair is in the full deck. */
  lemma FullDeckIsProduct(c: string)
    ensures c in FullDeck() <==> IsCard(c)
  {
    if c in FullDeck() {
      var i :| 0 <= i < |FullDeck()| && FullDeck()[i] == c;
      assert c[..|c| - 1] == Ranks[i / 4];
    }
    if IsCard(c) {
      var r, s := c[..|c| - 1], c[|c| - 1];
      var a :| 0 <= a < |Ranks| && Ranks[a] == r;
      var b :| 0 <= b < |Suits| && Suits[b] == s;
      var i := 4 * a + b;
      assert i / 4 == a && i % 4 == b;
      assert FullDeck()[i] == r + [s] == c;
    }
  }

  /** Swapping two positions of a deck. */
  function Swap(d: seq<string>, i: nat, j: nat): (r: seq<string>)
    requires i < |d| && j < |d|
    ensures |r| == |d| && multiset(r) == multiset(d)
    ensures r[i] == d[j] && r[j] == d[i]
    ensures forall k :: 0 <= k < |d| && k != i && k != j ==> r[k] == d[k]
  {
    d[i := d[j]][j := d[i]]
  }

  /** `random.shuffle` as the sequence of swaps it performs, each position
      taken modulo the length of the deck. */
  function Shuffled(d: seq<string>, swaps: seq<(nat, nat)>): (r: seq<string>)
    ensures |r| == |d| && multiset(r) == multiset(d)
    decreases |swaps|
  {
    if swaps == [] || d == [] then d
    else Shuffled(Swap(d, swaps[0].0 % |d|, swaps[0].1 % |d|), swaps[1..])
  }

  /** The `new_deck` property: the full deck in shuffled order, a permutation
      of the 52 rank-suit cards. */
  function NewDeck(swaps: seq<(nat, nat)>): (d: seq<string>)
    ensures |d| == 52
    ensures multiset(d) == multiset(FullDeck())
  {
    Shuffled(FullDeck(), swaps)
  }

  /** A new deck holds exactly the rank-suit cards, however it is shuffled. */
  lemma NewDeckCards(swaps: seq<(nat, nat)>, c: string)
    ensures c in NewDeck(swaps) <==> IsCard(c)
  {
    var d := NewDeck(swaps);
    assert c in d <==> c in multiset(d);
    assert c in FullDeck() <==> c in multiset(FullDeck());
    FullDeckIsProduct(c);
  }

  /** The k cards that k pops take off the end of d, in the order popped. */
  function Popped<T>(d: seq<T>, k: nat): (r: seq<T>)
    requires k <= |d|
    ensures |r| == k
    decreases k
  {
    if k == 0 then [] else [d[|d| - 1]] + Popped(d[..|d| - 1], k - 1)
  }

  /** The i-th card popped is the (i+1)-th from the end. */
  lemma {:induction false} PoppedAt<T>(d: seq<T>, k: nat)
    requires k <= |d|
    ensures forall i :: 0 <= i < k ==> Popped(d, k)[i] == d[|d| - 1 - i]
    decreases k
  {
    if k > 0 {
      var d' := d[..|d| - 1];
      PoppedAt(d', k - 1);
      assert forall i :: 0 < i < k ==> Popped(d, k)[i] == Popped(d', k - 1)[i - 1];
    }
  }

  /** Popping k cards loses none: the cards drawn and the cards left are
      together the cards that were there. */
  lemma {:induction false} PoppedConserves<T>(d: seq<T>, k: nat)
    requires k <= |d|
    ensures multiset(Popped(d, k)) + multiset(d[..|d| - k]) == multiset(d)
    decreases k, 1
  {
    if k == 0 {
      assert Popped(d, 0) == [] && d[..|d|] == d;
      assert multiset(Popped(d, 0)) == multiset{};
    } else {
      PoppedConservesStep(d, k);
    }
  }

  /** One more pop moves the next card from the deck to the cards drawn. */
  lemma PoppedConservesStep<T>(d: seq<T>, k: nat)
    requires 0 < k <= |d|
    ensures multiset(Popped(d, k)) + multiset(d[..|d| - k]) == multiset(d)
    decreases k, 0
  {
    PoppedConserves(d, k - 1);
    var x, left, left' := d[|d| - k], d[..|d| - k], d[..|d| - (k - 1)];
    PoppedAppend(d, k - 1);
    assert left' == left + [x];
    MultisetOfSnoc(Popped(d, k - 1), x);
    MultisetOfSnoc(left, x);
    MultisetMove(multiset(Popped(d, k)), multiset(Popped(d, k - 1)),
                 multiset(left), multiset(left'), x, multiset(d));
  }

  lemma MultisetOfSnoc<T>(s: seq<T>, x: T)
    ensures multiset(s + [x]) == multiset(s) + multiset{x}
  {
  }

  /** Moving one element from one side of a sum to the other keeps the sum. */
  lemma MultisetMove<T>(p: multiset<T>, p': multiset<T>, s: multiset<T>, s': multiset<T>,
                        x: T, m: multiset<T>)
    requires p' + s' == m && p == p' + multiset{x} && s' == s + multiset{x}
    ensures p + s == m
  {
  }

  /** Drawing from a deck of distinct cards gives distinct cards. */
  lemma PoppedDistinct<T>(d: seq<T>, k: nat)
    requires k <= |d|
    requires forall i, j :: 0 <= i < j < |d| ==> d[i] != d[j]
    ensures forall i, j :: 0 <= i < j < k ==> Popped(d, k)[i] != Popped(d, k)[j]
  {
    PoppedAt(d, k);
  }
  /** A new deck holds no card twice, whatever the shuffle. */
  lemma NewDeckDistinct(swaps: seq<(nat, nat)>)
    ensures forall i, j :: 0 <= i < j < 52 ==> NewDeck(swaps)[i] != NewDeck(swaps)[j]
  {
    var d, full := NewDeck(swaps), FullDeck();
    forall i, j | 0 <= i < j < |full| ensures full[i] != full[j] {
      if full[i] == full[j] {
        FullDeckDistinct(i, j);
      }
    }
    forall i, j | 0 <= i < j < 52 ensures d[i] != d[j] {
      if d[i] == d[j] {
        CountsTwice(d, i, j);
        CountsAtMostOnce(full, d[i]);
      }
    }
  }

  /** The cards drawn from a new deck are distinct. */
  lemma NewDeckDrawsDistinct(swaps: seq<(nat, nat)>, k: nat)
    requires k <= 52
    ensures forall i, j :: 0 <= i < j < k ==> Popped(NewDeck(swaps), k)[i] != Popped(NewDeck(swaps), k)[j]
  {
    NewDeckDistinct(swaps);
    PoppedDistinct(NewDeck(swaps), k);
  }

  /** A sequence without repeats holds each value at most once. */
  lemma {:induction false} CountsAtMostOnce<T>(s: seq<T>, x: T)
    requires forall i, j :: 0 <= i < j < |s| ==> s[i] != s[j]
    ensures multiset(s)[x] <= 1
  {
    if |s| > 0 {
      var s', last := s[..|s| - 1], s[|s| - 1];
      CountsAtMostOnce(s', x);
      assert s == s' + [last];
      if last == x {
        assert forall k :: 0 <= k < |s'| ==> s'[k] != x;
        assert x !in s';
      }
    }
  }

  /** A value at two positions is counted at least twice. */
  lemma CountsTwice<T>(s: seq<T>, i: nat, j: nat)
    requires i < j < |s| && s[i] == s[j]
    ensures multiset(s)[s[i]] >= 2
  {
    assert s == s[..j] + [s[j]] + s[j + 1..];
    assert s[..j][i] == s[i];
  }


  /** The message the guard was written to raise. */
  function ShortDeckMessage(left: int, n: int): string {
    "Only " + IntToString(left) + " cards left in deck, but " + IntToString(n) + " were asked for."
  }

  class Deck {
    var deck: seq<string>

    /** `Deck()`: a freshly shuffled full deck. */
    constructor(swaps: seq<(nat, nat)>)
      ensures deck == NewDeck(swaps)
    {
      deck := NewDeck(swaps);
    }

    /** `shuffle()`: reorders the remaining cards in place. */
    method Shuffle(swaps: seq<(nat, nat)>)
      modifies this
      ensures deck == Shuffled(old(deck), swaps)
    {
      deck := Shuffled(deck, swaps);
    }

    /** `draw(n)` as written.  The guard compares n with the length of a newly
        built deck, always 52, and raising `CardsException` with a message
        fails with a `TypeError`.  Below that, n pops happen one at a time,
        and running out of cards raises `IndexError` with every card drawn so
        far lost. */
    method Draw(n: int) returns (r: Result<seq<string>, CardsError>)
      modifies this
      ensures n > 52 ==> r == Failure(InitArgumentError) && deck == old(deck)
      ensures n <= 52 && n <= |old(deck)| ==>
                var k := if n > 0 then n else 0;
                r == Success(Popped(old(deck), k)) && deck == old(deck)[..|old(deck)| - k]
      ensures n <= 52 && n > |old(deck)| ==> r == Failure(PopFromEmpty) && deck == []
    {
      var full := NewDeck([]);
      if n > |full| {
        return Failure(InitArgumentError);
      }
      ghost var d := deck;
      var drew: seq<string> := [];
      var i := 0;
      while i < n
        invariant 0 <= i <= |d| && (i == 0 || i <= n)
        invariant drew == Popped(d, i)
        invariant deck == d[..|d| - i]
      {
        if deck == [] {
          return Failure(PopFromEmpty);
        }
        drew := drew + [deck[|deck| - 1]];
        PoppedAppend(d, i);
        deck := deck[..|deck| - 1];
        i := i + 1;
      }
      return Success(drew);
    }

    /** `draw(n)` with the guard the message describes: more cards asked for
        than remain raises `CardsException` and leaves the deck alone;
        otherwise the last n cards come off in pop order. */
    method DrawChecked(n: int) returns (r: Result<seq<string>, CardsError>)
      modifies this
      ensures n > |old(deck)| ==>
                r == Failure(CardsException(ShortDeckMessage(|old(deck)|, n))) && deck == old(deck)
      ensures n <= |old(deck)| ==>
                var k := if n > 0 then n else 0;
                r == Success(Popped(old(deck), k)) && deck == old(deck)[..|old(deck)| - k]
    {
      if n > |deck| {
        return Failure(CardsException(ShortDeckMessage(|deck|, n)));
      }
      ghost var d := deck;
      var drew: seq<string> := [];
      var i := 0;
      while i < n
        invariant 0 <= i <= |d| && (i == 0 || i <= n)
        invariant drew == Popped(d, i)
        invariant deck == d[..|d| - i]
      {
        drew := drew + [deck[|deck| - 1]];
        PoppedAppend(d, i);
        deck := deck[..|deck| - 1];
        i := i + 1;
      }
      return Success(drew);
    }
  }

  /** One more pop appends the next card from the end. */
  lemma {:induction false} PoppedAppend<T>(d: seq<T>, k: nat)
    requires k < |d|
    ensures Popped(d, k + 1) == Popped(d, k) + [d[|d| - 1 - k]]
  {
    var p, q := Popped(d, k + 1), Popped(d, k) + [d[|d| - 1 - k]];
    PoppedAt(d, k);
    PoppedAt(d, k + 1);
    assert |p| == |q|;
    forall i | 0 <= i < |p| ensures p[i] == q[i] {
    }
  }

  /** After two cards are drawn from a new deck, asking for 51 of the 50 left
      passes the guard and ends in `IndexError`, not in the exception about
      too few cards. */
  method ShortDeckPassesGuard() returns (r: Result<seq<string>, CardsError>)
    ensures r == Failure(PopFromEmpty)
  {
    var d := new Deck([]);
    var first := d.Draw(2);
    r := d.Draw(51);
  }

  /** With the corrected guard the same request raises the intended exception
      and keeps the 50 cards. */
  method ShortDeckCaught() returns (r: Result<seq<string>, CardsError>, left: nat)
    ensures r == Failure(CardsException(ShortDeckMessage(50, 51))) && left == 50
  {
    var d := new Deck([]);
    var first := d.DrawChecked(2);
    r := d.DrawChecked(51);
    left := |d.deck|;
  }

  /** Asking a new deck for 53 cards reaches the `raise`, which fails on the
      exception's constructor. */
  method OversizedDrawRaisesTypeError() returns (r: Result<seq<string>, CardsError>)
    ensures r.Failure? && r.error.TypeError?
  {
    var d := new Deck([]);
    r := d.Draw(53);
  }

  // -----------------------------------------------------------------------
  // Hand value

  /** `c[:-1]`: a card without its suit character, and "" for "". */
  function RankOf(c: string): string {
    if |c| == 0 then "" else c[..|c| - 1]
  }

  /** `hand_value`: the sum of the cards' rank values, or a `KeyError` for the
      first card whose rank is not in the table. */
  function HandValue(hand: seq<string>): (r: Result<int, CardsError>)
    ensures r.Success? <==> forall i :: 0 <= i < |hand| ==> RankOf(hand[i]) in RankValue
    ensures r.Failure? ==> r.error.KeyError? && r.error.key !in RankValue
    ensures r.Failure? ==> exists i :: 0 <= i < |hand| && RankOf(hand[i]) == r.error.key
                                && forall j :: 0 <= j < i ==> RankOf(hand[j]) in RankValue
    decreases |hand|
  {
    if hand == [] then Success(0)
    else
      var k := RankOf(hand[0]);
      if k !in RankValue then Failure(KeyError(k))
      else
        var rest := HandValue(hand[1..]);
        assert forall i :: 1 <= i < |hand| ==> hand[i] == hand[1..][i - 1];
        if rest.Failure? then
          var i :| 0 <= i < |hand| - 1 && RankOf(hand[1..][i]) == rest.error.key
                   && forall j :: 0 <= j < i ==> RankOf(hand[1..][j]) in RankValue;
          assert RankOf(hand[i + 1]) == rest.error.key;
          Failure(rest.error)
        else Success(RankValue[k] + rest.value)
  }

  /** Adding a card whose rank is in the table adds exactly its value. */
  lemma {:induction false} HandValueAppend(hand: seq<string>, c: string)
    requires HandValue(hand).Success? && RankOf(c) in RankValue
    ensures HandValue(hand + [c]) == Success(HandValue(hand).value + RankValue[RankOf(c)])
    decreases |hand|
  {
    if hand == [] {
      assert [] + [c] == [c];
      assert [c][1..] == [];
    } else {
      assert (hand + [c])[1..] == hand[1..] + [c];
      assert HandValue(hand[1..]).Success? by {
        assert forall i :: 0 <= i < |hand[1..]| ==> hand[1..][i] == hand[i + 1];
      }
      HandValueAppend(hand[1..], c);
    }
  }

  /** A hand of h cards from the deck is worth between 2h and 11h. */
  lemma {:induction false} HandValueBounds(hand: seq<string>)
    requires forall i :: 0 <= i < |hand| ==> IsCard(hand[i])
    ensures HandValue(hand).Success?
    ensures 2 * |hand| <= HandValue(hand).value <= 11 * |hand|
    decreases |hand|
  {
    RankValueTable();
    if hand != [] {
      assert forall i :: 0 <= i < |hand[1..]| ==> hand[1..][i] == hand[i + 1];
      HandValueBounds(hand[1..]);
    }
  }
}
