/** The Towers of Hanoi console game: the map from pole letter to blocks, the
    list of pole-to-pole moves, the move rule and its in-place update, the win
    check, and the grid of fixed-width strings that renders the state.

    The number of blocks N and the number of poles T are parameters with
    N >= 1 and 1 <= T <= 26 (the program fixes them at 5 and 3). */
module Hanoi {
  import opened Common

  /** The game state `letter_to_blocks`: each pole letter to its blocks,
      bottom block first, top block last. */
  type Poles = map<char, seq<int>>

  predicate Config(n: nat, t: nat) {
    1 <= n && 1 <= t <= 26
  }

  // ---------------------------------------------------------------------
  // Pole letters

  /** `get_letter_from_index`: pole i is named by the character chr(i + 65). */
  function Letter(i: nat): (c: char)
    requires i < 26
    ensures 'A' <= c <= 'Z'
    ensures IndexOf(c) == i
  {
    (i + 65) as char
  }

  /** The pole index a letter names: the inverse of Letter. */
  function IndexOf(c: char): int {
    c as int - 65
  }

  /** c names one of the first t poles. */
  predicate IsPole(c: char, t: nat) {
    'A' <= c && IndexOf(c) < t
  }

  /** The state has exactly the keys A, B, ... of the first t poles. */
  predicate HasPoles(p: Poles, t: nat) {
    forall c :: c in p <==> IsPole(c, t)
  }

  lemma LetterOfIndex(c: char, t: nat)
    requires IsPole(c, t) && t <= 26
    ensures 0 <= IndexOf(c) < t && Letter(IndexOf(c)) == c
  {
  }

  // ---------------------------------------------------------------------
  // The list of moves

  /** The moves from pole s to the destinations 0 .. e-1 other than s, in
      destination order: one pass of the inner loop of `find_possible_moves`. */
  function MovesFrom(s: nat, e: nat): seq<string>
    requires s < 26 && e <= 26
  {
    if e == 0 then []
    else MovesFrom(s, e - 1) + (if s != e - 1 then [[Letter(s), Letter(e - 1)]] else [])
  }

  /** The moves from the origins 0 .. s-1 over the destinations 0 .. t-1. */
  function MovesBelow(s: nat, t: nat): seq<string>
    requires s <= t <= 26
  {
    if s == 0 then [] else MovesBelow(s - 1, t) + MovesFrom(s - 1, t)
  }

  /** `possible_moves` as `find_possible_moves` builds it for t poles. */
  function PossibleMoves(t: nat): seq<string>
    requires t <= 26
  {
    MovesBelow(t, t)
  }

  /** A move names two different poles among the first t. */
  predicate IsMove(m: string, t: nat) {
    |m| == 2 && IsPole(m[0], t) && IsPole(m[1], t) && m[0] != m[1]
  }

  lemma {:induction false} MovesFromLength(s: nat, e: nat)
    requires s < 26 && e <= 26
    ensures |MovesFrom(s, e)| == if s < e then e - 1 else e
  {
    if e > 0 {
      MovesFromLength(s, e - 1);
    }
  }

  lemma {:induction false} MovesFromExactly(s: nat, e: nat, m: string)
    requires s < 26 && e <= 26
    ensures m in MovesFrom(s, e) <==>
              |m| == 2 && m[0] == Letter(s) && IsPole(m[1], e) && m[1] != Letter(s)
  {
    if e > 0 {
      MovesFromExactly(s, e - 1, m);
      var last: string := [Letter(s), Letter(e - 1)];
      assert m == last <==> |m| == 2 && m[0] == Letter(s) && m[1] == Letter(e - 1);
      if |m| == 2 && IsPole(m[1], e) && !IsPole(m[1], e - 1) {
        LetterOfIndex(m[1], e);
      }
    }
  }

  lemma {:induction false} MovesBelowLength(s: nat, t: nat)
    requires s <= t <= 26
    ensures |MovesBelow(s, t)| == s * (t - 1)
  {
    if s > 0 {
      var k := t - 1;
      MovesBelowLength(s - 1, t);
      MovesFromLength(s - 1, t);
      assert |MovesBelow(s, t)| == |MovesBelow(s - 1, t)| + |MovesFrom(s - 1, t)|;
      assert |MovesBelow(s, t)| == (s - 1) * k + k;
      MulStep(s - 1, k);
    }
  }

  lemma MulStep(a: int, k: int)
    ensures a * k + k == (a + 1) * k
  {
  }

  lemma {:induction false} MovesBelowExactly(s: nat, t: nat, m: string)
    requires s <= t <= 26
    ensures m in MovesBelow(s, t) <==>
              |m| == 2 && IsPole(m[0], s) && IsPole(m[1], t) && m[0] != m[1]
  {
    if s > 0 {
      MovesBelowExactly(s - 1, t, m);
      MovesFromExactly(s - 1, t, m);
      assert m in MovesBelow(s, t) <==> m in MovesBelow(s - 1, t) || m in MovesFrom(s - 1, t);
      if |m| == 2 && IsPole(m[0], s) && !IsPole(m[0], s - 1) {
        LetterOfIndex(m[0], s);
      }
    }
  }

  /** `find_possible_moves` yields exactly the ordered pairs of distinct pole
      letters, T * (T - 1) of them; so no move such as "AA" is in the list. */
  lemma PossibleMovesExactly(t: nat, m: string)
    requires t <= 26
    ensures |PossibleMoves(t)| == t * (t - 1)
    ensures m in PossibleMoves(t) <==> IsMove(m, t)
  {
    MovesBelowLength(t, t);
    MovesBelowExactly(t, t, m);
  }

  // ---------------------------------------------------------------------
  // The initial state

  /** `list(range(n, 0, -1))`: the blocks n, n-1, ..., 1, largest first. */
  function CountDown(n: nat): (s: seq<int>)
    ensures |s| == n
  {
    if n == 0 then [] else [n] + CountDown(n - 1)
  }

  /** Position k of `CountDown(n)` holds n - k. */
  lemma {:induction false} CountDownAt(n: nat)
    ensures forall k :: 0 <= k < n ==> CountDown(n)[k] == n - k
  {
    if n > 0 {
      CountDownAt(n - 1);
      assert forall k :: 0 < k < n ==> CountDown(n)[k] == CountDown(n - 1)[k - 1];
    }
  }

  /** The state `create_letters_and_blocks` builds: pole A holds all n blocks,
      largest at the bottom, and every other pole is empty. */
  predicate IsInitial(p: Poles, n: nat, t: nat) {
    HasPoles(p, t) && Letter(0) in p && p[Letter(0)] == CountDown(n)
    && forall c :: c in p && c != Letter(0) ==> p[c] == []
  }

  // ---------------------------------------------------------------------
  // The invariants every reachable state keeps

  /** Bottom to top, each block is smaller than every block below it. */
  predicate StrictlyDescending(s: seq<int>) {
    forall i, j :: 0 <= i < j < |s| ==> s[i] > s[j]
  }

  /** The blocks of the poles 0 .. k-1, all together. */
  function PoleBag(p: Poles, k: nat): multiset<int>
    requires k <= 26 && forall i :: 0 <= i < k ==> Letter(i) in p
  {
    if k == 0 then multiset{} else PoleBag(p, k - 1) + multiset(p[Letter(k - 1)])
  }

  /** The puzzle's invariants: every pole strictly descending, and the blocks
      on all poles together exactly 1 .. n, each once. */
  predicate Sound(p: Poles, n: nat, t: nat) {
    t <= 26 && HasPoles(p, t)
    && (forall c :: c in p ==> StrictlyDescending(p[c]))
    && PoleBag(p, t) == multiset(CountDown(n))
  }

  lemma {:induction false} CountDownOnce(n: nat, x: int)
    ensures multiset(CountDown(n))[x] == if 1 <= x <= n then 1 else 0
  {
    if n > 0 {
      var rest := CountDown(n - 1);
      CountDownOnce(n - 1, x);
      assert CountDown(n) == [n] + rest;
      assert multiset(CountDown(n)) == multiset{n} + multiset(rest);
      assert multiset(CountDown(n))[x] == multiset{n}[x] + multiset(rest)[x];
    } else {
      assert CountDown(n) == [];
    }
  }

  lemma {:induction false} InitialBag(p: Poles, n: nat, t: nat, k: nat)
    requires IsInitial(p, n, t) && 1 <= k <= t <= 26
    ensures PoleBag(p, k) == multiset(CountDown(n))
  {
    if k > 1 {
      InitialBag(p, n, t, k - 1);
      assert Letter(k - 1) != Letter(0);
    }
  }

  /** The state `create_letters_and_blocks` builds satisfies the invariants. */
  lemma InitialIsSound(p: Poles, n: nat, t: nat)
    requires Config(n, t) && IsInitial(p, n, t)
    ensures Sound(p, n, t)
  {
    InitialBag(p, n, t, t);
    CountDownAt(n);
  }

  /** Replacing one pole's blocks changes the bag by exactly that pole. */
  lemma {:induction false} BagUpdate(p: Poles, c: char, v: seq<int>, k: nat)
    requires k <= 26 && c in p && forall i :: 0 <= i < k ==> Letter(i) in p
    ensures IsPole(c, k) ==> PoleBag(p[c := v], k) + multiset(p[c]) == PoleBag(p, k) + multiset(v)
    ensures !IsPole(c, k) ==> PoleBag(p[c := v], k) == PoleBag(p, k)
    decreases k, 1
  {
    if k > 0 {
      BagUpdateStep(p, c, v, k);
    }
  }

  /** BagUpdate for the first k poles from BagUpdate for the first k - 1. */
  lemma BagUpdateStep(p: Poles, c: char, v: seq<int>, k: nat)
    requires 0 < k <= 26 && c in p && forall i :: 0 <= i < k ==> Letter(i) in p
    ensures IsPole(c, k) ==> PoleBag(p[c := v], k) + multiset(p[c]) == PoleBag(p, k) + multiset(v)
    ensures !IsPole(c, k) ==> PoleBag(p[c := v], k) == PoleBag(p, k)
    decreases k, 0
  {
    BagUpdate(p, c, v, k - 1);
    var l := Letter(k - 1);
    var below, below' := PoleBag(p, k - 1), PoleBag(p[c := v], k - 1);
    if c == l {
      assert below' == below;
      assert PoleBag(p[c := v], k) == below + multiset(v);
      assert PoleBag(p, k) == below + multiset(p[c]);
      SwapSum(below, multiset(v), multiset(p[c]));
    } else {
      assert PoleBag(p[c := v], k) == below' + multiset(p[l]);
      assert PoleBag(p, k) == below + multiset(p[l]);
      if IsPole(c, k) {
        assert IsPole(c, k - 1);
        SwapSum(below', multiset(p[l]), multiset(p[c]));
        SwapSum(below, multiset(p[l]), multiset(v));
      }
    }
  }

  lemma SwapSum(a: multiset<int>, b: multiset<int>, c: multiset<int>)
    ensures (a + b) + c == (a + c) + b
  {
  }

  lemma {:induction false} BagHoldsPoles(p: Poles, k: nat, i: nat, j: nat)
    requires k <= 26 && forall l :: 0 <= l < k ==> Letter(l) in p
    requires i < k && j < k
    ensures multiset(p[Letter(i)]) <= PoleBag(p, k)
    ensures i != j ==> multiset(p[Letter(i)]) + multiset(p[Letter(j)]) <= PoleBag(p, k)
  {
    if i == k - 1 || j == k - 1 {
      if 0 < k - 1 {
        if i < k - 1 {
          BagHoldsPoles(p, k - 1, i, i);
        } else if j < k - 1 {
          BagHoldsPoles(p, k - 1, j, j);
        }
      }
    } else {
      BagHoldsPoles(p, k - 1, i, j);
    }
  }

  /** In a sound state every pole holds at most n blocks, each one of 1 .. n. */
  lemma SoundPoleBounds(p: Poles, n: nat, t: nat, c: char)
    requires Sound(p, n, t) && c in p
    ensures |p[c]| <= n
    ensures forall k :: 0 <= k < |p[c]| ==> 1 <= p[c][k] <= n
  {
    LetterOfIndex(c, t);
    BagHoldsPoles(p, t, IndexOf(c), IndexOf(c));
    var bag := PoleBag(p, t);
    assert bag == multiset(p[c]) + (bag - multiset(p[c]));
    forall k | 0 <= k < |p[c]|
      ensures 1 <= p[c][k] <= n
    {
      CountDownOnce(n, p[c][k]);
    }
  }

  // ---------------------------------------------------------------------
  // The move rule and the move

  /** The top block of a pole. */
  function Top(s: seq<int>): int
    requires |s| > 0
  {
    s[|s| - 1]
  }

  /** `check_if_move_is_valid`, decided in the program's order: not one of the
      listed moves, false; origin empty, false; destination empty, true;
      otherwise true when the origin's top block is no larger than the
      destination's. */
  predicate ValidMove(p: Poles, t: nat, m: string)
    requires HasPoles(p, t)
  {
    if !IsMove(m, t) then false
    else if |p[m[0]]| == 0 then false
    else if |p[m[1]]| == 0 then true
    else Top(p[m[0]]) <= Top(p[m[1]])
  }

  /** `make_move`: pop the origin's top block and append it to the
      destination; no other pole changes. The destination list is read after
      the pop, so a move from a pole to itself leaves the state as it was. */
  function Moved(p: Poles, m: string): (q: Poles)
    requires |m| >= 2 && m[0] in p && m[1] in p && |p[m[0]]| > 0
    ensures q.Keys == p.Keys
    ensures m[0] == m[1] ==> q == p
    ensures m[0] != m[1] ==>
              && q[m[0]] == p[m[0]][..|p[m[0]]| - 1]
              && q[m[1]] == p[m[1]] + [Top(p[m[0]])]
    ensures forall c :: c in p && c != m[0] && c != m[1] ==> q[c] == p[c]
  {
    var popped := p[m[0] := p[m[0]][..|p[m[0]]| - 1]];
    assert p[m[0]][..|p[m[0]]| - 1] + [Top(p[m[0]])] == p[m[0]];
    popped[m[1] := popped[m[1]] + [Top(p[m[0]])]]
  }

  lemma Cancel(a: multiset<int>, b: multiset<int>, c: multiset<int>)
    requires a + c == b + c
    ensures a == b
  {
    forall y ensures a[y] == b[y] {
      assert (a + c)[y] == (b + c)[y];
    }
  }

  /** A move between two poles leaves the bag of all blocks unchanged. */
  lemma MoveConserves(p: Poles, t: nat, m: string)
    requires t <= 26 && HasPoles(p, t) && IsMove(m, t) && |p[m[0]]| > 0
    ensures PoleBag(Moved(p, m), t) == PoleBag(p, t)
  {
    var o, d := m[0], m[1];
    var x := Top(p[o]);
    var popped := p[o := p[o][..|p[o]| - 1]];
    assert popped[d] == p[d];
    assert popped[d := popped[d] + [x]] == Moved(p, m);
    PopBag(p, t, o);
    PushBag(popped, t, d, x);
  }

  /** Taking the top block off a pole takes exactly that block out of the bag. */
  lemma PopBag(p: Poles, t: nat, o: char)
    requires t <= 26 && HasPoles(p, t) && IsPole(o, t) && |p[o]| > 0
    ensures PoleBag(p[o := p[o][..|p[o]| - 1]], t) + multiset{Top(p[o])} == PoleBag(p, t)
  {
    var pre, x := p[o][..|p[o]| - 1], Top(p[o]);
    var popped := p[o := pre];
    BagUpdate(p, o, pre, t);
    assert p[o] == pre + [x];
    assert multiset(p[o]) == multiset(pre) + multiset{x};
    assert (PoleBag(popped, t) + multiset{x}) + multiset(pre) == PoleBag(p, t) + multiset(pre);
    Cancel(PoleBag(popped, t) + multiset{x}, PoleBag(p, t), multiset(pre));
  }

  /** Putting a block on a pole adds exactly that block to the bag. */
  lemma PushBag(p: Poles, t: nat, d: char, x: int)
    requires t <= 26 && HasPoles(p, t) && IsPole(d, t)
    ensures PoleBag(p[d := p[d] + [x]], t) == PoleBag(p, t) + multiset{x}
  {
    BagUpdate(p, d, p[d] + [x], t);
    assert multiset(p[d] + [x]) == multiset(p[d]) + multiset{x};
    assert PoleBag(p[d := p[d] + [x]], t) + multiset(p[d]) == (PoleBag(p, t) + multiset{x}) + multiset(p[d]);
    Cancel(PoleBag(p[d := p[d] + [x]], t), PoleBag(p, t) + multiset{x}, multiset(p[d]));
  }

  lemma TopsDiffer(p: Poles, n: nat, t: nat, o: char, d: char)
    requires Sound(p, n, t) && o in p && d in p && o != d && |p[o]| > 0 && |p[d]| > 0
    ensures Top(p[o]) != Top(p[d])
  {
    var x := Top(p[o]);
    LetterOfIndex(o, t);
    LetterOfIndex(d, t);
    BagHoldsPoles(p, t, IndexOf(o), IndexOf(d));
    CountDownOnce(n, x);
    assert p[o][|p[o]| - 1] in p[o] && Top(p[d]) in p[d];
  }

  lemma PushKeepsDescending(s: seq<int>, x: int)
    requires StrictlyDescending(s) && (|s| > 0 ==> x < Top(s))
    ensures StrictlyDescending(s + [x])
  {
  }

  /** A move that passes the rule keeps a sound state sound: every pole stays
      strictly descending and the blocks stay exactly 1 .. n. */
  lemma ValidMoveKeepsSound(p: Poles, n: nat, t: nat, m: string)
    requires Sound(p, n, t) && ValidMove(p, t, m)
    ensures Sound(Moved(p, m), n, t)
  {
    var o, d := m[0], m[1];
    var q := Moved(p, m);
    MoveConserves(p, t, m);
    if |p[d]| > 0 {
      TopsDiffer(p, n, t, o, d);
    }
    PushKeepsDescending(p[d], Top(p[o]));
    assert StrictlyDescending(q[d]);
    assert StrictlyDescending(q[o]);
    forall c | c in q
      ensures StrictlyDescending(q[c])
    {
      if c != o && c != d {
        assert q[c] == p[c];
      }
    }
  }

  /** The moves the game accepts, one after another: a move that fails the
      rule is refused and the state stays as it was. */
  function Step(p: Poles, t: nat, m: string): (q: Poles)
    requires HasPoles(p, t)
    ensures HasPoles(q, t)
  {
    if ValidMove(p, t, m) then Moved(p, m) else p
  }

  ghost function Play(p: Poles, t: nat, ms: seq<string>): (q: Poles)
    requires HasPoles(p, t)
    ensures HasPoles(q, t)
    decreases |ms|
  {
    if ms == [] then p else Play(Step(p, t, ms[0]), t, ms[1..])
  }

  /** Every state reachable from a sound one through the game's moves is sound. */
  lemma {:induction false} PlayKeepsSound(p: Poles, n: nat, t: nat, ms: seq<string>)
    requires Sound(p, n, t)
    ensures Sound(Play(p, t, ms), n, t)
    decreases |ms|
  {
    if ms != [] {
      if ValidMove(p, t, ms[0]) {
        ValidMoveKeepsSound(p, n, t, ms[0]);
      }
      PlayKeepsSound(Step(p, t, ms[0]), n, t, ms[1..]);
    }
  }

  /** So every state the game reaches from its start is sound. */
  lemma ReachableIsSound(p: Poles, n: nat, t: nat, ms: seq<string>)
    requires Config(n, t) && IsInitial(p, n, t)
    ensures Sound(Play(p, t, ms), n, t)
  {
    InitialIsSound(p, n, t);
    PlayKeepsSound(p, n, t, ms);
  }

  /** The moves `make_next_move` offers: the listed moves that pass the rule,
      in list order. */
  function FilterValid(p: Poles, t: nat, ms: seq<string>): seq<string>
    requires HasPoles(p, t)
  {
    if ms == [] then []
    else FilterValid(p, t, ms[..|ms| - 1])
         + (if ValidMove(p, t, ms[|ms| - 1]) then [ms[|ms| - 1]] else [])
  }

  lemma {:induction false} FilterValidExactly(p: Poles, t: nat, ms: seq<string>, m: string)
    requires HasPoles(p, t)
    ensures m in FilterValid(p, t, ms) <==> m in ms && ValidMove(p, t, m)
  {
    if ms != [] {
      FilterValidExactly(p, t, ms[..|ms| - 1], m);
      assert ms == ms[..|ms| - 1] + [ms[|ms| - 1]];
    }
  }
  /** The moves `make_next_move` offers are exactly the moves `Step`
      accepts. */
  lemma OfferedIsValid(p: Poles, t: nat, m: string)
    requires t <= 26 && HasPoles(p, t)
    ensures m in FilterValid(p, t, PossibleMoves(t)) <==> ValidMove(p, t, m)
  {
    FilterValidExactly(p, t, PossibleMoves(t), m);
    PossibleMovesExactly(t, m);
  }


  // ---------------------------------------------------------------------
  // Winning

  /** `player_has_won`: some pole other than the first holds n blocks. */
  predicate HasWon(p: Poles, n: nat, t: nat) {
    exists c :: c in p && c != Letter(0) && |p[c]| == n
  }

  lemma {:induction false} DescendingFits(s: seq<int>, lo: int, hi: int)
    requires StrictlyDescending(s) && lo <= hi + 1
    requires forall k :: 0 <= k < |s| ==> lo <= s[k] <= hi
    ensures |s| <= hi - lo + 1
    decreases |s|
  {
    if |s| > 1 {
      var r := s[1..];
      assert forall k :: 0 <= k < |r| ==> r[k] == s[k + 1] && r[k] < s[0];
      DescendingFits(r, lo, s[0] - 1);
    }
  }

  lemma {:induction false} DescendingFull(s: seq<int>, lo: int, hi: int)
    requires StrictlyDescending(s)
    requires forall k :: 0 <= k < |s| ==> lo <= s[k] <= hi
    requires |s| == hi - lo + 1
    ensures forall k :: 0 <= k < |s| ==> s[k] == hi - k
    decreases |s|
  {
    if |s| > 0 {
      if s[0] < hi {
        DescendingFits(s, lo, hi - 1);
      }
      DescendingFull(s[1..], lo, hi - 1);
      forall k | 0 < k < |s|
        ensures s[k] == hi - k
      {
        assert s[k] == s[1..][k - 1];
      }
    }
  }

  /** In a sound state a pole holding n blocks holds them all, in order:
      n at the bottom up to 1 on top. */
  lemma FullPoleIsSorted(p: Poles, n: nat, t: nat, c: char)
    requires Sound(p, n, t) && c in p && |p[c]| == n
    ensures p[c] == CountDown(n)
  {
    SoundPoleBounds(p, n, t, c);
    DescendingFull(p[c], 1, n);
    CountDownAt(n);
  }

  /** With a single pole the game can never be won. */
  lemma OnePoleNeverWins(p: Poles, n: nat)
    requires HasPoles(p, 1)
    ensures !HasWon(p, n, 1)
  {
  }

  /** The classic seven-move solution for three blocks on three poles. */
  const Solution: seq<string> := ["AC", "AB", "CB", "AC", "BA", "BC", "AC"]

  /** The eight states that the classic solution passes through. */
  function SolutionStates(): seq<Poles> {
    [ThreePoles([3, 2, 1], [], []), ThreePoles([3, 2], [], [1]), ThreePoles([3], [2], [1]),
     ThreePoles([3], [2, 1], []), ThreePoles([], [2, 1], [3]), ThreePoles([1], [2], [3]),
     ThreePoles([1], [], [3, 2]), ThreePoles([], [], [3, 2, 1])]
  }

  lemma SolutionStep(k: nat)
    requires k < |Solution|
    ensures HasPoles(SolutionStates()[k], 3)
    ensures Step(SolutionStates()[k], 3, Solution[k]) == SolutionStates()[k + 1]
  {
    if k < 2 {
      SolutionStepOpening(k);
    } else if k < 4 {
      SolutionStepEarly(k);
    } else {
      SolutionStepLate(k);
    }
  }

  lemma SolutionStepOpening(k: nat)
    requires k < 2
    ensures HasPoles(SolutionStates()[k], 3)
    ensures Step(SolutionStates()[k], 3, Solution[k]) == SolutionStates()[k + 1]
  {
    if k == 0 {
      ThreePolesHasPoles([3, 2, 1], [], []);
      StepThree([3, 2, 1], [], [], "AC", [3, 2], [], [1]);
    } else {
      ThreePolesHasPoles([3, 2], [], [1]);
      StepThree([3, 2], [], [1], "AB", [3], [2], [1]);
    }
  }

  lemma SolutionStepEarly(k: nat)
    requires 2 <= k < 4
    ensures HasPoles(SolutionStates()[k], 3)
    ensures Step(SolutionStates()[k], 3, Solution[k]) == SolutionStates()[k + 1]
  {
    if k == 2 {
      ThreePolesHasPoles([3], [2], [1]);
      StepThree([3], [2], [1], "CB", [3], [2, 1], []);
    } else {
      ThreePolesHasPoles([3], [2, 1], []);
      StepThree([3], [2, 1], [], "AC", [], [2, 1], [3]);
    }
  }

  lemma SolutionStepLate(k: nat)
    requires 4 <= k < |Solution|
    ensures HasPoles(SolutionStates()[k], 3)
    ensures Step(SolutionStates()[k], 3, Solution[k]) == SolutionStates()[k + 1]
  {
    if k == 4 {
      ThreePolesHasPoles([], [2, 1], [3]);
      StepThree([], [2, 1], [3], "BA", [1], [2], [3]);
    } else if k == 5 {
      ThreePolesHasPoles([1], [2], [3]);
      StepThree([1], [2], [3], "BC", [1], [], [3, 2]);
    } else {
      ThreePolesHasPoles([1], [], [3, 2]);
      StepThree([1], [], [3, 2], "AC", [], [], [3, 2, 1]);
    }
  }

  /** Playing the prefixes of the classic solution from the start with three
      blocks on three poles passes through SolutionStates in order. */
  lemma SolutionPlays(p: Poles)
    requires IsInitial(p, 3, 3)
    ensures forall k :: 0 <= k <= |Solution| ==> Play(p, 3, Solution[..k]) == SolutionStates()[k]
  {
    var st := SolutionStates();
    assert p == st[0] by {
      forall c | c in p ensures p[c] == st[0][c] {
        assert c == 'A' || c == 'B' || c == 'C';
      }
    }
    forall k | 0 <= k < |Solution|
      ensures HasPoles(st[k], 3) && Step(st[k], 3, Solution[k]) == st[k + 1]
    {
      SolutionStep(k);
    }
    PlaySteps(p, Solution, st);
  }

  /** No state the classic solution passes through before its last move is a
      win. */
  lemma SolutionNoEarlyWin(k: nat)
    requires k < |Solution|
    ensures !HasWon(SolutionStates()[k], 3, 3)
  {
    SolutionStep(k);
    NoThreeOffA(SolutionStates()[k]);
  }

  /** Playing the classic solution reaches a win with pole C holding 3, 2, 1,
      and no earlier state is a win. */
  lemma ThreeBlockSolution(p: Poles)
    requires IsInitial(p, 3, 3)
    ensures Play(p, 3, Solution)['C'] == [3, 2, 1]
    ensures HasWon(Play(p, 3, Solution), 3, 3)
    ensures forall k :: 0 <= k < |Solution| ==> !HasWon(Play(p, 3, Solution[..k]), 3, 3)
  {
    SolutionPlays(p);
    assert Solution[..|Solution|] == Solution;
    var last := SolutionStates()[|Solution|];
    assert last['C'] == [3, 2, 1] && 'C' != Letter(0);
    forall k | 0 <= k < |Solution| ensures !HasWon(Play(p, 3, Solution[..k]), 3, 3) {
      SolutionNoEarlyWin(k);
    }
  }

  /** The state with poles A, B and C holding a, b and c. */
  function ThreePoles(a: seq<int>, b: seq<int>, c: seq<int>): Poles {
    map['A' := a, 'B' := b, 'C' := c]
  }

  lemma ThreePolesHasPoles(a: seq<int>, b: seq<int>, c: seq<int>)
    ensures HasPoles(ThreePoles(a, b, c), 3)
  {
    forall ch ensures ch in ThreePoles(a, b, c) <==> IsPole(ch, 3) {
      assert IsPole(ch, 3) <==> ch == 'A' || ch == 'B' || ch == 'C';
    }
  }

  lemma StepThree(a: seq<int>, b: seq<int>, c: seq<int>, m: string, a': seq<int>, b': seq<int>, c': seq<int>)
    requires HasPoles(ThreePoles(a, b, c), 3) && ValidMove(ThreePoles(a, b, c), 3, m)
    requires var q := Moved(ThreePoles(a, b, c), m); q['A'] == a' && q['B'] == b' && q['C'] == c'
    ensures Step(ThreePoles(a, b, c), 3, m) == ThreePoles(a', b', c')
  {
    var q, r := Moved(ThreePoles(a, b, c), m), ThreePoles(a', b', c');
    assert q.Keys == r.Keys;
    forall ch | ch in q ensures q[ch] == r[ch] {
      assert ch == 'A' || ch == 'B' || ch == 'C';
    }
  }

  lemma NoThreeOffA(p: Poles)
    requires HasPoles(p, 3) && |p['B']| != 3 && |p['C']| != 3
    ensures !HasWon(p, 3, 3)
  {
  }

  lemma {:induction false} PlaySteps(p: Poles, ms: seq<string>, states: seq<Poles>)
    requires |states| == |ms| + 1 && states[0] == p && HasPoles(p, 3)
    requires forall k :: 0 <= k < |ms| ==> HasPoles(states[k], 3) && Step(states[k], 3, ms[k]) == states[k + 1]
    ensures forall k :: 0 <= k <= |ms| ==> Play(p, 3, ms[..k]) == states[k]
    decreases |ms|
  {
    if ms != [] {
      var next := Step(p, 3, ms[0]);
      PlaySteps(next, ms[1..], states[1..]);
      forall k | 0 < k <= |ms|
        ensures Play(p, 3, ms[..k]) == states[k]
      {
        assert ms[..k][1..] == ms[1..][..k - 1];
        assert ms[..k][0] == ms[0];
      }
      assert ms[..0] == [];
    }
  }

  // ---------------------------------------------------------------------
  // Rendering

  /** The thin pole segment drawn above a pole's blocks. */
  function PoleString(n: nat): string {
    Repeat(' ', n) + "||" + Repeat(' ', n)
  }

  /** `create_letter_string`: the pole's letter, centred. */
  function LetterString(n: nat, letter: char): string {
    Repeat(' ', n) + " " + [letter] + Repeat(' ', n)
  }

  /** `get_block_string`: a block of size b, its size written in the middle. */
  function BlockString(n: nat, b: int): string {
    Repeat(' ', n - b) + Repeat('@', b) + "_" + IntToString(b) + Repeat('@', b) + Repeat(' ', n - b)
  }

  /** The widths of the three kinds of cell. The letter and the pole segment
      are `string_length` = 2n + 2 wide; a block of size b in 0 .. n is
      2n + 1 + digits(b) wide and shows str(b) after n characters, so it is as
      wide as the others exactly when b is below 10. */
  lemma CellWidths(n: nat, letter: char, b: int)
    ensures |PoleString(n)| == 2 * n + 2 && |LetterString(n, letter)| == 2 * n + 2
    ensures 0 <= b <= n ==> |BlockString(n, b)| == 2 * n + 1 + |IntToString(b)|
    ensures 0 <= b <= n ==> BlockString(n, b)[n + 1..n + 1 + |IntToString(b)|] == IntToString(b)
    ensures 0 <= b <= n ==> (|BlockString(n, b)| == 2 * n + 2 <==> b < 10)
  {
    if 0 <= b <= n {
      var pad := Repeat(' ', n - b) + Repeat('@', b) + "_";
      assert |pad| == n + 1;
      assert BlockString(n, b) == pad + IntToString(b) + (Repeat('@', b) + Repeat(' ', n - b));
    }
  }

  /** What the grid holds at row r of column c once `populate_grid` has run:
      the letter on the last row; above it the pole's blocks, block j on row
      n - j; above those, up to row 0, the thin pole segment. */
  function Cell(p: Poles, n: nat, t: nat, r: nat, c: nat): string
    requires t <= 26 && HasPoles(p, t) && r < n + 2 && c < t && |p[Letter(c)]| <= n + 1
  {
    var s := p[Letter(c)];
    if r == n + 1 then LetterString(n, Letter(c))
    else if r <= n - |s| then PoleString(n)
    else BlockString(n, s[n - r])
  }

  /** A cell above the letter row is the pole segment down to row n - len and
      the pole's blocks below it. */
  lemma CellOfStack(p: Poles, n: nat, t: nat, r: nat, c: nat, x: string)
    requires t <= 26 && HasPoles(p, t) && r <= n && c < t && |p[Letter(c)]| <= n + 1
    requires r <= n - |p[Letter(c)]| ==> x == PoleString(n)
    requires r > n - |p[Letter(c)]| ==> x == BlockString(n, p[Letter(c)][n - r])
    ensures x == Cell(p, n, t, r, c)
  {
  }

  /** Rendering a sound state with fewer than ten blocks fills every cell of
      the N + 2 by T grid, at any row r and column c, with a string of the one
      width 2N + 2. */
  lemma CellIsUniform(p: Poles, n: nat, t: nat, r: nat, c: nat)
    requires Sound(p, n, t) && n < 10 && r < n + 2 && c < t
    ensures |p[Letter(c)]| <= n && |Cell(p, n, t, r, c)| == 2 * n + 2
  {
    var s := p[Letter(c)];
    SoundPoleBounds(p, n, t, Letter(c));
    CellWidths(n, Letter(c), 0);
    if r <= n && r > n - |s| {
      CellWidths(n, Letter(c), s[n - r]);
    }
  }

  // ---------------------------------------------------------------------
  // The program's module-level state, as one object

  class Game {
    /** NUMBER_OF_BLOCKS */
    const blocks: nat
    /** NUMBER_OF_TOWERS */
    const towers: nat
    var grid: array2<string>
    var stringLength: int
    var letterToBlocks: Poles
    var possibleMoves: seq<string>

    ghost predicate Valid()
      reads this
    {
      && Config(blocks, towers)
      && grid.Length0 == blocks + 2 && grid.Length1 == towers
      && stringLength == 2 * blocks + 2
      && HasPoles(letterToBlocks, towers)
      && possibleMoves == PossibleMoves(towers)
    }

    /** `initialize_game`: the grid, `string_length`, the poles and the move
        list, in that order. */
    constructor (n: nat, t: nat)
      requires Config(n, t)
      ensures Valid() && blocks == n && towers == t
      ensures IsInitial(letterToBlocks, n, t)
      ensures fresh(grid)
      ensures forall r, c :: 0 <= r < grid.Length0 && 0 <= c < grid.Length1 ==> grid[r, c] == "."
    {
      var g := InitializeGrid(n, t);
      blocks, towers := n, t;
      grid := g;
      stringLength := 2 * n + 2;
      letterToBlocks := map[];
      possibleMoves := [];
      new;
      CreateLettersAndBlocks();
      FindPossibleMoves();
    }

    /** `initialize_grid`: N + 2 rows of T cells, each ".". */
    static method InitializeGrid(n: nat, t: nat) returns (g: array2<string>)
      ensures fresh(g) && g.Length0 == n + 2 && g.Length1 == t
      ensures forall r, c :: 0 <= r < n + 2 && 0 <= c < t ==> g[r, c] == "."
    {
      g := new string[n + 2, t]((r, c) => ".");
    }

    /** `create_letters_and_blocks`. */
    method CreateLettersAndBlocks()
      requires Config(blocks, towers)
      modifies this`letterToBlocks
      ensures IsInitial(letterToBlocks, blocks, towers)
    {
      letterToBlocks := map[];
      for i := 0 to towers
        invariant HasPoles(letterToBlocks, i)
        invariant forall c :: c in letterToBlocks ==> letterToBlocks[c] == []
      {
        letterToBlocks := letterToBlocks[Letter(i) := []];
      }
      var firstPole := Letter(0);
      letterToBlocks := letterToBlocks[firstPole := CountDown(blocks)];
    }

    /** `find_possible_moves`: for each origin, for each destination, the
        two-letter move when they differ. */
    method FindPossibleMoves()
      requires Config(blocks, towers) && HasPoles(letterToBlocks, towers)
      modifies this`possibleMoves
      ensures possibleMoves == PossibleMoves(towers)
    {
      possibleMoves := [];
      for start := 0 to towers
        invariant possibleMoves == MovesBelow(start, towers)
      {
        for end := 0 to towers
          invariant possibleMoves == MovesBelow(start, towers) + MovesFrom(start, end)
        {
          if start != end {
            possibleMoves := possibleMoves + [[Letter(start), Letter(end)]];
          }
        }
      }
    }

    /** `check_if_move_is_valid`. */
    method CheckIfMoveIsValid(proposedMove: string) returns (valid: bool)
      requires Valid()
      ensures valid == ValidMove(letterToBlocks, towers, proposedMove)
    {
      PossibleMovesExactly(towers, proposedMove);
      if proposedMove !in possibleMoves {
        return false;
      }
      var startBlocks := letterToBlocks[proposedMove[0]];
      var endBlocks := letterToBlocks[proposedMove[1]];
      if |startBlocks| == 0 {
        valid := false;
      } else if |endBlocks| == 0 {
        valid := true;
      } else if startBlocks[|startBlocks| - 1] > endBlocks[|endBlocks| - 1] {
        valid := false;
      } else {
        valid := true;
      }
    }

    /** `make_move`: pop the origin's top block, append it to the destination.
        On a move that passed the rule, a sound state stays sound. */
    method MakeMove(proposedMove: string)
      requires Valid()
      requires |proposedMove| >= 2 && proposedMove[0] in letterToBlocks && proposedMove[1] in letterToBlocks
      requires |letterToBlocks[proposedMove[0]]| > 0
      modifies this`letterToBlocks
      ensures Valid()
      ensures letterToBlocks == Moved(old(letterToBlocks), proposedMove)
      ensures old(Sound(letterToBlocks, blocks, towers) && ValidMove(letterToBlocks, towers, proposedMove))
              ==> Sound(letterToBlocks, blocks, towers)
    {
      ghost var before := letterToBlocks;
      var startBlocks := letterToBlocks[proposedMove[0]];
      var blockToMove := startBlocks[|startBlocks| - 1];
      letterToBlocks := letterToBlocks[proposedMove[0] := startBlocks[..|startBlocks| - 1]];
      var endBlocks := letterToBlocks[proposedMove[1]];
      letterToBlocks := letterToBlocks[proposedMove[1] := endBlocks + [blockToMove]];
      if Sound(before, blocks, towers) && ValidMove(before, towers, proposedMove) {
        ValidMoveKeepsSound(before, blocks, towers, proposedMove);
      }
    }

    /** The `valid_moves` list of `make_next_move`: the listed moves that
        pass the rule, in list order. */
    method ValidMoves() returns (validMoves: seq<string>)
      requires Valid()
      ensures validMoves == FilterValid(letterToBlocks, towers, possibleMoves)
      ensures forall m :: m in validMoves <==> m in possibleMoves && ValidMove(letterToBlocks, towers, m)
    {
      validMoves := [];
      for k := 0 to |possibleMoves|
        invariant validMoves == FilterValid(letterToBlocks, towers, possibleMoves[..k])
      {
        var ok := CheckIfMoveIsValid(possibleMoves[k]);
        assert possibleMoves[..k + 1][..k] == possibleMoves[..k];
        if ok {
          validMoves := validMoves + [possibleMoves[k]];
        }
      }
      assert possibleMoves[..|possibleMoves|] == possibleMoves;
      forall m ensures m in validMoves <==> m in possibleMoves && ValidMove(letterToBlocks, towers, m) {
        FilterValidExactly(letterToBlocks, towers, possibleMoves, m);
      }
    }

    /** `player_has_won`: some pole other than the first holds every block. */
    method PlayerHasWon() returns (won: bool)
      requires Valid()
      ensures won == HasWon(letterToBlocks, blocks, towers)
    {
      for i := 0 to towers
        invariant forall k :: 0 < k < i ==> |letterToBlocks[Letter(k)]| != blocks
      {
        var letter := Letter(i);
        if letter != Letter(0) && |letterToBlocks[letter]| == blocks {
          assert letter in letterToBlocks;
          return true;
        }
      }
      forall c | c in letterToBlocks && c != Letter(0)
        ensures |letterToBlocks[c]| != blocks
      {
        LetterOfIndex(c, towers);
      }
      return false;
    }

    /** `add_letter_to_grid`: the pole's letter on the last row of its column. */
    method AddLetterToGrid(i: nat)
      requires Valid() && i < towers
      modifies grid
      ensures grid[blocks + 1, i] == LetterString(blocks, Letter(i))
      ensures forall r, c :: 0 <= r < grid.Length0 && 0 <= c < grid.Length1 && (r, c) != (blocks + 1, i) ==>
                grid[r, c] == old(grid[r, c])
    {
      var letter := Letter(i);
      var letterString := LetterString(blocks, letter);
      grid[blocks + 1, i] := letterString;
    }

    /** `stack_blocks_on_letter`: block j on row N - j of column i, then the
        thin pole segment on rows 0 .. N - len; every row but the letter row
        of that column is written, and no other cell. */
    method StackBlocksOnLetter(i: nat)
      requires Valid() && i < towers && |letterToBlocks[Letter(i)]| <= blocks + 1
      modifies grid
      ensures forall r, c :: 0 <= r < grid.Length0 && 0 <= c < grid.Length1 && c != i ==> grid[r, c] == old(grid[r, c])
      ensures forall r :: 0 <= r <= blocks ==> grid[r, i] == Cell(letterToBlocks, blocks, towers, r, i)
      ensures grid[blocks + 1, i] == old(grid[blocks + 1, i])
    {
      var letter := Letter(i);
      var blockList := letterToBlocks[letter];
      var n := blocks;
      DrawBlocks(i, blockList);
      var rowsWithoutBlocks := n - |blockList| + 1;
      DrawPoleAbove(i, blockList, rowsWithoutBlocks);
      forall r | 0 <= r <= n
        ensures grid[r, i] == Cell(letterToBlocks, n, towers, r, i)
      {
        CellOfStack(letterToBlocks, n, towers, r, i, grid[r, i]);
      }
    }

    /** The first loop of `stack_blocks_on_letter`: block j of the pole goes to
        row N - j of column i. */
    method DrawBlocks(i: nat, blockList: seq<int>)
      requires Valid() && i < towers && |blockList| <= blocks + 1
      modifies grid
      ensures forall r, c :: 0 <= r < grid.Length0 && 0 <= c < grid.Length1 && c != i ==> grid[r, c] == old(grid[r, c])
      ensures forall r :: blocks - |blockList| < r <= blocks ==> grid[r, i] == BlockString(blocks, blockList[blocks - r])
      ensures forall r :: 0 <= r <= blocks - |blockList| || r == blocks + 1 ==> grid[r, i] == old(grid[r, i])
    {
      var n := blocks;
      for j := 0 to |blockList|
        invariant forall r, c :: 0 <= r < grid.Length0 && 0 <= c < grid.Length1 && c != i ==> grid[r, c] == old(grid[r, c])
        invariant forall r :: n - j < r <= n ==> grid[r, i] == BlockString(n, blockList[n - r])
        invariant forall r :: 0 <= r <= n - j || r == n + 1 ==> grid[r, i] == old(grid[r, i])
      {
        var blockString := BlockString(n, blockList[j]);
        grid[n - j, i] := blockString;
        assert blockList[n - (n - j)] == blockList[j];
      }
    }

    /** The second loop of `stack_blocks_on_letter`: the thin pole segment on
        the first `rows` rows of column i. */
    method DrawPoleAbove(i: nat, blockList: seq<int>, rows: int)
      requires Valid() && i < towers && |blockList| <= blocks + 1 && rows == blocks - |blockList| + 1
      modifies grid
      ensures forall r, c :: 0 <= r < grid.Length0 && 0 <= c < grid.Length1 && c != i ==> grid[r, c] == old(grid[r, c])
      ensures forall r :: 0 <= r < rows ==> grid[r, i] == PoleString(blocks)
      ensures forall r :: rows <= r < grid.Length0 ==> grid[r, i] == old(grid[r, i])
    {
      for row := 0 to rows
        invariant forall r, c :: 0 <= r < grid.Length0 && 0 <= c < grid.Length1 ==>
                    grid[r, c] == if c == i && r < row then PoleString(blocks) else old(grid[r, c])
      {
        grid[row, i] := PoleString(blocks);
      }
    }

    /** `populate_grid`: every column's letter and stack; afterwards every
        cell of the grid is the rendering of the current state. */
    method PopulateGrid()
      requires Valid()
      requires forall c :: c in letterToBlocks ==> |letterToBlocks[c]| <= blocks + 1
      modifies grid
      ensures forall r, c :: 0 <= r < grid.Length0 && 0 <= c < grid.Length1 ==>
                grid[r, c] == Cell(letterToBlocks, blocks, towers, r, c)
    {
      for i := 0 to towers
        invariant forall r, c :: 0 <= r < grid.Length0 && 0 <= c < grid.Length1 ==>
                    grid[r, c] == if c < i then Cell(letterToBlocks, blocks, towers, r, c) else old(grid[r, c])
      {
        AddLetterToGrid(i);
        StackBlocksOnLetter(i);
      }
    }
  }
}
