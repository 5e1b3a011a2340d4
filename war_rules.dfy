/**
  The rules of the two-player War game as value-level functions: how the shuffled
  deck is dealt, how one hand is resolved (ties escalate into a war that draws a
  hidden pair and then a new face-up pair), who takes a hand when a deck runs out
  in the middle of it, and the loop of hands that makes up a game. The engine
  class in module Games is proved against these functions.
 */
module WarRules {
  import opened Values
  import opened Cards

  // ---------------------------------------------------------------------------
  // Dealing
  // ---------------------------------------------------------------------------

  /**
    The cards of `s` dealt to `player` when card `i` goes to player `i % 2`,
    kept in draw order.
   */
  function Dealt(s: seq<Card>, player: nat): seq<Card>
    decreases |s|
  {
    if s == [] then []
    else Dealt(s[..|s| - 1], player) + (if (|s| - 1) % 2 == player then [s[|s| - 1]] else [])
  }

  /** Player 0 receives the ceiling of half the deck, player 1 the floor. */
  lemma {:induction false} DealtLength(s: seq<Card>)
    ensures |Dealt(s, 0)| == (|s| + 1) / 2
    ensures |Dealt(s, 1)| == |s| / 2
    decreases |s|
  {
    if s != [] {
      DealtLength(s[..|s| - 1]);
    }
  }

  /** The k-th card dealt to a player is card 2k + player of the deck. */
  lemma {:induction false} DealtAt(s: seq<Card>, player: nat, k: nat)
    requires player < 2
    requires k < |Dealt(s, player)|
    ensures 2 * k + player < |s|
    ensures Dealt(s, player)[k] == s[2 * k + player]
    decreases |s|
  {
    var init := s[..|s| - 1];
    DealtLength(s);
    DealtLength(init);
    if k < |Dealt(init, player)| {
      DealtAt(init, player, k);
    }
  }

  /** Dealing one more card appends it to the hand of player `i % 2` only, after whatever that hand held before. */
  lemma DealtStep(start: seq<Card>, s: seq<Card>, i: nat, player: nat)
    requires i < |s|
    ensures start + Dealt(s[..i + 1], player) == start + Dealt(s[..i], player) + (if i % 2 == player then [s[i]] else [])
  {
    assert s[..i + 1][..i] == s[..i];
  }

  /** Dealing neither loses nor invents a card. */
  lemma {:induction false} DealtConserves(s: seq<Card>)
    ensures multiset(Dealt(s, 0)) + multiset(Dealt(s, 1)) == multiset(s)
    decreases |s|
  {
    if s != [] {
      var init := s[..|s| - 1];
      DealtConserves(init);
      assert s == init + [s[|s| - 1]];
    }
  }

  // ---------------------------------------------------------------------------
  // One hand
  // ---------------------------------------------------------------------------

  /** How the comparison of a hand ends: a player takes it, or a pick hit an empty deck. */
  datatype HandOutcome = Won(player: nat) | PickFailed

  /** Both players' decks and the cards already played in the current hand. */
  datatype Table = Table(deck0: seq<Card>, deck1: seq<Card>, played: seq<Card>)

  function TableCards(t: Table): multiset<Card>
  {
    multiset(t.deck0) + multiset(t.deck1) + multiset(t.played)
  }

  /** Cards drawn alternately from `a` and `b`, starting with `a`. */
  function Interleave<T>(a: seq<T>, b: seq<T>): (r: seq<T>)
    requires |b| <= |a| <= |b| + 1
    ensures |r| == |a| + |b|
    decreases |a|
  {
    if a == [] then []
    else if b == [] then [a[0]]
    else [a[0], b[0]] + Interleave(a[1..], b[1..])
  }

  /** An interleaving holds exactly the cards of both stretches. */
  lemma {:induction false} InterleaveConserves<T>(a: seq<T>, b: seq<T>)
    requires |b| <= |a| <= |b| + 1
    ensures multiset(Interleave(a, b)) == multiset(a) + multiset(b)
    decreases |a|
  {
    if a == [] {
    } else if b == [] {
      MultisetFront(a);
    } else {
      InterleaveConserves(a[1..], b[1..]);
      MultisetFront(a);
      MultisetFront(b);
      MultisetFront(Interleave(a, b));
      MultisetFront(Interleave(a, b)[1..]);
    }
  }

  /** The multiset of a non-empty sequence is its front card plus the rest. */
  lemma MultisetFront<T>(s: seq<T>)
    requires s != []
    ensures multiset(s) == multiset{s[0]} + multiset(s[1..])
  {
    assert s == [s[0]] + s[1..];
  }

  /** Cutting a sequence in two splits its multiset the same way. */
  lemma MultisetSplit<T>(s: seq<T>, k: nat)
    requires k <= |s|
    ensures multiset(s) == multiset(s[..k]) + multiset(s[k..])
  {
    assert s == s[..k] + s[k..];
  }

  /** Player 0's cards sit at the even positions of an interleaving, player 1's at the odd ones. */
  lemma {:induction false} InterleaveAt<T>(a: seq<T>, b: seq<T>, j: nat)
    requires |b| <= |a| <= |b| + 1
    ensures j < |a| ==> Interleave(a, b)[2 * j] == a[j]
    ensures j < |b| ==> Interleave(a, b)[2 * j + 1] == b[j]
    decreases |a|
  {
    if a != [] && b != [] && j > 0 {
      var rest := Interleave(a[1..], b[1..]);
      assert Interleave(a, b) == [a[0], b[0]] + rest;
      InterleaveAt(a[1..], b[1..], j - 1);
      if j < |a| {
        assert Interleave(a, b)[2 * j] == rest[2 * (j - 1)];
      }
      if j < |b| {
        assert Interleave(a, b)[2 * j + 1] == rest[2 * (j - 1) + 1];
      }
    }
  }

  /** Interleavings of equal-length stretches concatenate. */
  lemma {:induction false} InterleaveAppend<T>(a: seq<T>, b: seq<T>, a': seq<T>, b': seq<T>)
    requires |a| == |b| && |b'| <= |a'| <= |b'| + 1
    ensures Interleave(a + a', b + b') == Interleave(a, b) + Interleave(a', b')
    decreases |a|
  {
    if a != [] {
      var aa, bb := a + a', b + b';
      assert aa[0] == a[0] && aa[1..] == a[1..] + a';
      assert bb[0] == b[0] && bb[1..] == b[1..] + b';
      assert Interleave(aa, bb) == [a[0], b[0]] + Interleave(a[1..] + a', b[1..] + b');
      InterleaveAppend(a[1..], b[1..], a', b');
    } else {
      assert a + a' == a' && b + b' == b';
    }
  }

  /** The cards played between `t` and `u`. */
  function Drawn(t: Table, u: Table): seq<Card>
    requires |t.played| <= |u.played|
  {
    u.played[|t.played|..]
  }

  /**
    `u` follows from `t` by alternating picks, player 0 first: each deck lost
    only cards from its front, and the played list grew by exactly those cards,
    interleaved in pick order.
   */
  ghost predicate DrawnAlternately(t: Table, u: Table)
  {
    var k0, k1 := |t.deck0| - |u.deck0|, |t.deck1| - |u.deck1|;
    && 0 <= k1 <= k0 <= k1 + 1
    && u.deck0 == t.deck0[k0..] && u.deck1 == t.deck1[k1..]
    && u.played == t.played + Interleave(t.deck0[..k0], t.deck1[..k1])
  }

  /** The whole rounds of a war: each block of four cards opens with a tied face-up pair. */
  ghost predicate TiedRounds(d: seq<Card>)
    decreases |d|
  {
    d == [] || (|d| >= 4 && IsEqualTo(d[0], d[1]) && TiedRounds(d[4..]))
  }

  /**
    Player 0 picks, then player 1 picks; each drawn card is appended to the played
    list. The result is false when a pick hits an empty deck; a card player 0
    drew before player 1's pick failed stays played.
   */
  function PlayCards(t: Table): (r: (bool, Table))
    ensures r.0 <==> t.deck0 != [] && t.deck1 != []
    ensures r.0 ==> |r.1.played| == |t.played| + 2
    ensures !r.0 ==>
      (r.1.deck0 == [] && |r.1.played| == |t.played|) || (r.1.deck1 == [] && |r.1.played| == |t.played| + 1)
  {
    if t.deck0 == [] then
      (false, t)
    else if t.deck1 == [] then
      (false, Table(t.deck0[1..], t.deck1, t.played + [t.deck0[0]]))
    else
      (true, Table(t.deck0[1..], t.deck1[1..], t.played + [t.deck0[0], t.deck1[0]]))
  }

  /** A pair of picks is an alternating draw. */
  lemma PlayCardsDrawsAlternately(t: Table)
    ensures DrawnAlternately(t, PlayCards(t).1)
  {
    var u := PlayCards(t).1;
    if t.deck0 == [] {
      InterleaveFront(t.deck0, t.deck1, 0, 0);
      DrawnAlternatelyIntro(t, u, 0, 0);
    } else if t.deck1 == [] {
      InterleaveFront(t.deck0, t.deck1, 1, 0);
      DrawnAlternatelyIntro(t, u, 1, 0);
    } else {
      InterleaveFront(t.deck0, t.deck1, 1, 1);
      DrawnAlternatelyIntro(t, u, 1, 1);
    }
  }

  /** The interleaving of at most one card from each deck is those cards in pick order. */
  lemma InterleaveFront(d0: seq<Card>, d1: seq<Card>, k0: nat, k1: nat)
    requires k1 <= k0 <= 1 && k0 <= |d0| && k1 <= |d1|
    ensures k0 == 0 ==> Interleave(d0[..k0], d1[..k1]) == []
    ensures k0 == 1 && k1 == 0 ==> Interleave(d0[..k0], d1[..k1]) == [d0[0]]
    ensures k1 == 1 ==> Interleave(d0[..k0], d1[..k1]) == [d0[0], d1[0]]
  {
    var a, b := d0[..k0], d1[..k1];
    if k1 == 1 {
      assert a == [d0[0]] && b == [d1[0]];
      assert a[1..] == [] && b[1..] == [];
      assert Interleave(a, b) == [d0[0], d1[0]] + Interleave(a[1..], b[1..]);
    } else if k0 == 1 {
      assert a == [d0[0]] && b == [];
    }
  }

  /** Cutting `k0` and `k1` cards from the fronts and playing their interleaving is an alternating draw. */
  lemma DrawnAlternatelyIntro(t: Table, u: Table, k0: nat, k1: nat)
    requires k1 <= k0 <= k1 + 1 && k0 <= |t.deck0| && k1 <= |t.deck1|
    requires u.deck0 == t.deck0[k0..] && u.deck1 == t.deck1[k1..]
    requires u.played == t.played + Interleave(t.deck0[..k0], t.deck1[..k1])
    ensures DrawnAlternately(t, u)
  {
  }

  /** Alternating draws compose when the first stretch ends after a whole pair. */
  lemma DrawnAlternatelyTrans(t: Table, u: Table, v: Table)
    requires DrawnAlternately(t, u) && DrawnAlternately(u, v)
    requires |t.deck0| - |u.deck0| == |t.deck1| - |u.deck1|
    ensures DrawnAlternately(t, v)
  {
    var k := |t.deck0| - |u.deck0|;
    var m0, m1 := |u.deck0| - |v.deck0|, |u.deck1| - |v.deck1|;
    InterleaveChain(t.deck0, t.deck1, k, m0, m1);
    AppendAssoc(t.played, Interleave(t.deck0[..k], t.deck1[..k]), Interleave(u.deck0[..m0], u.deck1[..m1]));
    assert v.deck0 == t.deck0[k + m0..] && v.deck1 == t.deck1[k + m1..];
  }

  /** Interleaving two stretches of whole pairs and then more cards is one interleaving of the longer stretches. */
  lemma InterleaveChain(d0: seq<Card>, d1: seq<Card>, k: nat, m0: nat, m1: nat)
    requires k + m0 <= |d0| && k + m1 <= |d1| && m1 <= m0 <= m1 + 1
    ensures Interleave(d0[..k + m0], d1[..k + m1]) == Interleave(d0[..k], d1[..k]) + Interleave(d0[k..][..m0], d1[k..][..m1])
  {
    assert d0[k..][..m0] == d0[k..k + m0];
    assert d1[k..][..m1] == d1[k..k + m1];
    assert d0[..k + m0] == d0[..k] + d0[k..][..m0];
    assert d1[..k + m1] == d1[..k] + d1[k..][..m1];
    InterleaveAppend(d0[..k], d1[..k], d0[k..][..m0], d1[k..][..m1]);
  }

  /** Concatenation is associative; stated once so that callers need not rediscover it. */
  lemma AppendAssoc<T>(x: seq<T>, y: seq<T>, z: seq<T>)
    ensures x + y + z == x + (y + z)
  {
  }

  /** Alternating draws neither lose nor invent a card. */
  lemma DrawnAlternatelyConserves(t: Table, u: Table)
    requires DrawnAlternately(t, u)
    ensures TableCards(u) == TableCards(t)
    ensures |u.deck0| + |u.deck1| + |u.played| == |t.deck0| + |t.deck1| + |t.played|
  {
    var k0, k1 := |t.deck0| - |u.deck0|, |t.deck1| - |u.deck1|;
    MultisetSplit(t.deck0, k0);
    MultisetSplit(t.deck1, k1);
    InterleaveConserves(t.deck0[..k0], t.deck1[..k1]);
  }

  /**
    The recursive comparison of a hand. A pair is drawn and compared by rank; the
    higher card takes the hand. On equal ranks a hidden pair is drawn and the
    comparison starts again with a fresh face-up pair, all drawn cards staying
    in the same played list.
   */
  function Fight(t: Table): (r: (HandOutcome, Table))
    decreases |t.deck0| + |t.deck1|
    ensures |r.1.played| >= |t.played|
    ensures r.0.Won? ==> r.0.player < 2 && |r.1.played| >= |t.played| + 2
  {
    var (ok, t1) := PlayCards(t);
    if !ok then
      (PickFailed, t1)
    else
      var c0, c1 := t1.played[|t1.played| - 2], t1.played[|t1.played| - 1];
      if IsGreaterThan(c0, c1) then
        (Won(0), t1)
      else if IsGreaterThan(c1, c0) then
        (Won(1), t1)
      else
        var (ok2, t2) := PlayCards(t1);
        if !ok2 then
          (PickFailed, t2)
        else
          Fight(t2)
  }

  /** The deck that ran out is the one whose turn it was: player 0's after whole pairs, player 1's after an odd card. */
  ghost predicate FailedOnTurn(t: Table, u: Table)
  {
    || (u.deck0 == [] && |t.deck0| - |u.deck0| == |t.deck1| - |u.deck1|)
    || (u.deck1 == [] && |t.deck0| - |u.deck0| == |t.deck1| - |u.deck1| + 1)
  }

  /**
    A hand draws alternately, player 0 first; when it ends on a failed pick,
    the deck that ran out is the one whose turn it was.
   */
  lemma {:induction false} FightDrawsAlternately(t: Table)
    decreases |t.deck0| + |t.deck1|
    ensures DrawnAlternately(t, Fight(t).1)
    ensures Fight(t).0.PickFailed? ==> FailedOnTurn(t, Fight(t).1)
  {
    var (ok, t1) := PlayCards(t);
    PlayCardsDrawsAlternately(t);
    if ok {
      var c0, c1 := t1.played[|t1.played| - 2], t1.played[|t1.played| - 1];
      if !IsGreaterThan(c0, c1) && !IsGreaterThan(c1, c0) {
        var (ok2, t2) := PlayCards(t1);
        PlayCardsDrawsAlternately(t1);
        DrawnAlternatelyTrans(t, t1, t2);
        if ok2 {
          FightDrawsAlternately(t2);
          DrawnAlternatelyTrans(t, t2, Fight(t2).1);
        }
      }
    }
  }

  /** The cards drawn while a hand is compared, in play order. */
  function HandCards(t: Table): seq<Card>
  {
    var u := Fight(t).1;
    assert |t.played| <= |u.played|;
    Drawn(t, u)
  }

  /**
    The shape of the cards `d` of a hand won by `player`: whole war rounds (a
    tied face-up pair and a hidden pair each) followed by the deciding pair,
    whose card of `player` ranks higher.
   */
  ghost predicate WonShape(player: nat, d: seq<Card>)
  {
    && |d| >= 2
    && TiedRounds(d[..|d| - 2])
    && (player == 0 <==> IsGreaterThan(d[|d| - 2], d[|d| - 1]))
    && (player == 1 <==> IsGreaterThan(d[|d| - 1], d[|d| - 2]))
  }

  /** Every won hand has the shape above. */
  lemma {:induction false} WonHandShape(t: Table)
    requires Fight(t).0.Won?
    ensures WonShape(Fight(t).0.player, HandCards(t))
    decreases |t.deck0| + |t.deck1|
  {
    var t1 := PlayCards(t).1;
    var c0, c1 := t1.played[|t1.played| - 2], t1.played[|t1.played| - 1];
    if IsGreaterThan(c0, c1) || IsGreaterThan(c1, c0) {
      WonWithoutWar(t);
    } else {
      var t2 := FightWar(t);
      WonHandShape(t2);
      var u := Fight(t).1;
      FightDrawsAlternately(t2);
      DrawnSplit(t, t2, u);
      WarRound(HandCards(t), Drawn(t, t2), HandCards(t2), Fight(t).0.player);
    }
  }

  /** A hand decided by its first pair. */
  lemma WonWithoutWar(t: Table)
    requires Fight(t).0.Won?
    requires var t1 := PlayCards(t).1; var n := |t1.played|;
      IsGreaterThan(t1.played[n - 2], t1.played[n - 1]) || IsGreaterThan(t1.played[n - 1], t1.played[n - 2])
    ensures WonShape(Fight(t).0.player, HandCards(t))
  {
    var t1 := PlayCards(t).1;
    var c0, c1 := t1.played[|t1.played| - 2], t1.played[|t1.played| - 1];
    Trichotomy(c0, c1);
    assert Fight(t).1 == t1;
    var d := Drawn(t, t1);
    assert d[..|d| - 2] == [];
  }

  /** A war round (tied pair, hidden pair) prepended to the rest of a won hand keeps its shape. */
  lemma WarRound(d: seq<Card>, round: seq<Card>, rest: seq<Card>, player: nat)
    requires d == round + rest
    requires |round| == 4 && IsEqualTo(round[0], round[1])
    requires WonShape(player, rest)
    ensures WonShape(player, d)
  {
    assert d[..|d| - 2][4..] == rest[..|rest| - 2];
    assert d[|d| - 2] == rest[|rest| - 2] && d[|d| - 1] == rest[|rest| - 1];
  }

  /**
    When the first pair of a hand ties and the hidden pair is drawn, the hand
    is decided by the comparison that follows.
   */
  lemma FightWar(t: Table) returns (t2: Table)
    requires Fight(t).0.Won?
    requires var t1 := PlayCards(t).1; var n := |t1.played|;
      !IsGreaterThan(t1.played[n - 2], t1.played[n - 1]) && !IsGreaterThan(t1.played[n - 1], t1.played[n - 2])
    ensures Fight(t) == Fight(t2)
    ensures |t2.played| == |t.played| + 4 && t2.played[..|t.played|] == t.played
    ensures IsEqualTo(t2.played[|t.played|], t2.played[|t.played| + 1])
    ensures |t2.deck0| + |t2.deck1| < |t.deck0| + |t.deck1|
  {
    var t1 := PlayCards(t).1;
    t2 := PlayCards(t1).1;
    Trichotomy(t1.played[|t1.played| - 2], t1.played[|t1.played| - 1]);
    assert t2.played[..|t1.played|] == t1.played;
  }

  /** The cards drawn over two consecutive stretches are those of the first followed by those of the second. */
  lemma DrawnSplit(t: Table, m: Table, u: Table)
    requires |t.played| <= |m.played| && m.played[..|t.played|] == t.played
    requires DrawnAlternately(m, u)
    ensures |t.played| <= |u.played|
    ensures Drawn(t, u) == Drawn(t, m) + Drawn(m, u)
  {
  }

  /** A sequence of whole war rounds has a length divisible by four. */
  lemma {:induction false} TiedRoundsLength(d: seq<Card>) returns (rounds: nat)
    requires TiedRounds(d)
    ensures |d| == 4 * rounds
    decreases |d|
  {
    if d == [] {
      rounds := 0;
    } else {
      rounds := TiedRoundsLength(d[4..]);
      rounds := rounds + 1;
    }
  }

  /**
    A won hand draws 4k + 2 cards: one face-up pair, plus a hidden and a new
    face-up pair for each of the k wars.
   */
  lemma WonHandDrawsTwoPairsPerWar(t: Table) returns (wars: nat)
    requires Fight(t).0.Won?
    ensures |HandCards(t)| == 4 * wars + 2
  {
    WonHandShape(t);
    var d := HandCards(t);
    wars := TiedRoundsLength(d[..|d| - 2]);
  }

  /** The winner of a hand whose comparison failed: `|playedCount % 2 - 1|`. */
  function ParityWinner(playedCount: nat): (w: nat)
    ensures w < 2
    ensures w == 1 <==> playedCount % 2 == 0
  {
    var x := playedCount % 2 - 1;
    if x < 0 then -x else x
  }

  /** An even count names player 1, an odd count player 0. */
  lemma ParityOfPairs(n: nat, k: nat)
    requires n == 2 * k || n == 2 * k + 1
    ensures ParityWinner(n) == if n == 2 * k then 1 else 0
  {
  }

  /**
    One hand, starting from an empty played list: the winner of the comparison,
    or, when a pick failed, the player given by the parity of the played count.
   */
  function ResolveHand(deck0: seq<Card>, deck1: seq<Card>): (r: (nat, Table))
    ensures r.0 < 2
  {
    var t0 := Table(deck0, deck1, []);
    var (o, t) := Fight(t0);
    match o
    case Won(p) => (p, t)
    case PickFailed => (ParityWinner(|t.played|), t)
  }

  /** Resolving a hand moves cards from the decks to the played list, losing and inventing none. */
  lemma ResolveHandConserves(deck0: seq<Card>, deck1: seq<Card>)
    ensures TableCards(ResolveHand(deck0, deck1).1) == multiset(deck0) + multiset(deck1)
    ensures var t := ResolveHand(deck0, deck1).1; |t.deck0| + |t.deck1| + |t.played| == |deck0| + |deck1|
  {
    var t0 := Table(deck0, deck1, []);
    FightDrawsAlternately(t0);
    DrawnAlternatelyConserves(t0, Fight(t0).1);
  }

  /**
    When a pick fails during a hand, the parity formula gives the hand to the
    player whose pick did not fail: player 1 exactly when player 0's pick
    failed (after whole pairs), player 0 exactly when player 1's pick failed
    (after player 0's card of a pair). The loser's deck is then empty.
   */
  lemma FailedPickGoesToOtherPlayer(deck0: seq<Card>, deck1: seq<Card>)
    requires Fight(Table(deck0, deck1, [])).0.PickFailed?
    ensures var r := ResolveHand(deck0, deck1);
      var k0, k1 := |deck0| - |r.1.deck0|, |deck1| - |r.1.deck1|;
      && (r.0 == 1 <==> r.1.deck0 == [] && k0 == k1)
      && (r.0 == 0 <==> r.1.deck1 == [] && k0 == k1 + 1)
    ensures var r := ResolveHand(deck0, deck1);
      && (r.0 == 0 ==> r.1.deck1 == [])
      && (r.0 == 1 ==> r.1.deck0 == [])
  {
    var t0 := Table(deck0, deck1, []);
    var t := Fight(t0).1;
    FightDrawsAlternately(t0);
    var k0, k1 := |deck0| - |t.deck0|, |deck1| - |t.deck1|;
    assert |t.played| == k0 + k1;
    ParityOfPairs(|t.played|, k1);
    assert ResolveHand(deck0, deck1) == (ParityWinner(|t.played|), t);
  }

  /** The body of the game loop: resolve a hand and append its played cards to the winner's deck. */
  function PlayHand(deck0: seq<Card>, deck1: seq<Card>): (r: (seq<Card>, seq<Card>))
  {
    var (w, t) := ResolveHand(deck0, deck1);
    if w == 0 then (t.deck0 + t.played, t.deck1) else (t.deck0, t.deck1 + t.played)
  }

  /** A hand neither loses nor invents a card: the two decks hold the same cards before and after. */
  lemma PlayHandConserves(deck0: seq<Card>, deck1: seq<Card>)
    ensures Holding(PlayHand(deck0, deck1).0, PlayHand(deck0, deck1).1) == Holding(deck0, deck1)
  {
    ResolveHandConserves(deck0, deck1);
  }

  // ---------------------------------------------------------------------------
  // The game loop
  // ---------------------------------------------------------------------------

  /**
    The loop guard of the game (its name notwithstanding, true while the game
    goes on): player 0 holds some but not all of the cards.
   */
  predicate HasAnyoneWon(deck0: seq<Card>, cardsCount: nat)
  {
    |deck0| > 0 && |deck0| != cardsCount
  }

  /** Between hands the guard holds iff both players hold a card. */
  lemma GuardMeansBothHoldCards(deck0: seq<Card>, deck1: seq<Card>, cardsCount: nat)
    requires |deck0| + |deck1| == cardsCount
    ensures HasAnyoneWon(deck0, cardsCount) <==> deck0 != [] && deck1 != []
  {
  }

  /** While the game goes on, the first pair of a hand is always drawn. */
  lemma FirstPairNeverFails(deck0: seq<Card>, deck1: seq<Card>, cardsCount: nat)
    requires |deck0| + |deck1| == cardsCount
    requires HasAnyoneWon(deck0, cardsCount)
    ensures PlayCards(Table(deck0, deck1, [])).0
    ensures |ResolveHand(deck0, deck1).1.played| >= 2
  {
    var t0 := Table(deck0, deck1, []);
    var t := Fight(t0).1;
    assert Drawn(t0, t) == t.played;
  }

  /** How a game stops: a winner, or the hand budget ran out while both players still hold cards. */
  datatype GameOutcome = Winner(player: nat) | Unfinished

  /**
    The game loop run for at most `hands` hands: while the guard holds, play a
    hand; once it fails, player 0 wins iff it still holds a card.
   */
  function Game(deck0: seq<Card>, deck1: seq<Card>, cardsCount: nat, hands: nat)
    : (r: (GameOutcome, seq<Card>, seq<Card>))
    decreases hands
  {
    if !HasAnyoneWon(deck0, cardsCount) then
      (Winner(if |deck0| > 0 then 0 else 1), deck0, deck1)
    else if hands == 0 then
      (Unfinished, deck0, deck1)
    else
      var (next0, next1) := PlayHand(deck0, deck1);
      Game(next0, next1, cardsCount, hands - 1)
  }

  /** The cards the two players hold between them. */
  ghost function Holding(deck0: seq<Card>, deck1: seq<Card>): multiset<Card>
  {
    multiset(deck0) + multiset(deck1)
  }

  /** Whatever the hand budget, a game neither loses nor invents a card. */
  lemma {:induction false} GameConserves(deck0: seq<Card>, deck1: seq<Card>, cardsCount: nat, hands: nat)
    decreases hands
    ensures Holding(Game(deck0, deck1, cardsCount, hands).1, Game(deck0, deck1, cardsCount, hands).2) == Holding(deck0, deck1)
  {
    if HasAnyoneWon(deck0, cardsCount) && hands > 0 {
      var next0, next1 := NextHand(deck0, deck1, cardsCount, hands);
      GameConserves(next0, next1, cardsCount, hands - 1);
      assert Holding(Game(deck0, deck1, cardsCount, hands).1, Game(deck0, deck1, cardsCount, hands).2) == Holding(deck0, deck1);
    } else {
      assert Game(deck0, deck1, cardsCount, hands).1 == deck0;
      assert Game(deck0, deck1, cardsCount, hands).2 == deck1;
    }
  }

  /**
    A game stops early only while the guard still holds; otherwise it stops
    when the guard fails, and player 0 is the winner iff it holds a card.
   */
  lemma {:induction false} GameStops(deck0: seq<Card>, deck1: seq<Card>, cardsCount: nat, hands: nat)
    decreases hands
    ensures var r := Game(deck0, deck1, cardsCount, hands);
      && (r.0.Unfinished? ==> HasAnyoneWon(r.1, cardsCount))
      && (r.0.Winner? ==> r.0.player < 2 && !HasAnyoneWon(r.1, cardsCount))
      && (r.0.Winner? ==> (r.0.player == 0 <==> |r.1| > 0))
  {
    if HasAnyoneWon(deck0, cardsCount) && hands > 0 {
      var next := PlayHand(deck0, deck1);
      GameStep(deck0, deck1, cardsCount, hands);
      GameStops(next.0, next.1, cardsCount, hands - 1);
    }
  }

  /** When the decks hold `cardsCount` cards between them, the winner of a game holds all of them. */
  lemma WinnerHoldsAllCards(deck0: seq<Card>, deck1: seq<Card>, cardsCount: nat, hands: nat)
    requires |deck0| + |deck1| == cardsCount
    ensures var r := Game(deck0, deck1, cardsCount, hands);
      && (r.0 == Winner(0) ==> |r.1| == cardsCount && r.2 == [])
      && (r.0 == Winner(1) ==> r.1 == [] && |r.2| == cardsCount)
  {
    GameConserves(deck0, deck1, cardsCount, hands);
    GameStops(deck0, deck1, cardsCount, hands);
    var r := Game(deck0, deck1, cardsCount, hands);
    assert |multiset(r.1) + multiset(r.2)| == |multiset(deck0) + multiset(deck1)|;
  }

  /** The decks after one more hand of a game that goes on: the rest of the game starts there, with the same cards. */
  lemma NextHand(deck0: seq<Card>, deck1: seq<Card>, cardsCount: nat, hands: nat) returns (next0: seq<Card>, next1: seq<Card>)
    requires HasAnyoneWon(deck0, cardsCount) && hands > 0
    ensures Game(deck0, deck1, cardsCount, hands) == Game(next0, next1, cardsCount, hands - 1)
    ensures Holding(next0, next1) == Holding(deck0, deck1)
  {
    next0, next1 := PlayHand(deck0, deck1).0, PlayHand(deck0, deck1).1;
    GameStep(deck0, deck1, cardsCount, hands);
    PlayHandConserves(deck0, deck1);
  }

  /** While the guard holds and hands remain, the game is one hand followed by the rest of the game. */
  lemma GameStep(deck0: seq<Card>, deck1: seq<Card>, cardsCount: nat, hands: nat)
    requires HasAnyoneWon(deck0, cardsCount) && hands > 0
    ensures Game(deck0, deck1, cardsCount, hands)
      == Game(PlayHand(deck0, deck1).0, PlayHand(deck0, deck1).1, cardsCount, hands - 1)
  {
  }

  /**
    A hand lost by a failed pick ends the game at once: the loser has no card
    left and the winner holds every card.
   */
  lemma FailedPickEndsGame(deck0: seq<Card>, deck1: seq<Card>)
    requires Fight(Table(deck0, deck1, [])).0.PickFailed?
    ensures var (next0, next1) := PlayHand(deck0, deck1);
      !HasAnyoneWon(next0, |deck0| + |deck1|)
  {
    FailedPickGoesToOtherPlayer(deck0, deck1);
    PlayHandConserves(deck0, deck1);
    var next := PlayHand(deck0, deck1);
    assert |multiset(next.0) + multiset(next.1)| == |multiset(deck0) + multiset(deck1)|;
  }
}
